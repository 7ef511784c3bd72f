/**
 Joining a combined group, from a Welcome or by an external commit: the joiner ends with exactly the
 groups the members end with. A failed external join deletes the PQ group it stored, and with it one
 that was stored under the same id before.
 */
module ApqJoin {
  import opened Prelude
  import opened ApqInfo
  import opened ApqGroup
  import opened ApqCommit
  import Tree = ApqTree

  // ---- Welcome ----

  /** What a Welcome tells about one leg: everything but the pre-shared key values, section 12.4.3.1 of RFC 9420. */
  datatype LegWelcome = LegWelcome(id: GroupId, suite: Suite, epoch: nat, dict: Dictionary, leaves: Tree.Leaves,
                                   joiner: Secret, psks: seq<PskKey>)

  datatype Welcome = Welcome(t: LegWelcome, pq: LegWelcome)

  function WelcomeLeg(m: Mls, g: Group, c: Commit, after: Group): (w: LegWelcome) {
    LegWelcome(after.id, after.suite, after.epoch, after.dict, after.leaves, m.join(g.secret, c), c.psks)
  }

  function WelcomeFor(m: Mls, pq: Group, t: Group, b: Built): (w: Welcome) {
    Welcome(WelcomeLeg(m, t, b.t, b.tAfter), WelcomeLeg(m, pq, b.pq, b.pqAfter))
  }

  function JoinLeg(m: Mls, w: LegWelcome, psks: PskMap): (r: Option<Group>) {
    match Load(psks, w.psks)
    case None => None
    case Some(values) => Some(Group(w.id, w.suite, w.epoch, w.dict, w.leaves, m.mix(w.joiner, values)))
  }

  datatype Joined = Joined(pq: Group, t: Group)

  /** PQ leg, then its key into the store, then the T leg, which needs that key. */
  method NewFromWelcome(m: Mls, store: PskStore, w: Welcome) returns (r: Option<Joined>)
    modifies store
    ensures var pq := JoinLeg(m, w.pq, old(store.psks));
            if pq.None? then r == None && store.psks == old(store.psks)
            else
              var psk := PskOf(m, pq.value, w.t.suite);
              var t := JoinLeg(m, w.t, old(store.psks)[psk.key := psk.value]);
              && store.psks == old(store.psks)[psk.key := psk.value]
              && r == (if t.None? then None else Some(Joined(pq.value, t.value)))
  {
    var pq := JoinLeg(m, w.pq, store.psks);
    if pq.None? { return None; }
    var _ := store.DeriveAndStore(m, pq.value, w.t.suite);
    var t := JoinLeg(m, w.t, store.psks);
    if t.None? { return None; }
    return Some(Joined(pq.value, t.value));
  }

  /** Whatever keys the joiner held before, it derives the committer's key and both of the committer's groups. */
  lemma JoinerAgrees(m: Mls, pq: Leg, t: Leg, psks: PskMap, cfg: Config, b: Built, theirs: PskMap)
    requires Finalize(m, pq, t, psks, cfg).result == Ok(b) && AgreeOn(psks, theirs, cfg.tPsks)
    ensures var w := WelcomeFor(m, pq.group, t.group, b);
            var psk := PskOf(m, b.pqAfter, w.t.suite);
            && JoinLeg(m, w.pq, theirs) == Some(b.pqAfter)
            && JoinLeg(m, w.t, theirs[psk.key := psk.value]) == Some(b.tAfter)
  {
    assert Load(theirs, []).value == [];
    assert cfg.tPsks + [] == cfg.tPsks;
    LoadAgrees(psks, theirs, PskOf(m, b.pqAfter, t.group.suite), cfg.tPsks, []);
  }

  // ---- External commit ----

  /** A proposal taken along in both legs: the leaf it removes in each. */
  datatype ProposalPair = ProposalPair(t: nat, pq: nat)

  /** The joiner's leaf in each leg, the proposals it takes along, and its connection-offer keys. */
  datatype Entry = Entry(t: Tree.LeafNode, pq: Tree.LeafNode, proposals: seq<ProposalPair>, tPsks: seq<PskKey>)

  function TRemoves(ps: seq<ProposalPair>): (r: seq<nat>) { seq(|ps|, i requires 0 <= i < |ps| => ps[i].t) }

  function PqRemoves(ps: seq<ProposalPair>): (r: seq<nat>) { seq(|ps|, i requires 0 <= i < |ps| => ps[i].pq) }

  function TEntry(e: Entry): (c: Tree.Changes) {
    Tree.Changes(Tree.NewMember, [], TRemoves(e.proposals), [], Some(e.t))
  }

  function PqEntry(e: Entry): (c: Tree.Changes) {
    Tree.Changes(Tree.NewMember, [], PqRemoves(e.proposals), [], Some(e.pq))
  }

  function ExternalBuild(m: Mls, pq: Group, t: Group, psks: PskMap, e: Entry): (r: Build) {
    BuildPair(m, pq, t, psks, PqEntry(e), TEntry(e), [], e.tPsks)
  }

  /** The stored groups after a build: with both legs, or, if only the PQ leg was built, without any group of its id. */
  function StoredAfter(before: map<GroupId, Group>, pq: Group, t: Group, b: Build): (after: map<GroupId, Group>) {
    match b.result
    case Ok(built) => before[pq.id := built.pqAfter][t.id := built.tAfter]
    case Err(_) => if b.pqAfter.Some? then before - {pq.id} else before
  }

  class GroupStore {
    var groups: map<GroupId, Group>

    constructor ()
      ensures groups == map[]
    {
      groups := map[];
    }

    /** A finalized leg is merged and persisted at once. */
    method Put(g: Group)
      modifies this
      ensures groups == old(groups)[g.id := g]
    {
      groups := groups[g.id := g];
    }

    method Delete(id: GroupId)
      modifies this
      ensures groups == old(groups) - {id}
    {
      groups := groups - {id};
    }
  }

  /** The groups as the group info describes them; a failed T leg rolls the persisted PQ leg back. */
  method BuildExternal(m: Mls, groups: GroupStore, store: PskStore, pq: Group, t: Group, e: Entry)
    returns (r: Result<Built, BuildError>)
    modifies groups, store
    ensures var b := ExternalBuild(m, pq, t, old(store.psks), e);
            && r == b.result && store.psks == b.psks
            && groups.groups == StoredAfter(old(groups.groups), pq, t, b)
  {
    var next := NextInfo(pq, t);
    if next.None? { return Err(NoApqInfo); }
    var info := next.value;
    var update := Update(APQMLS_COMPONENT_ID, Encoded(info));

    var pqCommit := Commit(PqEntry(e), [update], []);
    if !m.accepts(pq, pqCommit) { return Err(PqRefused); }
    var pqAfter := Advance(m, pq, pqCommit, [], WithInfo(pq.dict, info));
    groups.Put(pqAfter);

    var key := store.DeriveAndStore(m, pqAfter, t.suite);
    var tCommit := Commit(TEntry(e), [update], [] + [key] + e.tPsks);
    var values := Load(store.psks, tCommit.psks);
    if values.None? || !m.accepts(t, tCommit) {
      assert groups.groups - {pq.id} == old(groups.groups) - {pq.id};
      groups.Delete(pqAfter.id);
      return Err(TRefused);
    }
    var tAfter := Advance(m, t, tCommit, values.value, WithInfo(t.dict, info));
    groups.Put(tAfter);
    return Ok(Built(pqCommit, tCommit, pqAfter, tAfter));
  }

  /** A successful build stores both new groups and touches no other. */
  lemma SuccessStoresBoth(m: Mls, pq: Group, t: Group, psks: PskMap, e: Entry, before: map<GroupId, Group>, b: Built, id: GroupId)
    requires ExternalBuild(m, pq, t, psks, e).result == Ok(b) && pq.id != t.id
    ensures var after := StoredAfter(before, pq, t, ExternalBuild(m, pq, t, psks, e));
            && pq.id in after && after[pq.id] == b.pqAfter && b.pqAfter.epoch == pq.epoch + 1
            && t.id in after && after[t.id] == b.tAfter && b.tAfter.epoch == t.epoch + 1
            && (id != pq.id && id != t.id ==> (id in after <==> id in before) && (id in before ==> after[id] == before[id]))
  {
  }

  /** When the T leg is refused, the rollback restores the stored groups exactly if no PQ group of that id was stored before. */
  lemma RollbackRestoresIff(m: Mls, pq: Group, t: Group, psks: PskMap, e: Entry, before: map<GroupId, Group>)
    requires ExternalBuild(m, pq, t, psks, e).result == Err(TRefused)
    ensures StoredAfter(before, pq, t, ExternalBuild(m, pq, t, psks, e)) == before <==> pq.id !in before
  {
    var after := StoredAfter(before, pq, t, ExternalBuild(m, pq, t, psks, e));
    assert after == before - {pq.id};
    if pq.id !in before { assert before - {pq.id} == before; }
  }

  /** Refused before that, a build leaves the stored groups alone. */
  lemma EarlyRefusalStoresNothing(m: Mls, pq: Group, t: Group, psks: PskMap, e: Entry, before: map<GroupId, Group>)
    requires ExternalBuild(m, pq, t, psks, e).result.Err? && ExternalBuild(m, pq, t, psks, e).result != Err(TRefused)
    ensures StoredAfter(before, pq, t, ExternalBuild(m, pq, t, psks, e)) == before
  {
  }

  /** A member with both groups stored rejoins with a connection-offer key its store does not hold: the PQ group is gone. */
  lemma FailedRejoinLosesGroup(m: Mls, pq: Group, t: Group, node: Tree.LeafNode)
    requires NextInfo(pq, t).Some? && pq.id != t.id && forall c :: m.accepts(pq, c)
    ensures var e := Entry(node, node, [ProposalPair(0, 0)], [External(7)]);
            var b := ExternalBuild(m, pq, t, map[], e);
            && b.result == Err(TRefused)
            && StoredAfter(map[pq.id := pq, t.id := t], pq, t, b) == map[t.id := t]
  {
    var e := Entry(node, node, [ProposalPair(0, 0)], [External(7)]);
    var b := ExternalBuild(m, pq, t, map[], e);
    var psk := PskOf(m, b.pqAfter.value, t.suite);
    var keys := [] + [psk.key] + e.tPsks;
    assert keys[1] == External(7) && External(7) !in map[psk.key := psk.value];
  }

  /** The joiner's two leaves belong together, and the proposals remove the same leaves in both legs. */
  predicate EntryMatches(same: Tree.Equivalence, e: Entry) {
    && same(e.pq.credential, e.t.credential)
    && Tree.Indices(PqRemoves(e.proposals)) == Tree.Indices(TRemoves(e.proposals))
  }

  /** Members accept the join exactly in that case, and stage the joiner's groups. */
  lemma ExternalIsAcceptedIff(m: Mls, same: Tree.Equivalence, pq: Leg, t: Leg, psks: PskMap, e: Entry, b: Built, theirs: PskMap)
    requires Linked(pq.group, t.group)
    requires ExternalBuild(m, pq.group, t.group, psks, e).result == Ok(b)
    requires pq.own !in PqRemoves(e.proposals) && t.own !in TRemoves(e.proposals) && AgreeOn(psks, theirs, e.tPsks)
    ensures var p := Process(m, same, pq, t, theirs, CommitMessage(b.pq), CommitMessage(b.t));
            && (p.result.Ok? <==> EntryMatches(same, e))
            && (p.result.Ok? ==> p.result.value == Pair(Staged(b.pq, b.pqAfter, false), Staged(b.t, b.tAfter, false)))
            && (p.result.Err? ==> p.result.error == Mismatched)
  {
    assert [] + e.tPsks == e.tPsks;
    BuiltIsAcceptedIff(m, same, pq, t, psks, theirs, PqEntry(e), TEntry(e),
                       [], e.tPsks, b);
  }

  /** A successful external join leaves the joiner with linked groups. */
  lemma ExternalJoinIsLinked(m: Mls, pq: Group, t: Group, psks: PskMap, e: Entry, b: Built)
    requires Linked(pq, t) && ExternalBuild(m, pq, t, psks, e).result == Ok(b)
    ensures FreshlyLinked(b.pqAfter, b.tAfter)
  {
    BuiltIsFreshlyLinked(m, pq, t, psks, PqEntry(e), TEntry(e), [], e.tPsks, b);
  }
}
