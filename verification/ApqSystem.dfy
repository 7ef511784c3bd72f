/**
 Many clients of one combined group. In a combined round one member commits, the others process and
 merge, removed members drop out and new ones join from the Welcome; in a T-only round the T group
 alone moves on; in an external round a newcomer commits itself in. After any number of rounds all
 members hold the same two groups, secrets included, though each has a key store of its own, and each
 finds its own node on its own leaf in both legs.
 */
module ApqSystem {
  import opened Prelude
  import opened ApqInfo
  import opened ApqGroup
  import opened ApqCommit
  import opened ApqJoin
  import Runs = ApqRuns
  import Tree = ApqTree

  datatype Client = Client(pq: Leg, t: Leg, psks: PskMap, pqNode: Tree.LeafNode, tNode: Tree.LeafNode)

  /** Which of the commit's Adds the joiner is, and the keys it holds. */
  datatype Joiner = Joiner(add: nat, psks: PskMap)

  datatype Round =
    | Combined(committer: nat, cfg: Config, joiners: map<nat, Joiner>)
    | TOnly(committer: nat, commit: Commit)
    | External(joiner: nat, entry: Entry, psks: PskMap)

  /** The groups as last committed, and the members with their own copies. */
  datatype System = System(pq: Group, t: Group, members: map<nat, Client>)

  function OrOwn(path: Option<Tree.LeafNode>, own: Tree.LeafNode): (node: Tree.LeafNode) {
    if path.Some? then path.value else own
  }

  // ---- Combined rounds ----

  predicate LegalCombined(m: Mls, same: Tree.Equivalence, s: System, r: Round)
    requires r.Combined?
  {
    && r.committer in s.members
    && var c := s.members[r.committer];
    && c.t.own !in r.cfg.removals
    && Finalize(m, c.pq, c.t, c.psks, r.cfg).result.Ok?
    && Equivalent(same, c.pq, c.t, r.cfg)
    && (forall i | i in s.members :: AgreeOn(c.psks, s.members[i].psks, r.cfg.tPsks))
    && (forall i | i in r.joiners :: r.joiners[i].add < |r.cfg.adds| && AgreeOn(c.psks, r.joiners[i].psks, r.cfg.tPsks))
    && (forall i, j | i in r.joiners && j in r.joiners && i != j :: r.joiners[i].add != r.joiners[j].add)
  }

  function BuiltBy(m: Mls, s: System, r: Round): (b: Built)
    requires r.Combined? && r.committer in s.members
    requires var c := s.members[r.committer]; Finalize(m, c.pq, c.t, c.psks, r.cfg).result.Ok?
  {
    var c := s.members[r.committer];
    Finalize(m, c.pq, c.t, c.psks, r.cfg).result.value
  }

  /** The committer merges what it staged. */
  function Commits(m: Mls, c: Client, cfg: Config, b: Built): (r: Client) {
    Client(Merged(c.pq.(pending := Some(b.pqAfter))), Merged(c.t.(pending := Some(b.tAfter))),
           Finalize(m, c.pq, c.t, c.psks, cfg).psks,
           OrOwn(b.pq.changes.path, c.pqNode), OrOwn(b.t.changes.path, c.tNode))
  }

  /** Another member merges what processing staged; one that cannot process stays behind. */
  function Receives(m: Mls, same: Tree.Equivalence, c: Client, b: Built): (r: Client) {
    var p := Process(m, same, c.pq, c.t, c.psks, CommitMessage(b.pq), CommitMessage(b.t));
    match p.result
    case Ok(Pair(Staged(_, pqAfter, _), Staged(_, tAfter, _))) =>
      c.(pq := c.pq.(group := pqAfter, pending := None), t := c.t.(group := tAfter, pending := None), psks := p.psks)
    case _ => c.(psks := p.psks)
  }

  const NO_GROUP: Group := Group(0, 0, 0, map[], [], 0)

  /** A joiner looks for its leaf where its Add was placed; without a group it would keep an empty one. */
  function Joins(m: Mls, j: Joiner, w: Welcome, kp: KeyPackage, pqLeaf: nat, tLeaf: nat): (r: Client) {
    match JoinLeg(m, w.pq, j.psks)
    case None => Client(Leg(NO_GROUP, pqLeaf, None), Leg(NO_GROUP, tLeaf, None), j.psks, kp.pq, kp.t)
    case Some(pq) =>
      var psk := PskOf(m, pq, w.t.suite);
      var psks := j.psks[psk.key := psk.value];
      match JoinLeg(m, w.t, psks)
      case None => Client(Leg(pq, pqLeaf, None), Leg(NO_GROUP, tLeaf, None), psks, kp.pq, kp.t)
      case Some(t) => Client(Leg(pq, pqLeaf, None), Leg(t, tLeaf, None), psks, kp.pq, kp.t)
  }

  function Member(m: Mls, same: Tree.Equivalence, s: System, r: Round, b: Built, i: nat): (c: Client)
    requires r.Combined? && i in s.members
  {
    if i == r.committer then Commits(m, s.members[i], r.cfg, b) else Receives(m, same, s.members[i], b)
  }

  function Arrival(m: Mls, s: System, r: Round, b: Built, i: nat): (c: Client)
    requires r.Combined? && i in r.joiners && r.joiners[i].add < |r.cfg.adds|
  {
    var add := r.joiners[i].add;
    Joins(m, r.joiners[i], WelcomeFor(m, s.pq, s.t, b), r.cfg.adds[add],
          Tree.PlacedAt(Tree.RemoveAll(s.pq.leaves, r.cfg.removals), PqNodes(r.cfg.adds), add),
          Tree.PlacedAt(Tree.RemoveAll(s.t.leaves, r.cfg.removals), TNodes(r.cfg.adds), add))
  }

  function AfterCombined(m: Mls, same: Tree.Equivalence, s: System, r: Round): (n: System)
    requires r.Combined? && LegalCombined(m, same, s, r)
  {
    var b := BuiltBy(m, s, r);
    var stay := map i | i in s.members && s.members[i].t.own !in r.cfg.removals :: Member(m, same, s, r, b, i);
    var come := map i | i in r.joiners :: Arrival(m, s, r, b, i);
    System(b.pqAfter, b.tAfter, stay + come)
  }

  // ---- T-only rounds ----

  /** A T-only commit of a member that leaves the membership and the component alone and keeps the same user. */
  predicate LegalTOnly(m: Mls, same: Tree.Equivalence, s: System, r: Round)
    requires r.TOnly?
  {
    && r.committer in s.members
    && var c := s.members[r.committer];
    && r.commit.changes == Tree.Changes(Tree.Member(c.t.own), [], [], [], r.commit.changes.path)
    && (r.commit.changes.path.Some? ==> same(c.pqNode.credential, r.commit.changes.path.value.credential))
    && Runs.KeepsComponent(Runs.State(s.pq, s.t), Runs.TOnly(r.commit, []))
    && m.accepts(s.t, r.commit)
    && (forall i | i in s.members :: AgreeOn(c.psks, s.members[i].psks, r.commit.psks))
  }

  function TAfter(m: Mls, s: System, r: Round): (g: Group)
    requires r.TOnly? && r.committer in s.members && Load(s.members[r.committer].psks, r.commit.psks).Some?
  {
    Runs.Stage(m, s.t, r.commit, Load(s.members[r.committer].psks, r.commit.psks).value)
  }

  /** The committer has staged its commit; everyone else reads it. */
  function TMember(m: Mls, s: System, r: Round, after: Group, i: nat): (c: Client)
    requires r.TOnly? && i in s.members
  {
    var c := s.members[i];
    if i == r.committer then c.(t := c.t.(group := after, pending := None), tNode := OrOwn(r.commit.changes.path, c.tNode))
    else
      match ReadLeg(m, c.t.group, c.t.own, c.psks, CommitMessage(r.commit))
      case Ok(Staged(_, g, _)) => c.(t := c.t.(group := g, pending := None))
      case _ => c
  }

  function AfterTOnly(m: Mls, s: System, r: Round): (n: System)
    requires r.TOnly? && r.committer in s.members && Load(s.members[r.committer].psks, r.commit.psks).Some?
  {
    var after := TAfter(m, s, r);
    System(s.pq, after, map i | i in s.members :: TMember(m, s, r, after, i))
  }

  // ---- External rounds ----

  predicate LegalExternal(m: Mls, same: Tree.Equivalence, s: System, r: Round)
    requires r.External?
  {
    && ExternalBuild(m, s.pq, s.t, r.psks, r.entry).result.Ok?
    && EntryMatches(same, r.entry)
    && forall i | i in s.members :: AgreeOn(r.psks, s.members[i].psks, r.entry.tPsks)
  }

  /** The newcomer's groups are merged as soon as they are built. */
  function Newcomer(m: Mls, s: System, r: Round, b: Built): (c: Client)
    requires r.External?
  {
    var (pqLeaf, tLeaf) := (Tree.FirstBlank(Tree.RemoveAll(s.pq.leaves, PqRemoves(r.entry.proposals))),
                            Tree.FirstBlank(Tree.RemoveAll(s.t.leaves, TRemoves(r.entry.proposals))));
    Client(Leg(b.pqAfter, pqLeaf, None), Leg(b.tAfter, tLeaf, None), ExternalBuild(m, s.pq, s.t, r.psks, r.entry).psks,
           r.entry.pq, r.entry.t)
  }

  function AfterExternal(m: Mls, same: Tree.Equivalence, s: System, r: Round): (n: System)
    requires r.External? && LegalExternal(m, same, s, r)
  {
    var b := ExternalBuild(m, s.pq, s.t, r.psks, r.entry).result.value;
    var stay := map i | i in s.members && s.members[i].t.own !in TRemoves(r.entry.proposals) :: Receives(m, same, s.members[i], b);
    System(b.pqAfter, b.tAfter, stay[r.joiner := Newcomer(m, s, r, b)])
  }

  // ---- Agreement ----

  /** The groups everyone holds, the same leaf in both, and the client's own node on it. */
  predicate Holds(c: Client, pq: Group, t: Group) {
    && c.pq.group == pq && c.t.group == t && c.pq.own == c.t.own
    && Tree.LeafAt(pq.leaves, c.pq.own) == Some(c.pqNode) && Tree.LeafAt(t.leaves, c.t.own) == Some(c.tNode)
  }

  /** No two members sit on the same leaf. */
  predicate Apart(members: map<nat, Client>) {
    forall i, j | i in members && j in members && i != j :: members[i].t.own != members[j].t.own
  }

  predicate Agreed(same: Tree.Equivalence, s: System) {
    && Linked(s.pq, s.t) && Runs.InLockstep(same, Runs.State(s.pq, s.t))
    && Apart(s.members) && forall i | i in s.members :: Holds(s.members[i], s.pq, s.t)
  }

  /** The leaves after a combined round. */
  lemma CombinedLeaves(m: Mls, same: Tree.Equivalence, s: System, r: Round)
    requires r.Combined? && Agreed(same, s) && LegalCombined(m, same, s, r)
    ensures var b, c := BuiltBy(m, s, r), s.members[r.committer];
            && b.pq.changes == PqChanges(r.cfg, c.pq) && b.t.changes == TChanges(r.cfg, c.t)
            && b.pqAfter.leaves == Tree.Apply(s.pq.leaves, b.pq.changes) && b.tAfter.leaves == Tree.Apply(s.t.leaves, b.t.changes)
            && Tree.Alike(same, b.pq.changes, b.t.changes)
  {
    var c := s.members[r.committer];
    assert Holds(c, s.pq, s.t);
    ComparesAsEquivalent(same, c.pq, c.t, r.cfg);
  }

  lemma CombinedPublicState(m: Mls, same: Tree.Equivalence, s: System, r: Round)
    requires r.Combined? && Agreed(same, s) && LegalCombined(m, same, s, r)
    ensures var b := BuiltBy(m, s, r); Linked(b.pqAfter, b.tAfter) && Runs.InLockstep(same, Runs.State(b.pqAfter, b.tAfter))
  {
    var b, c := BuiltBy(m, s, r), s.members[r.committer];
    assert Holds(c, s.pq, s.t);
    CombinedLeaves(m, same, s, r);
    BuiltIsFreshlyLinked(m, s.pq, s.t, c.psks, b.pq.changes, b.t.changes, r.cfg.tPsks, [], b);
    Tree.ApplyKeeps(same, s.pq.leaves, s.t.leaves, b.pq.changes, b.t.changes);
    Tree.ApplyIsCanonical(s.pq.leaves, b.pq.changes);
    Tree.ApplyIsCanonical(s.t.leaves, b.t.changes);
  }

  lemma MemberFollows(m: Mls, same: Tree.Equivalence, s: System, r: Round, i: nat)
    requires r.Combined? && Agreed(same, s) && LegalCombined(m, same, s, r)
    requires i in s.members && s.members[i].t.own !in r.cfg.removals
    ensures var b, c := BuiltBy(m, s, r), Member(m, same, s, r, BuiltBy(m, s, r), i);
            c.pq.group == b.pqAfter && c.t.group == b.tAfter && c.pq.own == s.members[i].pq.own && c.t.own == s.members[i].t.own
    ensures i != r.committer ==>
              var c := Member(m, same, s, r, BuiltBy(m, s, r), i); c.pqNode == s.members[i].pqNode && c.tNode == s.members[i].tNode
  {
    if i != r.committer {
      var c, peer := s.members[r.committer], s.members[i];
      assert Holds(c, s.pq, s.t) && Holds(peer, s.pq, s.t);
      FinalizedIsAcceptedIff(m, same, c.pq, c.t, c.psks, r.cfg, BuiltBy(m, s, r), peer.pq, peer.t, peer.psks);
    }
  }

  lemma MemberHolds(m: Mls, same: Tree.Equivalence, s: System, r: Round, i: nat)
    requires r.Combined? && Agreed(same, s) && LegalCombined(m, same, s, r)
    requires i in s.members && s.members[i].t.own !in r.cfg.removals
    ensures var b := BuiltBy(m, s, r); Holds(Member(m, same, s, r, b, i), b.pqAfter, b.tAfter)
  {
    var b, c := BuiltBy(m, s, r), s.members[i];
    assert Holds(c, s.pq, s.t) && Holds(s.members[r.committer], s.pq, s.t);
    MemberFollows(m, same, s, r, i);
    CombinedLeaves(m, same, s, r);
    Tree.MembersKeepTheirLeaf(s.pq.leaves, b.pq.changes, c.pq.own);
    Tree.MembersKeepTheirLeaf(s.t.leaves, b.t.changes, c.t.own);
    assert Tree.OnPath(b.t.changes, c.t.own) <==> b.t.changes.path.Some? && i == r.committer;
    assert Tree.OnPath(b.pq.changes, c.pq.own) <==> b.pq.changes.path.Some? && i == r.committer;
  }

  lemma PlacedTogether(m: Mls, same: Tree.Equivalence, s: System, r: Round, k: nat)
    requires r.Combined? && Agreed(same, s) && LegalCombined(m, same, s, r) && k < |r.cfg.adds|
    ensures Tree.PlacedAt(Tree.RemoveAll(s.pq.leaves, r.cfg.removals), PqNodes(r.cfg.adds), k) ==
            Tree.PlacedAt(Tree.RemoveAll(s.t.leaves, r.cfg.removals), TNodes(r.cfg.adds), k)
  {
    Tree.RemovesKeep(same, s.pq.leaves, s.t.leaves, r.cfg.removals, r.cfg.removals);
    Tree.PlacedAgrees(same, Tree.RemoveAll(s.pq.leaves, r.cfg.removals), Tree.RemoveAll(s.t.leaves, r.cfg.removals),
                      PqNodes(r.cfg.adds), TNodes(r.cfg.adds), k);
  }

  lemma JoinerFollows(m: Mls, same: Tree.Equivalence, s: System, r: Round, i: nat)
    requires r.Combined? && Agreed(same, s) && LegalCombined(m, same, s, r) && i in r.joiners
    ensures var b := BuiltBy(m, s, r); Arrival(m, s, r, b, i).pq.group == b.pqAfter && Arrival(m, s, r, b, i).t.group == b.tAfter
  {
    var c := s.members[r.committer];
    assert Holds(c, s.pq, s.t);
    JoinerAgrees(m, c.pq, c.t, c.psks, r.cfg, BuiltBy(m, s, r), r.joiners[i].psks);
  }

  lemma JoinerHolds(m: Mls, same: Tree.Equivalence, s: System, r: Round, i: nat)
    requires r.Combined? && Agreed(same, s) && LegalCombined(m, same, s, r) && i in r.joiners
    ensures var b := BuiltBy(m, s, r); Holds(Arrival(m, s, r, b, i), b.pqAfter, b.tAfter)
  {
    JoinerFollows(m, same, s, r, i);
    JoinerSits(m, same, s, r, r.joiners[i].add);
    PlacedTogether(m, same, s, r, r.joiners[i].add);
  }

  lemma JoinerSits(m: Mls, same: Tree.Equivalence, s: System, r: Round, k: nat)
    requires r.Combined? && Agreed(same, s) && LegalCombined(m, same, s, r) && k < |r.cfg.adds|
    ensures var b := BuiltBy(m, s, r);
            && Tree.LeafAt(b.pqAfter.leaves, Tree.PlacedAt(Tree.RemoveAll(s.pq.leaves, r.cfg.removals), PqNodes(r.cfg.adds), k))
               == Some(r.cfg.adds[k].pq)
            && Tree.LeafAt(b.tAfter.leaves, Tree.PlacedAt(Tree.RemoveAll(s.t.leaves, r.cfg.removals), TNodes(r.cfg.adds), k))
               == Some(r.cfg.adds[k].t)
  {
    var b := BuiltBy(m, s, r);
    assert Holds(s.members[r.committer], s.pq, s.t);
    CombinedLeaves(m, same, s, r);
    Tree.AddedFindTheirLeaf(s.pq.leaves, b.pq.changes, k);
    Tree.AddedFindTheirLeaf(s.t.leaves, b.t.changes, k);
  }

  /** After the removals a joiner's leaf is free and a staying member's is not. */
  lemma JoinerSeat(m: Mls, s: System, r: Round, b: Built, i: nat)
    requires r.Combined? && i in r.joiners && r.joiners[i].add < |r.cfg.adds|
    ensures var own, rest := Arrival(m, s, r, b, i).t.own, Tree.RemoveAll(s.t.leaves, r.cfg.removals);
            Tree.LeafAt(rest, own) == None && own == Tree.PlacedAt(rest, TNodes(r.cfg.adds), r.joiners[i].add)
  {
    Tree.PlacedHolds(Tree.RemoveAll(s.t.leaves, r.cfg.removals), TNodes(r.cfg.adds), r.joiners[i].add);
  }

  lemma MemberSeat(m: Mls, same: Tree.Equivalence, s: System, r: Round, i: nat)
    requires r.Combined? && Agreed(same, s) && LegalCombined(m, same, s, r)
    requires i in s.members && s.members[i].t.own !in r.cfg.removals
    ensures var own := Member(m, same, s, r, BuiltBy(m, s, r), i).t.own;
            Tree.LeafAt(Tree.RemoveAll(s.t.leaves, r.cfg.removals), own).Some? && own == s.members[i].t.own
  {
    assert Holds(s.members[i], s.pq, s.t);
    MemberFollows(m, same, s, r, i);
    Tree.RemoveAllBlanks(s.t.leaves, r.cfg.removals, s.members[i].t.own);
  }

  lemma JoinersApart(m: Mls, s: System, r: Round, b: Built, i: nat, j: nat)
    requires r.Combined? && i in r.joiners && j in r.joiners && r.joiners[i].add != r.joiners[j].add
    requires r.joiners[i].add < |r.cfg.adds| && r.joiners[j].add < |r.cfg.adds|
    ensures Arrival(m, s, r, b, i).t.own != Arrival(m, s, r, b, j).t.own
  {
    JoinerSeat(m, s, r, b, i);
    JoinerSeat(m, s, r, b, j);
    var rest, a, c := Tree.RemoveAll(s.t.leaves, r.cfg.removals), r.joiners[i].add, r.joiners[j].add;
    if a < c { Tree.PlacedApart(rest, TNodes(r.cfg.adds), a, c); } else { Tree.PlacedApart(rest, TNodes(r.cfg.adds), c, a); }
  }

  /** Who is a member after the round: the joiners, and the old members that stay. */
  lemma CombinedMember(m: Mls, same: Tree.Equivalence, s: System, r: Round, i: nat)
    requires r.Combined? && LegalCombined(m, same, s, r) && i in AfterCombined(m, same, s, r).members
    ensures var b, c := BuiltBy(m, s, r), AfterCombined(m, same, s, r).members[i];
            if i in r.joiners then c == Arrival(m, s, r, b, i)
            else i in s.members && s.members[i].t.own !in r.cfg.removals && c == Member(m, same, s, r, b, i)
  {
  }

  /** Old members keep their leaves, joiners go to free ones. */
  lemma TwoApart(m: Mls, same: Tree.Equivalence, s: System, r: Round, i: nat, j: nat)
    requires r.Combined? && Agreed(same, s) && LegalCombined(m, same, s, r) && i != j
    requires i in AfterCombined(m, same, s, r).members && j in AfterCombined(m, same, s, r).members
    ensures var n := AfterCombined(m, same, s, r).members; n[i].t.own != n[j].t.own
  {
    var b := BuiltBy(m, s, r);
    CombinedMember(m, same, s, r, i);
    CombinedMember(m, same, s, r, j);
    if i in r.joiners && j in r.joiners {
      JoinersApart(m, s, r, b, i, j);
    } else if i in r.joiners {
      JoinerSeat(m, s, r, b, i);
      MemberSeat(m, same, s, r, j);
    } else {
      MemberSeat(m, same, s, r, i);
      if j in r.joiners { JoinerSeat(m, s, r, b, j); } else { MemberSeat(m, same, s, r, j); }
    }
  }

  lemma OneHolds(m: Mls, same: Tree.Equivalence, s: System, r: Round, i: nat)
    requires r.Combined? && Agreed(same, s) && LegalCombined(m, same, s, r) && i in AfterCombined(m, same, s, r).members
    ensures var n := AfterCombined(m, same, s, r); Holds(n.members[i], n.pq, n.t)
  {
    CombinedMember(m, same, s, r, i);
    if i in r.joiners { JoinerHolds(m, same, s, r, i); } else { MemberHolds(m, same, s, r, i); }
  }

  lemma CombinedKeepsAgreement(m: Mls, same: Tree.Equivalence, s: System, r: Round)
    requires r.Combined? && Agreed(same, s) && LegalCombined(m, same, s, r)
    ensures Agreed(same, AfterCombined(m, same, s, r))
  {
    CombinedPublicState(m, same, s, r);
    var n := AfterCombined(m, same, s, r);
    forall i | i in n.members
      ensures Holds(n.members[i], n.pq, n.t)
    {
      OneHolds(m, same, s, r, i);
    }
    forall i, j | i in n.members && j in n.members && i != j
      ensures n.members[i].t.own != n.members[j].t.own
    {
      TwoApart(m, same, s, r, i, j);
    }
  }

  lemma AgreedLoads(psks: PskMap, theirs: PskMap, keys: seq<PskKey>)
    requires AgreeOn(psks, theirs, keys)
    ensures Load(psks, keys).Some? && Load(theirs, keys) == Load(psks, keys)
  {
    assert Load(theirs, keys).value == Load(psks, keys).value;
  }

  lemma TOnlyPublicState(m: Mls, same: Tree.Equivalence, s: System, r: Round)
    requires r.TOnly? && Agreed(same, s) && LegalTOnly(m, same, s, r)
    ensures Load(s.members[r.committer].psks, r.commit.psks).Some?
    ensures Linked(s.pq, TAfter(m, s, r)) && Runs.InLockstep(same, Runs.State(s.pq, TAfter(m, s, r)))
  {
    var c := s.members[r.committer];
    assert Holds(c, s.pq, s.t);
    AgreedLoads(c.psks, c.psks, r.commit.psks);
    var state, e := Runs.State(s.pq, s.t), Runs.TOnly(r.commit, Load(c.psks, r.commit.psks).value);
    Runs.StepLinkedIff(m, same, state, e);
    Runs.SelfUpdateMeetsIff(same, state, r.commit, e.tValues, c.t.own);
    Runs.StepLockstepIff(m, same, state, e);
  }

  lemma TMemberHolds(m: Mls, same: Tree.Equivalence, s: System, r: Round, i: nat)
    requires r.TOnly? && Agreed(same, s) && LegalTOnly(m, same, s, r) && i in s.members
    requires Load(s.members[r.committer].psks, r.commit.psks).Some?
    ensures Holds(TMember(m, s, r, TAfter(m, s, r), i), s.pq, TAfter(m, s, r))
    ensures TMember(m, s, r, TAfter(m, s, r), i).t.own == s.members[i].t.own
  {
    var c, committer := s.members[i], s.members[r.committer];
    assert Holds(c, s.pq, s.t);
    AgreedLoads(committer.psks, c.psks, r.commit.psks);
    Tree.MembersKeepTheirLeaf(s.t.leaves, r.commit.changes, c.t.own);
    assert Tree.OnPath(r.commit.changes, c.t.own) <==> r.commit.changes.path.Some? && i == r.committer;
  }

  lemma TOnlyKeepsAgreement(m: Mls, same: Tree.Equivalence, s: System, r: Round)
    requires r.TOnly? && Agreed(same, s) && LegalTOnly(m, same, s, r)
    ensures Load(s.members[r.committer].psks, r.commit.psks).Some? && Agreed(same, AfterTOnly(m, s, r))
  {
    TOnlyPublicState(m, same, s, r);
    var n := AfterTOnly(m, s, r);
    forall i | i in n.members
      ensures Holds(n.members[i], n.pq, n.t) && n.members[i].t.own == s.members[i].t.own
    {
      TMemberHolds(m, same, s, r, i);
    }
  }

  lemma ExternalLeaves(m: Mls, same: Tree.Equivalence, s: System, r: Round, b: Built)
    requires r.External? && Agreed(same, s) && LegalExternal(m, same, s, r)
    requires ExternalBuild(m, s.pq, s.t, r.psks, r.entry).result == Ok(b)
    ensures b.pqAfter.leaves == Tree.Apply(s.pq.leaves, PqEntry(r.entry)) && b.tAfter.leaves == Tree.Apply(s.t.leaves, TEntry(r.entry))
    ensures Linked(b.pqAfter, b.tAfter) && Runs.InLockstep(same, Runs.State(b.pqAfter, b.tAfter))
  {
    ExternalJoinIsLinked(m, s.pq, s.t, r.psks, r.entry, b);
    Tree.ApplyKeeps(same, s.pq.leaves, s.t.leaves, PqEntry(r.entry), TEntry(r.entry));
    Tree.ApplyIsCanonical(s.pq.leaves, PqEntry(r.entry));
    Tree.ApplyIsCanonical(s.t.leaves, TEntry(r.entry));
  }

  lemma SameRemovals(same: Tree.Equivalence, e: Entry, i: nat)
    requires EntryMatches(same, e)
    ensures i in PqRemoves(e.proposals) <==> i in TRemoves(e.proposals)
  {
    assert i in PqRemoves(e.proposals) <==> i in Tree.Indices(PqRemoves(e.proposals));
    assert i in TRemoves(e.proposals) <==> i in Tree.Indices(TRemoves(e.proposals));
  }

  lemma BystanderHolds(m: Mls, same: Tree.Equivalence, s: System, r: Round, b: Built, i: nat)
    requires r.External? && Agreed(same, s) && LegalExternal(m, same, s, r)
    requires ExternalBuild(m, s.pq, s.t, r.psks, r.entry).result == Ok(b)
    requires i in s.members && s.members[i].t.own !in TRemoves(r.entry.proposals)
    ensures Holds(Receives(m, same, s.members[i], b), b.pqAfter, b.tAfter)
    ensures Receives(m, same, s.members[i], b).t.own == s.members[i].t.own
  {
    var c := s.members[i];
    assert Holds(c, s.pq, s.t);
    SameRemovals(same, r.entry, c.t.own);
    ExternalIsAcceptedIff(m, same, c.pq, c.t, r.psks, r.entry, b, c.psks);
    ExternalLeaves(m, same, s, r, b);
    Tree.MembersKeepTheirLeaf(s.pq.leaves, PqEntry(r.entry), c.pq.own);
    Tree.MembersKeepTheirLeaf(s.t.leaves, TEntry(r.entry), c.t.own);
  }

  lemma NewcomerHolds(m: Mls, same: Tree.Equivalence, s: System, r: Round, b: Built)
    requires r.External? && Agreed(same, s) && LegalExternal(m, same, s, r)
    requires ExternalBuild(m, s.pq, s.t, r.psks, r.entry).result == Ok(b)
    ensures Holds(Newcomer(m, s, r, b), b.pqAfter, b.tAfter)
    ensures Tree.LeafAt(Tree.RemoveAll(s.t.leaves, TRemoves(r.entry.proposals)), Newcomer(m, s, r, b).t.own) == None
  {
    var xs, ys := PqRemoves(r.entry.proposals), TRemoves(r.entry.proposals);
    ExternalLeaves(m, same, s, r, b);
    Tree.RemovesKeep(same, s.pq.leaves, s.t.leaves, xs, ys);
    Tree.FirstBlankAgrees(same, Tree.RemoveAll(s.pq.leaves, xs), Tree.RemoveAll(s.t.leaves, ys));
    Tree.JoinerFindsItsLeaf(s.pq.leaves, PqEntry(r.entry));
    Tree.JoinerFindsItsLeaf(s.t.leaves, TEntry(r.entry));
  }

  lemma ExternalMember(m: Mls, same: Tree.Equivalence, s: System, r: Round, b: Built, i: nat)
    requires r.External? && Agreed(same, s) && LegalExternal(m, same, s, r) && i in AfterExternal(m, same, s, r).members
    requires ExternalBuild(m, s.pq, s.t, r.psks, r.entry).result == Ok(b)
    ensures var n := AfterExternal(m, same, s, r);
            && Holds(n.members[i], n.pq, n.t)
            && (i != r.joiner ==> i in s.members && n.members[i].t.own == s.members[i].t.own &&
                                  n.members[i].t.own != n.members[r.joiner].t.own)
  {
    NewcomerHolds(m, same, s, r, b);
    if i != r.joiner {
      BystanderHolds(m, same, s, r, b, i);
      assert Holds(s.members[i], s.pq, s.t);
      Tree.RemoveAllBlanks(s.t.leaves, TRemoves(r.entry.proposals), s.members[i].t.own);
    }
  }

  lemma ExternalApart(m: Mls, same: Tree.Equivalence, s: System, r: Round, b: Built, i: nat, j: nat)
    requires r.External? && Agreed(same, s) && LegalExternal(m, same, s, r) && i != j
    requires i in AfterExternal(m, same, s, r).members && j in AfterExternal(m, same, s, r).members
    requires ExternalBuild(m, s.pq, s.t, r.psks, r.entry).result == Ok(b)
    ensures var n := AfterExternal(m, same, s, r).members; n[i].t.own != n[j].t.own
  {
    ExternalMember(m, same, s, r, b, i);
    ExternalMember(m, same, s, r, b, j);
  }

  lemma ExternalKeepsAgreement(m: Mls, same: Tree.Equivalence, s: System, r: Round)
    requires r.External? && Agreed(same, s) && LegalExternal(m, same, s, r)
    ensures Agreed(same, AfterExternal(m, same, s, r))
  {
    var b := ExternalBuild(m, s.pq, s.t, r.psks, r.entry).result.value;
    var n := AfterExternal(m, same, s, r);
    ExternalLeaves(m, same, s, r, b);
    forall i | i in n.members
      ensures Holds(n.members[i], n.pq, n.t)
    {
      ExternalMember(m, same, s, r, b, i);
    }
    forall i, j | i in n.members && j in n.members && i != j
      ensures n.members[i].t.own != n.members[j].t.own
    {
      ExternalApart(m, same, s, r, b, i, j);
    }
  }

  // ---- Runs ----

  predicate Legal(m: Mls, same: Tree.Equivalence, s: System, r: Round) {
    match r
    case Combined(_, _, _) => LegalCombined(m, same, s, r)
    case TOnly(_, _) => LegalTOnly(m, same, s, r) && Load(s.members[r.committer].psks, r.commit.psks).Some?
    case External(_, _, _) => LegalExternal(m, same, s, r)
  }

  function Next(m: Mls, same: Tree.Equivalence, s: System, r: Round): (n: System)
    requires Legal(m, same, s, r)
  {
    match r
    case Combined(_, _, _) => AfterCombined(m, same, s, r)
    case TOnly(_, _) => AfterTOnly(m, s, r)
    case External(_, _, _) => AfterExternal(m, same, s, r)
  }

  lemma RoundKeepsAgreement(m: Mls, same: Tree.Equivalence, s: System, r: Round)
    requires Agreed(same, s) && Legal(m, same, s, r)
    ensures Agreed(same, Next(m, same, s, r))
  {
    match r
    case Combined(_, _, _) => CombinedKeepsAgreement(m, same, s, r);
    case TOnly(_, _) => TOnlyKeepsAgreement(m, same, s, r);
    case External(_, _, _) => ExternalKeepsAgreement(m, same, s, r);
  }

  predicate LegalRun(m: Mls, same: Tree.Equivalence, s: System, rs: seq<Round>)
    decreases |rs|
  {
    rs == [] || (Legal(m, same, s, rs[0]) && LegalRun(m, same, Next(m, same, s, rs[0]), rs[1..]))
  }

  function After(m: Mls, same: Tree.Equivalence, s: System, rs: seq<Round>): (n: System)
    requires LegalRun(m, same, s, rs)
    decreases |rs|
  {
    if rs == [] then s else After(m, same, Next(m, same, s, rs[0]), rs[1..])
  }

  /** All members agree on both groups, and so on every secret, and sit on leaves of their own, after every run. */
  lemma {:induction false} RunKeepsAgreement(m: Mls, same: Tree.Equivalence, s: System, rs: seq<Round>)
    requires Agreed(same, s) && LegalRun(m, same, s, rs)
    ensures Agreed(same, After(m, same, s, rs))
    decreases |rs|
  {
    if rs != [] {
      RoundKeepsAgreement(m, same, s, rs[0]);
      RunKeepsAgreement(m, same, Next(m, same, s, rs[0]), rs[1..]);
    }
  }

  /** The creator alone, on leaf 0 of both legs. */
  function Created(g: Runs.State, psks: PskMap, pqCreator: Tree.LeafNode, tCreator: Tree.LeafNode): (s: System) {
    System(g.pq, g.t, map[0 := Client(Leg(g.pq, 0, None), Leg(g.t, 0, None), psks, pqCreator, tCreator)])
  }

  /** The same from group creation on. */
  lemma CreatedGroupKeepsAgreement(m: Mls, same: Tree.Equivalence, tId: GroupId, pqId: GroupId, mode: Mode, tSuite: Suite,
                                   pqSuite: Suite, tDict: Dictionary, pqDict: Dictionary, tCreator: Tree.LeafNode,
                                   pqCreator: Tree.LeafNode, tSecret: Secret, pqSecret: Secret, psks: PskMap, rs: seq<Round>)
    requires same(pqCreator.credential, tCreator.credential)
    ensures var g := Runs.Create(tId, pqId, mode, tSuite, pqSuite, tDict, pqDict, tCreator, pqCreator, tSecret, pqSecret);
            var s := Created(g, psks, pqCreator, tCreator);
            Agreed(same, s) && (LegalRun(m, same, s, rs) ==> Agreed(same, After(m, same, s, rs)))
  {
    Runs.CreatedIsLinked(same, tId, pqId, mode, tSuite, pqSuite, tDict, pqDict, tCreator, pqCreator, tSecret, pqSecret);
    var g := Runs.Create(tId, pqId, mode, tSuite, pqSuite, tDict, pqDict, tCreator, pqCreator, tSecret, pqSecret);
    var s := Created(g, psks, pqCreator, tCreator);
    if LegalRun(m, same, s, rs) { RunKeepsAgreement(m, same, s, rs); }
  }
}
