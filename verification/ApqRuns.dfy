/**
 Runs of a combined group as everyone sees it: creation, accepted and merged commit pairs, and T-only
 commits in between. Lemmas say exactly over which runs the legs stay linked and the rosters in lockstep.
 */
module ApqRuns {
  import opened Prelude
  import opened ApqInfo
  import opened ApqGroup
  import Tree = ApqTree

  datatype State = State(pq: Group, t: Group)

  /** A new group: both legs get the component at epoch 0 and the creator at leaf 0. */
  function Create(tId: GroupId, pqId: GroupId, mode: Mode, tSuite: Suite, pqSuite: Suite, tDict: Dictionary,
                  pqDict: Dictionary, tCreator: Tree.LeafNode, pqCreator: Tree.LeafNode, tSecret: Secret, pqSecret: Secret)
    : (s: State)
  {
    var info := Info(tId, pqId, mode, tSuite, pqSuite, 0, 0);
    State(Group(pqId, pqSuite, 0, pqDict[APQMLS_COMPONENT_ID := Encoded(info)], [Some(pqCreator)], pqSecret),
          Group(tId, tSuite, 0, tDict[APQMLS_COMPONENT_ID := Encoded(info)], [Some(tCreator)], tSecret))
  }

  /** `values` are the pre-shared keys the key schedule got; which ones is no matter here. */
  datatype Event =
    | Combined(pq: Commit, pqValues: seq<Secret>, t: Commit, tValues: seq<Secret>)
    | TOnly(t: Commit, tValues: seq<Secret>)

  function Stage(m: Mls, g: Group, c: Commit, values: seq<Secret>): (after: Group) {
    Advance(m, g, c, values, Resolve(g.dict, c.appData))
  }

  function Next(m: Mls, s: State, e: Event): (r: State) {
    match e
    case Combined(pq, pqValues, t, tValues) => State(Stage(m, s.pq, pq, pqValues), Stage(m, s.t, t, tValues))
    case TOnly(t, tValues) => State(s.pq, Stage(m, s.t, t, tValues))
  }

  /** A pair that processing accepts; whether it removes the reader plays no part in the comparison. */
  predicate Accepted(m: Mls, same: Tree.Equivalence, s: State, e: Event)
    requires e.Combined?
  {
    var n := Next(m, s, e);
    Compare(same, s.pq, s.t, Pair(Staged(e.pq, n.pq, false), Staged(e.t, n.t, false))).Ok?
  }

  /** What the code and the MLS layer let through: accepted pairs with Updates from members, and any T-only commit. */
  predicate Possible(m: Mls, same: Tree.Equivalence, s: State, e: Event) {
    match e
    case Combined(pq, _, t, _) =>
      && Accepted(m, same, s, e)
      && Tree.FromMembers(s.pq.leaves, pq.changes.updates) && Tree.FromMembers(s.t.leaves, t.changes.updates)
    case TOnly(t, _) => Tree.Sent(s.t.leaves, t.changes)
  }

  // ---- What one step keeps, exactly ----

  /** A T-only commit leaves the component as it is. */
  predicate KeepsComponent(s: State, e: Event) {
    e.TOnly? ==> FromExtensions(Resolve(s.t.dict, e.t.appData)) == FromExtensions(s.t.dict)
  }

  /**
   The Updates of a pair meet. A T-only commit seats on every leaf someone who matches the PQ leaf; who sits
   where is told by its proposals and the leaves before it.
   */
  ghost predicate Meets(same: Tree.Equivalence, s: State, e: Event) {
    match e
    case Combined(pq, _, t, _) => Tree.UpdatesMeet(same, s.pq.leaves, s.t.leaves, pq.changes, t.changes)
    case TOnly(t, _) => forall i: nat :: Tree.SameLeaf(same, Tree.LeafAt(s.pq.leaves, i), Tree.Seat(s.t.leaves, t.changes, i))
  }

  lemma CombinedLinks(m: Mls, same: Tree.Equivalence, s: State, e: Event)
    requires e.Combined? && Accepted(m, same, s, e)
    ensures FreshlyLinked(Next(m, s, e).pq, Next(m, s, e).t)
  {
    ValidateIsLinking(m, s.pq, s.t, e.pq, e.t, e.pqValues, e.tValues, Resolve(s.pq.dict, e.pq.appData),
                      Resolve(s.t.dict, e.t.appData), false, false);
  }

  /** Linked legs stay linked exactly over the steps that keep the component. */
  lemma StepLinkedIff(m: Mls, same: Tree.Equivalence, s: State, e: Event)
    requires Linked(s.pq, s.t) && Possible(m, same, s, e)
    ensures Linked(Next(m, s, e).pq, Next(m, s, e).t) <==> KeepsComponent(s, e)
    ensures e.Combined? ==> FreshlyLinked(Next(m, s, e).pq, Next(m, s, e).t)
  {
    if e.Combined? { CombinedLinks(m, same, s, e); }
  }

  predicate InLockstep(same: Tree.Equivalence, s: State) {
    Tree.Lockstep(same, s.pq.leaves, s.t.leaves) && Tree.Canonical(s.pq.leaves) && Tree.Canonical(s.t.leaves)
  }

  /** Rosters in lockstep stay so exactly over the steps that meet. */
  lemma StepLockstepIff(m: Mls, same: Tree.Equivalence, s: State, e: Event)
    requires InLockstep(same, s) && Possible(m, same, s, e)
    ensures InLockstep(same, Next(m, s, e)) <==> Meets(same, s, e)
  {
    Tree.ApplyIsCanonical(s.t.leaves, e.t.changes);
    if e.Combined? {
      Tree.ApplyIsCanonical(s.pq.leaves, e.pq.changes);
      Tree.ApplyKeepsIff(same, s.pq.leaves, s.t.leaves, e.pq.changes, e.t.changes);
    } else {
      var t := Tree.Apply(s.t.leaves, e.t.changes);
      forall i: nat
        ensures Tree.LeafAt(t, i) == Tree.Seat(s.t.leaves, e.t.changes, i)
      {
        Tree.CommitSeats(s.t.leaves, e.t.changes, i);
      }
      Tree.LockstepIsMatching(same, s.pq.leaves, t);
    }
  }

  /** For a T-only commit without membership changes: exactly when the new leaf is still the same user's. */
  lemma SelfUpdateMeetsIff(same: Tree.Equivalence, s: State, c: Commit, values: seq<Secret>, i: nat)
    requires InLockstep(same, s) && c.changes == Tree.Changes(Tree.Member(i), [], [], [], c.changes.path)
    ensures Meets(same, s, TOnly(c, values)) <==>
            c.changes.path.None? || Tree.SameLeaf(same, Tree.LeafAt(s.pq.leaves, i), c.changes.path)
  {
    var pq, t := s.pq.leaves, s.t.leaves;
    Tree.LockstepPointwise(same, pq, t);
    assert forall k: nat {:trigger Tree.Seat(t, c.changes, k)} ::
        Tree.Seat(t, c.changes, k) == if c.changes.path.Some? && k == i then c.changes.path else Tree.LeafAt(t, k);
    if Meets(same, s, TOnly(c, values)) {
      assert Tree.SameLeaf(same, Tree.LeafAt(pq, i), Tree.Seat(t, c.changes, i));
    }
  }

  /** Without removals, T-only newcomers always break lockstep: they sit where the PQ group has nobody. */
  lemma TOnlyAddsBreak(same: Tree.Equivalence, s: State, c: Commit, values: seq<Secret>)
    requires InLockstep(same, s) && Tree.Sent(s.t.leaves, c.changes)
    requires Tree.Newcomers(c.changes) != [] && c.changes.removes == []
    ensures !Meets(same, s, TOnly(c, values))
  {
    var pq, t, u := s.pq.leaves, s.t.leaves, Tree.UpdateAll(s.t.leaves, c.changes.updates);
    var i := Tree.FirstBlank(u);
    Tree.NoneFreeBelowFirst(u, i);
    Tree.UpdatesKeepMembers(t, c.changes.updates, i);
    Tree.LockstepPointwise(same, pq, t);
    assert Tree.SameLeaf(same, Tree.LeafAt(pq, i), Tree.LeafAt(t, i));
    assert !Tree.SameLeaf(same, Tree.LeafAt(pq, i), Tree.Seat(t, c.changes, i));
  }

  /** Without newcomers, a T-only removal of a member always breaks lockstep. */
  lemma TOnlyRemovesBreak(same: Tree.Equivalence, s: State, c: Commit, values: seq<Secret>, i: nat)
    requires InLockstep(same, s) && Tree.Sent(s.t.leaves, c.changes)
    requires Tree.Newcomers(c.changes) == [] && i in c.changes.removes && Tree.LeafAt(s.t.leaves, i).Some?
    ensures !Meets(same, s, TOnly(c, values))
  {
    Tree.LockstepPointwise(same, s.pq.leaves, s.t.leaves);
    assert Tree.SameLeaf(same, Tree.LeafAt(s.pq.leaves, i), Tree.LeafAt(s.t.leaves, i));
    assert !Tree.SameLeaf(same, Tree.LeafAt(s.pq.leaves, i), Tree.Seat(s.t.leaves, c.changes, i));
  }

  /** A free leaf that has a PQ member goes to a newcomer who is the same user; one that has none stays free. */
  predicate Replaced(same: Tree.Equivalence, s: State, c: Commit, i: nat) {
    var k, newcomers := Tree.FreeBelow(s.t.leaves, c.changes.removes, i), Tree.Newcomers(c.changes);
    match Tree.LeafAt(s.pq.leaves, i)
    case Some(node) => k < |newcomers| && same(node.credential, newcomers[k].credential)
    case None => k >= |newcomers|
  }

  /** So without Updates: exactly when the newcomers replace the removed members one by one, in leaf order. */
  lemma TOnlyReplacesIff(same: Tree.Equivalence, s: State, c: Commit, values: seq<Secret>)
    requires InLockstep(same, s) && Tree.Sent(s.t.leaves, c.changes) && c.changes.updates == []
    ensures Meets(same, s, TOnly(c, values)) <==>
            && (forall i: nat | Tree.Free(s.t.leaves, c.changes.removes, i) :: Replaced(same, s, c, i))
            && (forall i: nat | Tree.OnPath(c.changes, i) :: Tree.SameLeaf(same, Tree.LeafAt(s.pq.leaves, i), c.changes.path))
  {
    var pq, t := s.pq.leaves, s.t.leaves;
    Tree.LockstepPointwise(same, pq, t);
    forall i: nat
      ensures Tree.SameLeaf(same, Tree.LeafAt(pq, i), Tree.Seat(t, c.changes, i)) <==>
              && (Tree.Free(t, c.changes.removes, i) ==> Replaced(same, s, c, i))
              && (Tree.OnPath(c.changes, i) ==> Tree.SameLeaf(same, Tree.LeafAt(pq, i), c.changes.path))
    {
      assert Tree.SameLeaf(same, Tree.LeafAt(pq, i), Tree.LeafAt(t, i));
    }
  }

  // ---- Whole runs ----

  function After(m: Mls, s: State, es: seq<Event>): (r: State)
    decreases |es|
  {
    if es == [] then s else After(m, Next(m, s, es[0]), es[1..])
  }

  predicate PossibleRun(m: Mls, same: Tree.Equivalence, s: State, es: seq<Event>)
    decreases |es|
  {
    es == [] || (Possible(m, same, s, es[0]) && PossibleRun(m, same, Next(m, s, es[0]), es[1..]))
  }

  predicate AllKeepComponent(m: Mls, s: State, es: seq<Event>)
    decreases |es|
  {
    es == [] || (KeepsComponent(s, es[0]) && AllKeepComponent(m, Next(m, s, es[0]), es[1..]))
  }

  ghost predicate AllMeet(m: Mls, same: Tree.Equivalence, s: State, es: seq<Event>)
    decreases |es|
  {
    es == [] || (Meets(same, s, es[0]) && AllMeet(m, same, Next(m, s, es[0]), es[1..]))
  }

  /** In every state of the run the legs are linked. */
  predicate AlwaysLinked(m: Mls, s: State, es: seq<Event>)
    decreases |es|
  {
    Linked(s.pq, s.t) && (es == [] || AlwaysLinked(m, Next(m, s, es[0]), es[1..]))
  }

  predicate AlwaysInLockstep(m: Mls, same: Tree.Equivalence, s: State, es: seq<Event>)
    decreases |es|
  {
    InLockstep(same, s) && (es == [] || AlwaysInLockstep(m, same, Next(m, s, es[0]), es[1..]))
  }

  lemma {:induction false} RunStaysLinkedIff(m: Mls, same: Tree.Equivalence, s: State, es: seq<Event>)
    requires Linked(s.pq, s.t) && PossibleRun(m, same, s, es)
    ensures AlwaysLinked(m, s, es) <==> AllKeepComponent(m, s, es)
    decreases |es|
  {
    if es != [] {
      StepLinkedIff(m, same, s, es[0]);
      if KeepsComponent(s, es[0]) { RunStaysLinkedIff(m, same, Next(m, s, es[0]), es[1..]); }
    }
  }

  lemma {:induction false} RunStaysInLockstepIff(m: Mls, same: Tree.Equivalence, s: State, es: seq<Event>)
    requires InLockstep(same, s) && PossibleRun(m, same, s, es)
    ensures AlwaysInLockstep(m, same, s, es) <==> AllMeet(m, same, s, es)
    decreases |es|
  {
    if es != [] {
      StepLockstepIff(m, same, s, es[0]);
      if Meets(same, s, es[0]) { RunStaysInLockstepIff(m, same, Next(m, s, es[0]), es[1..]); }
    }
  }

  lemma CreatedIsLinked(same: Tree.Equivalence, tId: GroupId, pqId: GroupId, mode: Mode, tSuite: Suite, pqSuite: Suite,
                        tDict: Dictionary, pqDict: Dictionary, tCreator: Tree.LeafNode, pqCreator: Tree.LeafNode,
                        tSecret: Secret, pqSecret: Secret)
    requires same(pqCreator.credential, tCreator.credential)
    ensures var s := Create(tId, pqId, mode, tSuite, pqSuite, tDict, pqDict, tCreator, pqCreator, tSecret, pqSecret);
            FreshlyLinked(s.pq, s.t) && InLockstep(same, s)
  {
  }

  /**
   From creation on, over every run the code lets through: the legs are linked throughout exactly when
   no T-only commit changes the component, and the rosters are in lockstep throughout exactly when the
   Updates of all pairs meet and all T-only commits leave matching members.
   */
  lemma CreatedGroupStaysLinkedIff(m: Mls, same: Tree.Equivalence, tId: GroupId, pqId: GroupId, mode: Mode, tSuite: Suite,
                                   pqSuite: Suite, tDict: Dictionary, pqDict: Dictionary, tCreator: Tree.LeafNode,
                                   pqCreator: Tree.LeafNode, tSecret: Secret, pqSecret: Secret, es: seq<Event>)
    requires same(pqCreator.credential, tCreator.credential)
    requires PossibleRun(m, same, Create(tId, pqId, mode, tSuite, pqSuite, tDict, pqDict, tCreator, pqCreator, tSecret, pqSecret), es)
    ensures var s := Create(tId, pqId, mode, tSuite, pqSuite, tDict, pqDict, tCreator, pqCreator, tSecret, pqSecret);
            && (AlwaysLinked(m, s, es) <==> AllKeepComponent(m, s, es))
            && (AlwaysInLockstep(m, same, s, es) <==> AllMeet(m, same, s, es))
  {
    CreatedIsLinked(same, tId, pqId, mode, tSuite, pqSuite, tDict, pqDict, tCreator, pqCreator, tSecret, pqSecret);
    var s := Create(tId, pqId, mode, tSuite, pqSuite, tDict, pqDict, tCreator, pqCreator, tSecret, pqSecret);
    RunStaysLinkedIff(m, same, s, es);
    RunStaysInLockstepIff(m, same, s, es);
  }

  lemma RunStep(m: Mls, same: Tree.Equivalence, s: State, es: seq<Event>)
    requires PossibleRun(m, same, s, es) && es != []
    ensures Possible(m, same, s, es[0]) && PossibleRun(m, same, Next(m, s, es[0]), es[1..])
    ensures After(m, s, es) == After(m, Next(m, s, es[0]), es[1..])
  {
  }

  /** Right after a combined commit the T epoch is current too. */
  lemma {:induction false} CombinedIsFresh(m: Mls, same: Tree.Equivalence, s: State, es: seq<Event>)
    requires PossibleRun(m, same, s, es) && es != [] && es[|es| - 1].Combined?
    ensures FreshlyLinked(After(m, s, es).pq, After(m, s, es).t)
    decreases |es|
  {
    var next, rest := Next(m, s, es[0]), es[1..];
    RunStep(m, same, s, es);
    if rest == [] {
      CombinedLinks(m, same, s, es[0]);
    } else {
      assert rest[|rest| - 1] == es[|es| - 1];
      CombinedIsFresh(m, same, next, rest);
    }
  }

  // ---- What lockstep is for ----

  datatype VerifyingKey = VerifyingKey(t: nat, pq: nat)

  function VerifyingKeyAt(s: State, i: nat): (r: Option<VerifyingKey>) {
    match (Tree.LeafAt(s.t.leaves, i), Tree.LeafAt(s.pq.leaves, i))
    case (Some(t), Some(pq)) => Some(VerifyingKey(t.key, pq.key))
    case _ => None
  }

  /** Under lockstep a combined key exists wherever either leg has a member, and both halves are the same user's. */
  lemma VerifyingKeysBelongTogether(same: Tree.Equivalence, s: State, i: nat)
    requires Tree.Lockstep(same, s.pq.leaves, s.t.leaves)
    ensures VerifyingKeyAt(s, i).Some? <==> Tree.LeafAt(s.t.leaves, i).Some?
    ensures VerifyingKeyAt(s, i).Some? <==> Tree.LeafAt(s.pq.leaves, i).Some?
    ensures VerifyingKeyAt(s, i).Some? ==>
              && same(Tree.LeafAt(s.pq.leaves, i).value.credential, Tree.LeafAt(s.t.leaves, i).value.credential)
              && VerifyingKeyAt(s, i).value.t == Tree.LeafAt(s.t.leaves, i).value.key
              && VerifyingKeyAt(s, i).value.pq == Tree.LeafAt(s.pq.leaves, i).value.key
  {
    assert i < |s.pq.leaves| ==> Tree.SameLeaf(same, s.pq.leaves[i], s.t.leaves[i]);
  }

  // ---- Where it fails ----

  function SameCredential(): (same: Tree.Equivalence) { (a: Tree.Credential, b: Tree.Credential) => a == b }

  function InfoAt(tEpoch: nat, pqEpoch: nat): (i: Info) { Info(1, 2, ConfOnly, 3, 4, tEpoch, pqEpoch) }

  /** Three members, users 1, 2 and 3, with keys of their own in each leg. */
  function ThreeMembers(): (s: State) {
    var dict := map[APQMLS_COMPONENT_ID := Encoded(InfoAt(7, 7))];
    State(Group(2, 4, 7, dict, [Some(Tree.LeafNode(1, 10)), Some(Tree.LeafNode(2, 20)), Some(Tree.LeafNode(3, 30)), None], 0),
          Group(1, 3, 7, dict, [Some(Tree.LeafNode(1, 11)), Some(Tree.LeafNode(2, 21)), Some(Tree.LeafNode(3, 31)), None], 0))
  }

  /** Member 0 commits an Update of member 1 in the PQ group and one of member 2 in the T group. */
  function SwappedUpdates(): (e: Event) {
    var update := [Update(APQMLS_COMPONENT_ID, Encoded(InfoAt(8, 8)))];
    Combined(
      Commit(Tree.Changes(Tree.Member(0), [Tree.Update(1, Tree.LeafNode(5, 50))], [], [], Some(Tree.LeafNode(1, 12))), update, []), [],
      Commit(Tree.Changes(Tree.Member(0), [Tree.Update(2, Tree.LeafNode(5, 51))], [], [], Some(Tree.LeafNode(1, 13))), update, []), [])
  }

  /** Comparing Updates by credential alone accepts this pair from linked legs in lockstep, and it breaks lockstep. */
  lemma SwappedUpdatesBreakLockstep(m: Mls)
    ensures var s, e := ThreeMembers(), SwappedUpdates();
            && Linked(s.pq, s.t) && InLockstep(SameCredential(), s) && Possible(m, SameCredential(), s, e)
            && !Tree.Lockstep(SameCredential(), Next(m, s, e).pq.leaves, Next(m, s, e).t.leaves)
  {
    var same, s, e := SameCredential(), ThreeMembers(), SwappedUpdates();
    ThreeMembersMatch();
    SwappedUpdatesAccepted(m);
    assert Tree.UpdateAll(s.pq.leaves, e.pq.changes.updates)[1] == Some(Tree.LeafNode(5, 50));
    assert Tree.UpdateAll(s.t.leaves, e.t.changes.updates)[1] == Some(Tree.LeafNode(2, 21));
    assert !Tree.SameLeaf(same, Tree.LeafAt(Tree.UpdateAll(s.pq.leaves, e.pq.changes.updates), 1),
                          Tree.LeafAt(Tree.UpdateAll(s.t.leaves, e.t.changes.updates), 1));
    StepLockstepIff(m, same, s, e);
    Tree.ApplyIsCanonical(s.t.leaves, e.t.changes);
    Tree.ApplyIsCanonical(s.pq.leaves, e.pq.changes);
  }

  lemma ThreeMembersMatch()
    ensures Linked(ThreeMembers().pq, ThreeMembers().t) && InLockstep(SameCredential(), ThreeMembers())
  {
    var s := ThreeMembers();
    assert s.pq.leaves[2] != None && s.t.leaves[2] != None;
  }

  lemma SwappedUpdatesAccepted(m: Mls)
    ensures Possible(m, SameCredential(), ThreeMembers(), SwappedUpdates())
  {
    var s, e, n := ThreeMembers(), SwappedUpdates(), Next(m, ThreeMembers(), SwappedUpdates());
    assert e.pq.appData[..0] == [] && e.t.appData[..0] == [];
    assert FromExtensions(n.pq.dict) == Present(InfoAt(8, 8)) && FromExtensions(n.t.dict) == Present(InfoAt(8, 8));
    assert SameCommit(SameCredential(), e.pq.changes, e.t.changes);
  }

  /** A T-only commit that drops the component. */
  lemma TOnlyCanUnlink(m: Mls)
    ensures var s := ThreeMembers();
            var e := TOnly(Commit(Tree.Changes(Tree.Member(0), [], [], [], None), [Remove(APQMLS_COMPONENT_ID)], []), []);
            Linked(s.pq, s.t) && Possible(m, SameCredential(), s, e) && !Linked(Next(m, s, e).pq, Next(m, s, e).t)
  {
    var s := ThreeMembers();
    var us := [Remove(APQMLS_COMPONENT_ID)];
    ThreeMembersMatch();
    assert us[..0] == [];
    assert FromExtensions(Resolve(s.t.dict, us)) == Absent;
  }

  /** A T-only self-update to another credential. */
  lemma TOnlyCanBreakLockstep(m: Mls)
    ensures var s := ThreeMembers();
            var e := TOnly(Commit(Tree.Changes(Tree.Member(0), [], [], [], Some(Tree.LeafNode(9, 19))), [], []), []);
            && InLockstep(SameCredential(), s) && Possible(m, SameCredential(), s, e)
            && !Tree.Lockstep(SameCredential(), Next(m, s, e).pq.leaves, Next(m, s, e).t.leaves)
  {
    var s := ThreeMembers();
    var c := Commit(Tree.Changes(Tree.Member(0), [], [], [], Some(Tree.LeafNode(9, 19))), [], []);
    ThreeMembersMatch();
    SelfUpdateMeetsIff(SameCredential(), s, c, [], 0);
    StepLockstepIff(m, SameCredential(), s, TOnly(c, []));
    Tree.ApplyIsCanonical(s.t.leaves, c.changes);
  }
}
