/**
 The leaves of an MLS ratchet tree under a commit: updates, removals, additions and the path, applied
 in the order of sections 12.1 and 12.3 of RFC 9420, with leftmost-empty placement, doubling and
 truncation. Two trees that are in lockstep stay in lockstep under matching commits.
 */
module ApqTree {
  import opened Prelude

  type Credential = nat

  datatype LeafNode = LeafNode(credential: Credential, key: nat)

  type Leaves = seq<Option<LeafNode>>

  datatype Sender = Member(leaf: nat) | NewMember

  datatype Update = Update(leaf: nat, node: LeafNode)

  /** What a commit does to the tree. */
  datatype Changes = Changes(
    sender: Sender,
    updates: seq<Update>,
    removes: seq<nat>,
    adds: seq<LeafNode>,
    path: Option<LeafNode>)

  function FirstBlank(ls: Leaves): (i: nat)
    ensures i <= |ls|
    ensures i < |ls| ==> ls[i] == None
    ensures forall k {:trigger ls[k]} | 0 <= k < i :: ls[k].Some?
  {
    if ls == [] || ls[0] == None then 0 else 1 + FirstBlank(ls[1..])
  }

  function Blanks(n: nat): (ls: Leaves)
    ensures |ls| == n && forall k {:trigger ls[k]} | 0 <= k < n :: ls[k] == None
  {
    seq(n, _ => None)
  }

  /** The leftmost empty leaf, or the first leaf of the right half after doubling the tree. */
  function Place(ls: Leaves, node: LeafNode): (r: Leaves) {
    var i := FirstBlank(ls);
    if i < |ls| then ls[i := Some(node)] else ls + [Some(node)] + Blanks(SaturatingSub(|ls|, 1))
  }

  predicate BlankFrom(ls: Leaves, lo: nat) { forall k | lo <= k < |ls| :: ls[k] == None }

  /** Drops the right half as long as it is empty. */
  function Truncate(ls: Leaves): (r: Leaves) {
    if |ls| > 1 && BlankFrom(ls, |ls| / 2) then Truncate(ls[..|ls| / 2]) else ls
  }

  /** An index beyond the tree blanks nothing; such a proposal is refused before it gets here. */
  function Remove(ls: Leaves, i: nat): (r: Leaves) { Truncate(if i < |ls| then ls[i := None] else ls) }

  function RemoveAll(ls: Leaves, xs: seq<nat>): (r: Leaves)
    decreases |xs|
  {
    if xs == [] then ls else RemoveAll(Remove(ls, xs[0]), xs[1..])
  }

  function AddAll(ls: Leaves, nodes: seq<LeafNode>): (r: Leaves)
    decreases |nodes|
  {
    if nodes == [] then ls else AddAll(Place(ls, nodes[0]), nodes[1..])
  }

  function Set(ls: Leaves, i: nat, node: LeafNode): (r: Leaves) {
    if i < |ls| then ls[i := Some(node)] else ls
  }

  function UpdateAll(ls: Leaves, us: seq<Update>): (r: Leaves)
    decreases |us|
  {
    if us == [] then ls else UpdateAll(Set(ls, us[0].leaf, us[0].node), us[1..])
  }

  function SetPath(ls: Leaves, sender: Sender, path: Option<LeafNode>): (r: Leaves) {
    match path
    case None => ls
    case Some(node) =>
      match sender
      case Member(i) => Set(ls, i, node)
      case NewMember => Place(ls, node)
  }

  function Apply(ls: Leaves, c: Changes): (r: Leaves) {
    SetPath(AddAll(RemoveAll(UpdateAll(ls, c.updates), c.removes), c.adds), c.sender, c.path)
  }

  // ---- What placing and truncating do ----

  /** The value at a leaf index, whether or not the tree reaches that far. */
  function LeafAt(ls: Leaves, i: nat): (r: Option<LeafNode>) { if i < |ls| then ls[i] else None }

  /** A new leaf takes the least free index, and nothing else changes. */
  lemma PlaceTakesLeastFree(ls: Leaves, node: LeafNode, k: nat)
    ensures LeafAt(Place(ls, node), k) == if k == FirstBlank(ls) then Some(node) else LeafAt(ls, k)
    ensures LeafAt(ls, FirstBlank(ls)) == None && (k < FirstBlank(ls) ==> LeafAt(ls, k).Some?)
  {
  }

  /** Truncation drops empty leaves only, and stops as soon as the right half is occupied. */
  lemma {:induction false} TruncateDropsBlanks(ls: Leaves, k: nat)
    ensures LeafAt(Truncate(ls), k) == LeafAt(ls, k)
    ensures |Truncate(ls)| <= 1 || !BlankFrom(Truncate(ls), |Truncate(ls)| / 2)
  {
    if |ls| > 1 && BlankFrom(ls, |ls| / 2) { TruncateDropsBlanks(ls[..|ls| / 2], k); }
  }

  // ---- Removal order does not matter ----

  function BlankAll(ls: Leaves, s: set<nat>): (r: Leaves)
    ensures |r| == |ls|
    ensures forall k {:trigger r[k]} | 0 <= k < |r| :: r[k] == if k in s then None else ls[k]
  {
    seq(|ls|, k requires 0 <= k < |ls| => if k in s then None else ls[k])
  }

  lemma {:induction false} TruncateAbsorbs(ls: Leaves, s: set<nat>)
    ensures Truncate(BlankAll(Truncate(ls), s)) == Truncate(BlankAll(ls, s))
    decreases |ls|
  {
    var half := |ls| / 2;
    if |ls| > 1 && BlankFrom(ls, half) {
      assert BlankAll(ls, s)[..half] == BlankAll(ls[..half], s);
      assert BlankFrom(BlankAll(ls, s), half);
      TruncateAbsorbs(ls[..half], s);
    }
  }

  function Indices(xs: seq<nat>): (s: set<nat>) { set i | i in xs }

  /** However the removals are ordered or repeated, the tree ends with that set of leaves blanked. */
  lemma {:induction false} RemoveAllIsBlankAll(ls: Leaves, xs: seq<nat>)
    requires xs != []
    ensures RemoveAll(ls, xs) == Truncate(BlankAll(ls, Indices(xs)))
    decreases |xs|
  {
    var i, rest := xs[0], xs[1..];
    assert Indices(xs) == {i} + Indices(rest);
    var one := BlankAll(ls, {i});
    assert Remove(ls, i) == Truncate(one) by { assert one == if i < |ls| then ls[i := None] else ls; }
    if rest == [] {
      assert Indices(xs) == {i};
    } else {
      RemoveAllIsBlankAll(Truncate(one), rest);
      TruncateAbsorbs(one, Indices(rest));
      assert BlankAll(one, Indices(rest)) == BlankAll(ls, Indices(xs));
    }
  }

  lemma RemoveAllBlanks(ls: Leaves, xs: seq<nat>, k: nat)
    ensures LeafAt(RemoveAll(ls, xs), k) == if k in xs then None else LeafAt(ls, k)
  {
    if xs != [] {
      RemoveAllIsBlankAll(ls, xs);
      TruncateDropsBlanks(BlankAll(ls, Indices(xs)), k);
    }
  }

  // ---- Lockstep ----

  /** The application's notion of "same user", first argument from the PQ group. */
  type Equivalence = (Credential, Credential) -> bool

  predicate SameLeaf(same: Equivalence, pq: Option<LeafNode>, t: Option<LeafNode>) {
    match (pq, t)
    case (Some(a), Some(b)) => same(a.credential, b.credential)
    case (None, None) => true
    case _ => false
  }

  predicate Lockstep(same: Equivalence, pq: Leaves, t: Leaves) {
    |pq| == |t| && forall i | 0 <= i < |pq| :: SameLeaf(same, pq[i], t[i])
  }

  predicate SameNodes(same: Equivalence, pq: seq<LeafNode>, t: seq<LeafNode>) {
    |pq| == |t| && forall i | 0 <= i < |pq| :: same(pq[i].credential, t[i].credential)
  }

  predicate SameUpdates(same: Equivalence, pq: seq<Update>, t: seq<Update>) {
    |pq| == |t| && forall i | 0 <= i < |pq| :: pq[i].leaf == t[i].leaf && same(pq[i].node.credential, t[i].node.credential)
  }

  lemma {:induction false} FirstBlankAgrees(same: Equivalence, pq: Leaves, t: Leaves)
    requires Lockstep(same, pq, t)
    ensures FirstBlank(pq) == FirstBlank(t)
    decreases |pq|
  {
    if pq != [] {
      assert SameLeaf(same, pq[0], t[0]);
      if pq[0].Some? { FirstBlankAgrees(same, pq[1..], t[1..]); }
    }
  }

  lemma PlaceKeeps(same: Equivalence, pq: Leaves, t: Leaves, a: LeafNode, b: LeafNode)
    requires Lockstep(same, pq, t) && same(a.credential, b.credential)
    ensures Lockstep(same, Place(pq, a), Place(t, b))
  {
    FirstBlankAgrees(same, pq, t);
  }

  lemma {:induction false} TruncateKeeps(same: Equivalence, pq: Leaves, t: Leaves)
    requires Lockstep(same, pq, t)
    ensures Lockstep(same, Truncate(pq), Truncate(t))
    decreases |pq|
  {
    var half := |pq| / 2;
    assert BlankFrom(pq, half) == BlankFrom(t, half) by {
      assert forall k | half <= k < |pq| :: SameLeaf(same, pq[k], t[k]);
    }
    if |pq| > 1 && BlankFrom(pq, half) { TruncateKeeps(same, pq[..half], t[..half]); }
  }

  lemma NoIndicesIff(xs: seq<nat>)
    ensures Indices(xs) == {} <==> xs == []
  {
    if xs != [] { assert xs[0] in Indices(xs); }
  }

  lemma RemovesKeep(same: Equivalence, pq: Leaves, t: Leaves, xs: seq<nat>, ys: seq<nat>)
    requires Lockstep(same, pq, t) && Indices(xs) == Indices(ys)
    ensures Lockstep(same, RemoveAll(pq, xs), RemoveAll(t, ys))
  {
    NoIndicesIff(xs);
    NoIndicesIff(ys);
    if xs != [] {
      RemoveAllIsBlankAll(pq, xs);
      RemoveAllIsBlankAll(t, ys);
      TruncateKeeps(same, BlankAll(pq, Indices(xs)), BlankAll(t, Indices(xs)));
    }
  }

  lemma {:induction false} AddsKeep(same: Equivalence, pq: Leaves, t: Leaves, xs: seq<LeafNode>, ys: seq<LeafNode>)
    requires Lockstep(same, pq, t) && SameNodes(same, xs, ys)
    ensures Lockstep(same, AddAll(pq, xs), AddAll(t, ys))
    decreases |xs|
  {
    if xs != [] {
      PlaceKeeps(same, pq, t, xs[0], ys[0]);
      AddsKeep(same, Place(pq, xs[0]), Place(t, ys[0]), xs[1..], ys[1..]);
    }
  }

  lemma {:induction false} UpdatesKeep(same: Equivalence, pq: Leaves, t: Leaves, xs: seq<Update>, ys: seq<Update>)
    requires Lockstep(same, pq, t) && SameUpdates(same, xs, ys)
    ensures Lockstep(same, UpdateAll(pq, xs), UpdateAll(t, ys))
    decreases |xs|
  {
    if xs != [] {
      UpdatesKeep(same, Set(pq, xs[0].leaf, xs[0].node), Set(t, ys[0].leaf, ys[0].node), xs[1..], ys[1..]);
    }
  }

  lemma PathKeeps(same: Equivalence, pq: Leaves, t: Leaves, sender: Sender, a: Option<LeafNode>, b: Option<LeafNode>)
    requires Lockstep(same, pq, t) && SameLeaf(same, a, b)
    ensures Lockstep(same, SetPath(pq, sender, a), SetPath(t, sender, b))
  {
    if a.Some? && sender.NewMember? { PlaceKeeps(same, pq, t, a.value, b.value); }
  }

  /** What a leg-by-leg comparison has to establish for the two trees to stay in lockstep. */
  predicate Alike(same: Equivalence, pq: Changes, t: Changes) {
    && pq.sender == t.sender
    && SameUpdates(same, pq.updates, t.updates)
    && Indices(pq.removes) == Indices(t.removes)
    && SameNodes(same, pq.adds, t.adds)
    && SameLeaf(same, pq.path, t.path)
  }

  lemma ApplyKeeps(same: Equivalence, pq: Leaves, t: Leaves, x: Changes, y: Changes)
    requires Lockstep(same, pq, t) && Alike(same, x, y)
    ensures Lockstep(same, Apply(pq, x), Apply(t, y))
  {
    UpdatesKeep(same, pq, t, x.updates, y.updates);
    var p, q := UpdateAll(pq, x.updates), UpdateAll(t, y.updates);
    RemovesKeep(same, p, q, x.removes, y.removes);
    AddsKeep(same, RemoveAll(p, x.removes), RemoveAll(q, y.removes), x.adds, y.adds);
    PathKeeps(same, AddAll(RemoveAll(p, x.removes), x.adds), AddAll(RemoveAll(q, y.removes), y.adds),
              x.sender, x.path, y.path);
  }

  // ---- Exactly when lockstep survives ----

  /** Under this equivalence lockstep only says that the same leaves are occupied. */
  const ANYONE: Equivalence := (_, _) => true

  /** Updates come from members of the group. */
  predicate FromMembers(ls: Leaves, us: seq<Update>) {
    forall k | 0 <= k < |us| :: LeafAt(ls, us[k].leaf).Some?
  }

  /** A member's commit comes from a member it does not remove, section 12.2 of RFC 9420. */
  predicate Sent(ls: Leaves, c: Changes) {
    c.sender.Member? ==> LeafAt(ls, c.sender.leaf).Some? && c.sender.leaf !in c.removes
  }

  lemma {:induction false} UpdatesKeepOccupancy(ls: Leaves, us: seq<Update>)
    requires FromMembers(ls, us)
    ensures |UpdateAll(ls, us)| == |ls|
    ensures forall i | 0 <= i < |ls| :: UpdateAll(ls, us)[i].Some? <==> ls[i].Some?
    decreases |us|
  {
    if us != [] {
      var next := Set(ls, us[0].leaf, us[0].node);
      assert FromMembers(next, us[1..]) by {
        forall k | 0 <= k < |us[1..]| ensures LeafAt(next, us[1..][k].leaf).Some? {
          assert us[1..][k] == us[k + 1];
        }
      }
      UpdatesKeepOccupancy(next, us[1..]);
    }
  }

  lemma LockstepPointwise(same: Equivalence, pq: Leaves, t: Leaves)
    requires |pq| == |t|
    ensures Lockstep(same, pq, t) <==> forall i: nat :: SameLeaf(same, LeafAt(pq, i), LeafAt(t, i))
  {
    if forall i: nat :: SameLeaf(same, LeafAt(pq, i), LeafAt(t, i)) {
      forall i | 0 <= i < |pq| ensures SameLeaf(same, pq[i], t[i]) { assert SameLeaf(same, LeafAt(pq, i), LeafAt(t, i)); }
    }
  }

  lemma PlacePointwise(same: Equivalence, pq: Leaves, t: Leaves, a: LeafNode, b: LeafNode, i: nat)
    requires Lockstep(ANYONE, pq, t) && same(a.credential, b.credential)
    ensures SameLeaf(same, LeafAt(Place(pq, a), i), LeafAt(Place(t, b), i)) <==> SameLeaf(same, LeafAt(pq, i), LeafAt(t, i))
  {
    FirstBlankAgrees(ANYONE, pq, t);
    PlaceTakesLeastFree(pq, a, i);
    PlaceTakesLeastFree(t, b, i);
  }

  lemma {:induction false} AddsPointwise(same: Equivalence, pq: Leaves, t: Leaves, xs: seq<LeafNode>, ys: seq<LeafNode>, i: nat)
    requires Lockstep(ANYONE, pq, t) && SameNodes(same, xs, ys)
    ensures Lockstep(ANYONE, AddAll(pq, xs), AddAll(t, ys))
    ensures SameLeaf(same, LeafAt(AddAll(pq, xs), i), LeafAt(AddAll(t, ys), i)) <==> SameLeaf(same, LeafAt(pq, i), LeafAt(t, i))
    decreases |xs|
  {
    if xs != [] {
      PlaceKeeps(ANYONE, pq, t, xs[0], ys[0]);
      PlacePointwise(same, pq, t, xs[0], ys[0], i);
      AddsPointwise(same, Place(pq, xs[0]), Place(t, ys[0]), xs[1..], ys[1..], i);
    }
  }

  /** The leaf a member's path overwrites. */
  predicate OnPath(c: Changes, i: nat) { c.path.Some? && c.sender == Member(i) }

  lemma PathPointwise(same: Equivalence, pq: Leaves, t: Leaves, x: Changes, y: Changes, i: nat)
    requires Lockstep(ANYONE, pq, t) && x.sender == y.sender && SameLeaf(same, x.path, y.path)
    ensures |SetPath(pq, x.sender, x.path)| == |SetPath(t, y.sender, y.path)|
    ensures SameLeaf(same, LeafAt(SetPath(pq, x.sender, x.path), i), LeafAt(SetPath(t, y.sender, y.path), i)) <==>
            OnPath(x, i) || SameLeaf(same, LeafAt(pq, i), LeafAt(t, i))
  {
    PathKeeps(ANYONE, pq, t, x.sender, x.path, y.path);
    if x.path.Some? && x.sender.NewMember? { PlacePointwise(same, pq, t, x.path.value, y.path.value, i); }
  }

  /** The two legs' Updates leave equivalent nodes on every leaf that is neither removed nor the committer's own. */
  predicate UpdatesMeet(same: Equivalence, pq: Leaves, t: Leaves, x: Changes, y: Changes) {
    forall i | 0 <= i < |pq| && i !in x.removes && !OnPath(x, i) ::
      SameLeaf(same, LeafAt(UpdateAll(pq, x.updates), i), LeafAt(UpdateAll(t, y.updates), i))
  }

  lemma ApplyPointwise(same: Equivalence, pq: Leaves, t: Leaves, x: Changes, y: Changes, i: nat)
    requires Lockstep(same, pq, t) && FromMembers(pq, x.updates) && FromMembers(t, y.updates)
    requires x.sender == y.sender && Indices(x.removes) == Indices(y.removes)
    requires SameNodes(same, x.adds, y.adds) && SameLeaf(same, x.path, y.path)
    ensures |Apply(pq, x)| == |Apply(t, y)|
    ensures SameLeaf(same, LeafAt(Apply(pq, x), i), LeafAt(Apply(t, y), i)) <==>
            || i in x.removes || OnPath(x, i)
            || SameLeaf(same, LeafAt(UpdateAll(pq, x.updates), i), LeafAt(UpdateAll(t, y.updates), i))
  {
    var p, q := UpdateAll(pq, x.updates), UpdateAll(t, y.updates);
    assert Lockstep(ANYONE, p, q) by {
      UpdatesKeepOccupancy(pq, x.updates);
      UpdatesKeepOccupancy(t, y.updates);
      assert forall k | 0 <= k < |pq| :: SameLeaf(same, pq[k], t[k]);
    }
    RemovesKeep(ANYONE, p, q, x.removes, y.removes);
    assert i in x.removes <==> i in y.removes by {
      assert i in x.removes <==> i in Indices(x.removes);
      assert i in y.removes <==> i in Indices(y.removes);
    }
    RemoveAllBlanks(p, x.removes, i);
    RemoveAllBlanks(q, y.removes, i);
    var r, s := RemoveAll(p, x.removes), RemoveAll(q, y.removes);
    AddsPointwise(same, r, s, x.adds, y.adds, i);
    PathPointwise(same, AddAll(r, x.adds), AddAll(s, y.adds), x, y, i);
  }

  /** Commits that compare equal keep two trees in lockstep if and only if their Updates meet. */
  lemma ApplyKeepsIff(same: Equivalence, pq: Leaves, t: Leaves, x: Changes, y: Changes)
    requires Lockstep(same, pq, t) && FromMembers(pq, x.updates) && FromMembers(t, y.updates)
    requires x.sender == y.sender && Indices(x.removes) == Indices(y.removes)
    requires SameNodes(same, x.adds, y.adds) && SameLeaf(same, x.path, y.path)
    ensures Lockstep(same, Apply(pq, x), Apply(t, y)) <==> UpdatesMeet(same, pq, t, x, y)
  {
    forall i: nat
      ensures SameLeaf(same, LeafAt(Apply(pq, x), i), LeafAt(Apply(t, y), i)) <==>
              || i in x.removes || OnPath(x, i)
              || SameLeaf(same, LeafAt(UpdateAll(pq, x.updates), i), LeafAt(UpdateAll(t, y.updates), i))
    {
      ApplyPointwise(same, pq, t, x, y, i);
    }
    ApplyPointwise(same, pq, t, x, y, 0);
    LockstepPointwise(same, Apply(pq, x), Apply(t, y));
    UpdatesKeepOccupancy(pq, x.updates);
    UpdatesKeepOccupancy(t, y.updates);
  }

  // ---- The shape of a tree ----

  predicate IsPowerOfTwo(n: nat) { n == 1 || (n > 1 && n % 2 == 0 && IsPowerOfTwo(n / 2)) }

  /** A power of two of leaves, with a member in the right half unless there is only one leaf. */
  predicate Canonical(ls: Leaves) { IsPowerOfTwo(|ls|) && (|ls| == 1 || !BlankFrom(ls, |ls| / 2)) }

  lemma {:induction false} TruncateIsCanonical(ls: Leaves)
    requires IsPowerOfTwo(|ls|)
    ensures Canonical(Truncate(ls))
    decreases |ls|
  {
    if |ls| > 1 && BlankFrom(ls, |ls| / 2) { TruncateIsCanonical(ls[..|ls| / 2]); }
  }

  lemma SetIsCanonical(ls: Leaves, i: nat, node: LeafNode)
    requires Canonical(ls)
    ensures Canonical(Set(ls, i, node))
  {
    if |ls| > 1 {
      var k :| |ls| / 2 <= k < |ls| && ls[k] != None;
      assert Set(ls, i, node)[k] != None;
    }
  }

  lemma PlaceIsCanonical(ls: Leaves, node: LeafNode)
    requires Canonical(ls)
    ensures Canonical(Place(ls, node))
  {
    var i, n := FirstBlank(ls), |ls|;
    if i < n {
      SetIsCanonical(ls, i, node);
    } else {
      var r := Place(ls, node);
      assert |r| == 2 * n && r[n] == Some(node);
      assert (2 * n) / 2 == n;
    }
  }

  lemma {:induction false} UpdatesAreCanonical(ls: Leaves, us: seq<Update>)
    requires Canonical(ls)
    ensures Canonical(UpdateAll(ls, us))
    decreases |us|
  {
    if us != [] {
      SetIsCanonical(ls, us[0].leaf, us[0].node);
      UpdatesAreCanonical(Set(ls, us[0].leaf, us[0].node), us[1..]);
    }
  }

  lemma RemovesAreCanonical(ls: Leaves, xs: seq<nat>)
    requires Canonical(ls)
    ensures Canonical(RemoveAll(ls, xs))
  {
    if xs != [] {
      RemoveAllIsBlankAll(ls, xs);
      TruncateIsCanonical(BlankAll(ls, Indices(xs)));
    }
  }

  lemma {:induction false} AddsAreCanonical(ls: Leaves, nodes: seq<LeafNode>)
    requires Canonical(ls)
    ensures Canonical(AddAll(ls, nodes))
    decreases |nodes|
  {
    if nodes != [] {
      PlaceIsCanonical(ls, nodes[0]);
      AddsAreCanonical(Place(ls, nodes[0]), nodes[1..]);
    }
  }

  lemma ApplyIsCanonical(ls: Leaves, c: Changes)
    requires Canonical(ls)
    ensures Canonical(Apply(ls, c))
  {
    UpdatesAreCanonical(ls, c.updates);
    var u := UpdateAll(ls, c.updates);
    RemovesAreCanonical(u, c.removes);
    AddsAreCanonical(RemoveAll(u, c.removes), c.adds);
    var a := AddAll(RemoveAll(u, c.removes), c.adds);
    if c.path.Some? {
      match c.sender
      case Member(i) => SetIsCanonical(a, i, c.path.value);
      case NewMember => PlaceIsCanonical(a, c.path.value);
    }
  }

  lemma {:induction false} PowersAreApart(m: nat, n: nat)
    requires IsPowerOfTwo(m) && IsPowerOfTwo(n) && n / 2 < m
    ensures n <= m
    decreases m
  {
    if n > 1 && m > 1 { PowersAreApart(m / 2, n / 2); }
  }

  lemma OccupancyFixesLength(a: Leaves, b: Leaves)
    requires Canonical(a) && Canonical(b) && forall i: nat :: LeafAt(a, i).Some? <==> LeafAt(b, i).Some?
    ensures |b| <= |a|
  {
    if |b| > 1 {
      var k :| |b| / 2 <= k < |b| && b[k] != None;
      assert LeafAt(b, k).Some?;
      PowersAreApart(|a|, |b|);
    }
  }

  /** The same users on the same leaves, wherever the trees end. */
  ghost predicate RostersMatch(same: Equivalence, pq: Leaves, t: Leaves) {
    forall i: nat :: SameLeaf(same, LeafAt(pq, i), LeafAt(t, i))
  }

  /** For well-shaped trees, lockstep is nothing but matching rosters. */
  lemma LockstepIsMatching(same: Equivalence, pq: Leaves, t: Leaves)
    requires Canonical(pq) && Canonical(t)
    ensures Lockstep(same, pq, t) <==> RostersMatch(same, pq, t)
  {
    if RostersMatch(same, pq, t) {
      assert forall i: nat :: LeafAt(pq, i).Some? <==> LeafAt(t, i).Some? by {
        forall i: nat ensures LeafAt(pq, i).Some? <==> LeafAt(t, i).Some? {
          assert SameLeaf(same, LeafAt(pq, i), LeafAt(t, i));
        }
      }
      OccupancyFixesLength(pq, t);
      OccupancyFixesLength(t, pq);
    }
    if |pq| == |t| { LockstepPointwise(same, pq, t); }
  }

  // ---- The leaves after a commit, without the tree operations ----

  /** Whether a leaf is free once some have been removed. */
  predicate Free(ls: Leaves, removes: seq<nat>, i: nat) { i in removes || LeafAt(ls, i) == None }

  function FreeBelow(ls: Leaves, removes: seq<nat>, i: nat): (n: nat) {
    if i == 0 then 0 else FreeBelow(ls, removes, i - 1) + if Free(ls, removes, i - 1) then 1 else 0
  }

  /** The added members, and behind them whoever commits itself in. */
  function Newcomers(c: Changes): (nodes: seq<LeafNode>) {
    if c.sender.NewMember? && c.path.Some? then c.adds + [c.path.value] else c.adds
  }

  /** Newcomers take the free leaves from the left; everyone else stays, with their Updates. */
  function Seat(ls: Leaves, c: Changes, i: nat): (r: Option<LeafNode>) {
    var updated := UpdateAll(ls, c.updates);
    if OnPath(c, i) then c.path
    else if !Free(updated, c.removes, i) then LeafAt(updated, i)
    else
      var k := FreeBelow(updated, c.removes, i);
      if k < |Newcomers(c)| then Some(Newcomers(c)[k]) else None
  }

  lemma {:induction false} NoneFreeBelowFirst(ls: Leaves, i: nat)
    requires i <= FirstBlank(ls)
    ensures FreeBelow(ls, [], i) == 0
  {
    if i > 0 { NoneFreeBelowFirst(ls, i - 1); }
  }

  lemma {:induction false} PlaceTakesOneFree(ls: Leaves, node: LeafNode, i: nat)
    requires i > FirstBlank(ls)
    ensures FreeBelow(ls, [], i) == FreeBelow(Place(ls, node), [], i) + 1
  {
    var f := FirstBlank(ls);
    PlaceTakesLeastFree(ls, node, i - 1);
    if i - 1 > f {
      PlaceTakesOneFree(ls, node, i - 1);
    } else {
      NoneFreeBelowFirst(ls, f);
      NothingFreeIn(ls, node, f);
    }
  }

  lemma {:induction false} NothingFreeIn(ls: Leaves, node: LeafNode, i: nat)
    requires i <= FirstBlank(ls)
    ensures FreeBelow(Place(ls, node), [], i) == 0
  {
    if i > 0 {
      PlaceTakesLeastFree(ls, node, i - 1);
      NothingFreeIn(ls, node, i - 1);
    }
  }

  lemma {:induction false} AddsFill(ls: Leaves, nodes: seq<LeafNode>, i: nat)
    ensures LeafAt(AddAll(ls, nodes), i) ==
            if LeafAt(ls, i).Some? then LeafAt(ls, i)
            else if FreeBelow(ls, [], i) < |nodes| then Some(nodes[FreeBelow(ls, [], i)]) else None
    decreases |nodes|
  {
    if nodes != [] {
      var f, next := FirstBlank(ls), Place(ls, nodes[0]);
      PlaceTakesLeastFree(ls, nodes[0], i);
      AddsFill(next, nodes[1..], i);
      if i == f { NoneFreeBelowFirst(ls, f); }
      if i > f { PlaceTakesOneFree(ls, nodes[0], i); }
    }
  }

  lemma {:induction false} AddAllSnoc(ls: Leaves, nodes: seq<LeafNode>, node: LeafNode)
    ensures AddAll(ls, nodes + [node]) == Place(AddAll(ls, nodes), node)
    decreases |nodes|
  {
    if nodes == [] {
      assert [node][1..] == [] && nodes + [node] == [node];
    } else {
      assert (nodes + [node])[1..] == nodes[1..] + [node];
      AddAllSnoc(Place(ls, nodes[0]), nodes[1..], node);
    }
  }

  lemma {:induction false} RemovedAreFree(ls: Leaves, removes: seq<nat>, i: nat)
    ensures FreeBelow(RemoveAll(ls, removes), [], i) == FreeBelow(ls, removes, i)
  {
    if i > 0 {
      RemoveAllBlanks(ls, removes, i - 1);
      RemovedAreFree(ls, removes, i - 1);
    }
  }

  lemma NewcomersFill(ls: Leaves, c: Changes, i: nat)
    requires !OnPath(c, i)
    ensures LeafAt(SetPath(AddAll(ls, c.adds), c.sender, c.path), i) == LeafAt(AddAll(ls, Newcomers(c)), i)
  {
    if c.sender.NewMember? && c.path.Some? { AddAllSnoc(ls, c.adds, c.path.value); }
  }

  /** A commit leaves on every leaf exactly what `Seat` says, provided its committer is there to have a path. */
  lemma CommitSeats(ls: Leaves, c: Changes, i: nat)
    requires OnPath(c, i) ==> i !in c.removes && LeafAt(ls, i).Some?
    ensures LeafAt(Apply(ls, c), i) == Seat(ls, c, i)
  {
    var u := UpdateAll(ls, c.updates);
    var r := RemoveAll(u, c.removes);
    RemoveAllBlanks(u, c.removes, i);
    if OnPath(c, i) {
      UpdatesKeepMembers(ls, c.updates, i);
      AddsKeepMembers(r, c.adds, i);
    } else {
      NewcomersFill(r, c, i);
      AddsFill(r, Newcomers(c), i);
      RemovedAreFree(u, c.removes, i);
    }
  }

  // ---- Whose leaf is whose ----

  /** Where the k-th of some added nodes goes. */
  function PlacedAt(ls: Leaves, nodes: seq<LeafNode>, k: nat): (i: nat)
    requires k < |nodes|
    decreases k
  {
    if k == 0 then FirstBlank(ls) else PlacedAt(Place(ls, nodes[0]), nodes[1..], k - 1)
  }

  lemma {:induction false} AddsKeepMembers(ls: Leaves, nodes: seq<LeafNode>, i: nat)
    requires LeafAt(ls, i).Some?
    ensures LeafAt(AddAll(ls, nodes), i) == LeafAt(ls, i)
    decreases |nodes|
  {
    if nodes != [] {
      PlaceTakesLeastFree(ls, nodes[0], i);
      AddsKeepMembers(Place(ls, nodes[0]), nodes[1..], i);
    }
  }

  lemma {:induction false} PlacedHolds(ls: Leaves, nodes: seq<LeafNode>, k: nat)
    requires k < |nodes|
    ensures LeafAt(ls, PlacedAt(ls, nodes, k)) == None
    ensures LeafAt(AddAll(ls, nodes), PlacedAt(ls, nodes, k)) == Some(nodes[k])
    decreases k
  {
    var next := Place(ls, nodes[0]);
    if k == 0 {
      PlaceTakesLeastFree(ls, nodes[0], FirstBlank(ls));
      AddsKeepMembers(next, nodes[1..], FirstBlank(ls));
    } else {
      PlacedHolds(next, nodes[1..], k - 1);
      PlaceTakesLeastFree(ls, nodes[0], PlacedAt(ls, nodes, k));
    }
  }

  lemma {:induction false} PlacedApart(ls: Leaves, nodes: seq<LeafNode>, j: nat, k: nat)
    requires j < k < |nodes|
    ensures PlacedAt(ls, nodes, j) != PlacedAt(ls, nodes, k)
    decreases j
  {
    var next := Place(ls, nodes[0]);
    if j == 0 {
      PlaceTakesLeastFree(ls, nodes[0], FirstBlank(ls));
      PlacedHolds(next, nodes[1..], k - 1);
    } else {
      PlacedApart(next, nodes[1..], j - 1, k - 1);
    }
  }

  lemma {:induction false} PlacedAgrees(same: Equivalence, pq: Leaves, t: Leaves, xs: seq<LeafNode>, ys: seq<LeafNode>, k: nat)
    requires Lockstep(same, pq, t) && SameNodes(same, xs, ys) && k < |xs|
    ensures PlacedAt(pq, xs, k) == PlacedAt(t, ys, k)
    decreases k
  {
    if k == 0 {
      FirstBlankAgrees(same, pq, t);
    } else {
      PlaceKeeps(same, pq, t, xs[0], ys[0]);
      PlacedAgrees(same, Place(pq, xs[0]), Place(t, ys[0]), xs[1..], ys[1..], k - 1);
    }
  }

  lemma {:induction false} UpdatesKeepMembers(ls: Leaves, us: seq<Update>, i: nat)
    ensures LeafAt(ls, i).Some? ==> LeafAt(UpdateAll(ls, us), i).Some?
    ensures (forall k | 0 <= k < |us| :: us[k].leaf != i) ==> LeafAt(UpdateAll(ls, us), i) == LeafAt(ls, i)
    decreases |us|
  {
    if us != [] {
      var next := Set(ls, us[0].leaf, us[0].node);
      UpdatesKeepMembers(next, us[1..], i);
      if forall k | 0 <= k < |us| :: us[k].leaf != i {
        assert forall k | 0 <= k < |us[1..]| :: us[1..][k] == us[k + 1];
      }
    }
  }

  /** A member that is not removed keeps its leaf, and its node unless it is updated or the commit is its own. */
  lemma MembersKeepTheirLeaf(ls: Leaves, c: Changes, i: nat)
    requires i !in c.removes && LeafAt(ls, i).Some?
    ensures LeafAt(Apply(ls, c), i) == if OnPath(c, i) then c.path else LeafAt(UpdateAll(ls, c.updates), i)
    ensures LeafAt(Apply(ls, c), i).Some?
    ensures !OnPath(c, i) && (forall k | 0 <= k < |c.updates| :: c.updates[k].leaf != i) ==>
              LeafAt(Apply(ls, c), i) == LeafAt(ls, i)
  {
    UpdatesKeepMembers(ls, c.updates, i);
    CommitSeats(ls, c, i);
  }

  /** The k-th added member finds its node where it was placed. */
  lemma AddedFindTheirLeaf(ls: Leaves, c: Changes, k: nat)
    requires k < |c.adds| && Sent(ls, c)
    ensures LeafAt(Apply(ls, c), PlacedAt(RemoveAll(UpdateAll(ls, c.updates), c.removes), c.adds, k)) == Some(c.adds[k])
  {
    var u := UpdateAll(ls, c.updates);
    var r := RemoveAll(u, c.removes);
    var i := PlacedAt(r, c.adds, k);
    PlacedHolds(r, c.adds, k);
    if c.sender.Member? {
      UpdatesKeepMembers(ls, c.updates, c.sender.leaf);
      RemoveAllBlanks(u, c.removes, c.sender.leaf);
    } else if c.path.Some? {
      PlaceTakesLeastFree(AddAll(r, c.adds), c.path.value, i);
    }
  }

  /** An external joiner takes the least leaf free after the removals. */
  lemma JoinerFindsItsLeaf(ls: Leaves, c: Changes)
    requires c.updates == [] && c.adds == [] && c.sender.NewMember? && c.path.Some?
    ensures LeafAt(Apply(ls, c), FirstBlank(RemoveAll(ls, c.removes))) == c.path
  {
    var r := RemoveAll(ls, c.removes);
    PlaceTakesLeastFree(r, c.path.value, FirstBlank(r));
  }
}
