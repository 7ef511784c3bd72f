/**
 The diff language of the message list: what the UI applies, in newest-first order.

 The UI mirror is written as `Newest(shown)`, where `shown` lists the mirror oldest-first, so that a
 change emitted in newest-first indices can be compared with the window it describes.
 */
module MessageDiff {
  import opened Prelude
  import opened Flights

  datatype Change =
    | Reload(messages: seq<Message>)
    | Splice(index: nat, inserted: seq<Message>, deleteCount: nat)
    | Patch(index: nat, message: Message)

  /** One change on a mirror; `None` when an index or a count is out of range. */
  function ApplyChange(mirror: seq<Message>, c: Change): (r: Option<seq<Message>>) {
    match c
    case Reload(ms) => Some(ms)
    case Splice(index, inserted, deleteCount) =>
      if index + deleteCount <= |mirror|
      then Some(mirror[..index] + inserted + mirror[index + deleteCount..])
      else None
    case Patch(index, m) =>
      if index < |mirror| then Some(mirror[index := m]) else None
  }

  function Replay(mirror: seq<Message>, changes: seq<Change>): (r: Option<seq<Message>>)
    decreases |changes|
  {
    if changes == [] then Some(mirror)
    else
      match ApplyChange(mirror, changes[0])
      case None => None
      case Some(next) => Replay(next, changes[1..])
  }

  /** The list in the opposite order. */
  function Newest(ms: seq<Message>): (r: seq<Message>)
    ensures |r| == |ms|
    ensures forall i {:trigger r[i]} | 0 <= i < |r| :: r[i] == ms[|ms| - 1 - i]
  {
    seq(|ms|, i requires 0 <= i < |ms| => ms[|ms| - 1 - i])
  }

  function NewestIndex(len: nat, i: nat): (r: nat)
    requires i < len
  {
    len - 1 - i
  }

  /** The patches for the indices of `s` below `n`, in ascending (oldest-first) order. */
  function PatchesBelow(ms: seq<Message>, s: set<nat>, n: nat): (r: seq<Change>)
    requires n <= |ms|
  {
    if n == 0 then []
    else PatchesBelow(ms, s, n - 1) +
         (if n - 1 in s then [Patch(NewestIndex(|ms|, n - 1), ms[n - 1])] else [])
  }

  function Patches(ms: seq<Message>, s: set<nat>): (r: seq<Change>) {
    PatchesBelow(ms, s, |ms|)
  }

  /** `base` with the entries in `s` taken from `ms`. */
  function Overlay(base: seq<Message>, ms: seq<Message>, s: set<nat>): (r: seq<Message>)
    requires |base| == |ms|
    ensures |r| == |ms|
    ensures forall i {:trigger r[i]} | 0 <= i < |r| :: r[i] == if i in s then ms[i] else base[i]
  {
    seq(|ms|, i requires 0 <= i < |ms| => if i in s then ms[i] else base[i])
  }

  lemma {:induction false} ReplayConcat(mirror: seq<Message>, a: seq<Change>, b: seq<Change>)
    ensures Replay(mirror, a + b) ==
            match Replay(mirror, a) { case None => None case Some(m) => Replay(m, b) }
    decreases |a|
  {
    if a == [] {
      assert a + b == b;
    } else {
      assert (a + b)[0] == a[0] && (a + b)[1..] == a[1..] + b;
      match ApplyChange(mirror, a[0])
      case None =>
      case Some(next) => ReplayConcat(next, a[1..], b);
    }
  }

  lemma ReplayOne(mirror: seq<Message>, c: Change)
    ensures Replay(mirror, [c]) == ApplyChange(mirror, c)
  {
    assert [c][1..] == [];
  }

  function Restrict(s: set<nat>, n: nat): (r: set<nat>) { set i | i in s && i < n }

  lemma PatchOne(before: seq<Message>, after: seq<Message>, i: nat, m: Message)
    requires i < |before| && after == before[i := m]
    ensures ApplyChange(Newest(before), Patch(NewestIndex(|before|, i), m)) == Some(Newest(after))
  {
    assert Newest(before)[NewestIndex(|before|, i) := m] == Newest(after);
  }

  lemma {:induction false} ReplayPatchesBelow(base: seq<Message>, ms: seq<Message>, s: set<nat>, n: nat)
    requires |base| == |ms| && n <= |ms|
    ensures Replay(Newest(base), PatchesBelow(ms, s, n)) == Some(Newest(Overlay(base, ms, Restrict(s, n))))
    decreases n
  {
    if n == 0 {
      assert Overlay(base, ms, Restrict(s, 0)) == base;
    } else {
      ReplayPatchesBelow(base, ms, s, n - 1);
      if n - 1 in s {
        ReplayNextPatch(base, ms, s, n - 1);
      } else {
        assert PatchesBelow(ms, s, n) == PatchesBelow(ms, s, n - 1);
        assert Overlay(base, ms, Restrict(s, n)) == Overlay(base, ms, Restrict(s, n - 1));
      }
    }
  }

  lemma ReplayNextPatch(base: seq<Message>, ms: seq<Message>, s: set<nat>, i: nat)
    requires |base| == |ms| && i < |ms| && i in s
    requires Replay(Newest(base), PatchesBelow(ms, s, i)) == Some(Newest(Overlay(base, ms, Restrict(s, i))))
    ensures Replay(Newest(base), PatchesBelow(ms, s, i + 1)) == Some(Newest(Overlay(base, ms, Restrict(s, i + 1))))
  {
    var before, after := Overlay(base, ms, Restrict(s, i)), Overlay(base, ms, Restrict(s, i + 1));
    var c := Patch(NewestIndex(|ms|, i), ms[i]);
    ReplayConcat(Newest(base), PatchesBelow(ms, s, i), [c]);
    ReplayOne(Newest(before), c);
    PatchOne(before, after, i, ms[i]);
  }

  /** Replaying a patch list puts exactly the listed entries right. */
  lemma ReplayPatches(base: seq<Message>, ms: seq<Message>, s: set<nat>)
    requires |base| == |ms|
    ensures Replay(Newest(base), Patches(ms, s)) == Some(Newest(Overlay(base, ms, s)))
  {
    ReplayPatchesBelow(base, ms, s, |ms|);
    assert Overlay(base, ms, Restrict(s, |ms|)) == Overlay(base, ms, s);
  }

  /** Up to two splices, then patches: the shape of every incremental transition. */
  lemma ReplayTransition(shown: seq<Message>, splices: seq<Change>, mid: seq<Message>, base: seq<Message>,
                         ms: seq<Message>, s: set<nat>)
    requires |base| == |ms| && |splices| <= 2
    requires |splices| == 0 ==> base == shown
    requires |splices| == 1 ==> ApplyChange(Newest(shown), splices[0]) == Some(Newest(base))
    requires |splices| == 2 ==> ApplyChange(Newest(shown), splices[0]) == Some(Newest(mid))
    requires |splices| == 2 ==> ApplyChange(Newest(mid), splices[1]) == Some(Newest(base))
    ensures Replay(Newest(shown), splices + Patches(ms, s)) == Some(Newest(Overlay(base, ms, s)))
  {
    ReplayPatches(base, ms, s);
    ReplayConcat(Newest(shown), splices, Patches(ms, s));
    if |splices| == 1 {
      assert splices == [splices[0]];
      ReplayOne(Newest(shown), splices[0]);
    } else if |splices| == 2 {
      assert splices == [splices[0]] + [splices[1]];
      ReplayConcat(Newest(shown), [splices[0]], [splices[1]]);
      ReplayOne(Newest(shown), splices[0]);
      ReplayOne(Newest(mid), splices[1]);
    }
  }

  lemma InsertOlder(shown: seq<Message>, page: seq<Message>)
    ensures ApplyChange(Newest(shown), Splice(|shown|, Newest(page), 0)) == Some(Newest(page + shown))
  {
    assert Newest(shown)[..|shown|] + Newest(page) + Newest(shown)[|shown|..] == Newest(page + shown);
  }

  lemma InsertNewer(shown: seq<Message>, page: seq<Message>)
    ensures ApplyChange(Newest(shown), Splice(0, Newest(page), 0)) == Some(Newest(shown + page))
  {
    assert Newest(shown)[..0] + Newest(page) + Newest(shown)[0..] == Newest(shown + page);
  }

  lemma EvictNewest(all: seq<Message>, count: nat)
    requires count <= |all|
    ensures ApplyChange(Newest(all), Splice(0, [], count)) == Some(Newest(all[..|all| - count]))
  {
    assert Newest(all)[..0] + [] + Newest(all)[count..] == Newest(all[..|all| - count]);
  }

  lemma EvictOldest(all: seq<Message>, count: nat)
    requires count <= |all|
    ensures ApplyChange(Newest(all), Splice(|all| - count, [], count)) == Some(Newest(all[count..]))
  {
    assert Newest(all)[..|all| - count] + [] + Newest(all)[|all|..] == Newest(all[count..]);
  }

  lemma DeleteOne(shown: seq<Message>, i: nat)
    requires i < |shown|
    ensures ApplyChange(Newest(shown), Splice(NewestIndex(|shown|, i), [], 1)) == Some(Newest(shown[..i] + shown[i + 1..]))
  {
    var k := NewestIndex(|shown|, i);
    assert Newest(shown)[..k] + [] + Newest(shown)[k + 1..] == Newest(shown[..i] + shown[i + 1..]);
  }
}
