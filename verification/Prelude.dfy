/** Values shared by every component model. */
module Prelude {

  datatype Option<+T> = None | Some(value: T)

  datatype Result<+T, +E> = Ok(value: T) | Err(error: E)

  function Min(a: int, b: int): (r: int)
    ensures r <= a && r <= b && (r == a || r == b)
  {
    if a < b then a else b
  }

  /** `usize::saturating_sub`. */
  function SaturatingSub(a: nat, b: nat): (r: nat)
    ensures b <= a ==> r + b == a
    ensures a <= b ==> r == 0
  {
    if a < b then 0 else a - b
  }

  /** `usize::checked_sub`. */
  function CheckedSub(a: nat, b: nat): (r: Option<nat>)
    ensures r.Some? <==> b <= a
    ensures r.Some? ==> r.value + b == a
  {
    if a < b then None else Some(a - b)
  }

  // ---- Stretches of a sequence ----

  /** The elements from `a` to `b` are `s`. */
  predicate Spans<T(==)>(xs: seq<T>, a: nat, b: nat, s: seq<T>) { a <= b <= |xs| && xs[a..b] == s }

  lemma SlicesMeet<T>(xs: seq<T>, a: nat, b: nat, c: nat)
    requires a <= b <= c <= |xs|
    ensures xs[a..b] + xs[b..c] == xs[a..c]
  {
  }

  lemma DropsAdd<T>(xs: seq<T>, a: nat, b: nat)
    requires a + b <= |xs|
    ensures xs[a..][b..] == xs[a + b..]
  {
  }

  lemma TakeThenDrop<T>(xs: seq<T>, a: nat, b: nat)
    requires a <= b <= |xs|
    ensures xs[..b][a..] == xs[a..b]
  {
  }

  lemma SpansJoin<T>(xs: seq<T>, a: nat, b: nat, c: nat, s: seq<T>, t: seq<T>)
    requires Spans(xs, a, b, s) && Spans(xs, b, c, t)
    ensures Spans(xs, a, c, s + t)
  {
    SlicesMeet(xs, a, b, c);
  }

  lemma SpansSplit<T>(xs: seq<T>, a: nat, c: nat, s: seq<T>, t: seq<T>) returns (b: nat)
    requires Spans(xs, a, c, s + t)
    ensures Spans(xs, a, b, s) && Spans(xs, b, c, t)
  {
    b := a + |s|;
    assert s == (s + t)[..|s|] && t == (s + t)[|s|..];
  }

  lemma SpansOne<T>(xs: seq<T>, a: nat, b: nat, x: T, s: seq<T>)
    ensures Spans(xs, a, b, [x] + s) <==> a < b <= |xs| && xs[a] == x && Spans(xs, a + 1, b, s)
  {
    if a < b <= |xs| && xs[a] == x && Spans(xs, a + 1, b, s) { SlicesMeet(xs, a, a + 1, b); }
    if Spans(xs, a, b, [x] + s) {
      assert xs[a..b][0] == xs[a] && xs[a..b][1..] == xs[a + 1..b];
      assert ([x] + s)[1..] == s;
    }
  }

  lemma SpansBrackets<T>(xs: seq<T>, a: nat, b: nat, x: T, s: seq<T>, y: T)
    ensures Spans(xs, a, b, [x] + s + [y]) <==>
            a + 1 < b <= |xs| && xs[a] == x && xs[b - 1] == y && Spans(xs, a + 1, b - 1, s)
  {
    assert [x] + s + [y] == [x] + (s + [y]);
    SpansOne(xs, a, b, x, s + [y]);
    SpansLast(xs, a + 1, b, s, y);
  }

  lemma SpansLast<T>(xs: seq<T>, a: nat, b: nat, s: seq<T>, y: T)
    ensures Spans(xs, a, b, s + [y]) <==> a < b <= |xs| && xs[b - 1] == y && Spans(xs, a, b - 1, s)
  {
    if a < b <= |xs| && xs[b - 1] == y && Spans(xs, a, b - 1, s) { SlicesMeet(xs, a, b - 1, b); }
    if Spans(xs, a, b, s + [y]) {
      assert (s + [y])[|s|] == y && xs[a..b][b - 1 - a] == xs[b - 1];
      assert (s + [y])[..|s|] == s && xs[a..b][..b - 1 - a] == xs[a..b - 1];
    }
  }
}
