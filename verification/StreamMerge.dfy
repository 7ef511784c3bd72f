/**
 The stream combinator that ends with its first stream. Inner streams are adversarial: `nat -> Poll`
 gives the answer to each successive poll. `SelectUntilFirstEnds` is the combinator as the code keeps
 it; `PollNext` is its effect on a value, and the theorems are about every run of polls.
 */
module StreamMerge {
  import opened Prelude

  datatype Poll<T> = Pending | Ready(item: Option<T>)

  type Behaviour<T> = nat -> Poll<T>

  datatype Turn = TurnA | TurnB

  function Flip(t: Turn): (r: Turn) { if t.TurnA? then TurnB else TurnA }

  /** The combinator's flags and how often each inner stream has been polled. */
  datatype Select = Select(aDone: bool, bDone: bool, turn: Turn, aPolls: nat, bPolls: nat)

  function Start(): (s: Select) { Select(false, false, TurnA, 0, 0) }

  /** One answer of the combinator; an item remembers which stream it came from. */
  datatype Output<T> = Wait | Finished | Item(value: T, fromA: bool)

  function PollDrain<T>(b: Behaviour<T>, s: Select): (r: (Select, Output<T>)) {
    if s.bDone then (s, Finished)
    else
      var next := s.(bPolls := s.bPolls + 1);
      match b(s.bPolls)
      case Ready(Some(v)) => (next, Item(v, false))
      case _ => (next.(bDone := true), Finished)
  }

  /** Polls A; when A ends, goes on to drain B. `Wait` when A is pending. */
  function PollA<T>(a: Behaviour<T>, b: Behaviour<T>, s: Select): (r: (Select, Output<T>)) {
    var next := s.(aPolls := s.aPolls + 1);
    match a(s.aPolls)
    case Pending => (next, Wait)
    case Ready(Some(v)) => (next, Item(v, true))
    case Ready(None) => PollDrain(b, next.(aDone := true))
  }

  /** Polls B unless it has ended; its end reads as `Wait`. */
  function PollB<T>(b: Behaviour<T>, s: Select): (r: (Select, Output<T>)) {
    if s.bDone then (s, Wait)
    else
      var next := s.(bPolls := s.bPolls + 1);
      match b(s.bPolls)
      case Pending => (next, Wait)
      case Ready(Some(v)) => (next, Item(v, false))
      case Ready(None) => (next.(bDone := true), Wait)
  }

  function PollNext<T>(a: Behaviour<T>, b: Behaviour<T>, s: Select): (r: (Select, Output<T>)) {
    if s.aDone then PollDrain(b, s)
    else
      var flipped := s.(turn := Flip(s.turn));
      if s.turn.TurnA? then
        var (s1, out) := PollA(a, b, flipped);
        if out.Wait? then PollB(b, s1) else (s1, out)
      else
        var (s1, out) := PollB(b, flipped);
        if out.Wait? then PollA(a, b, s1) else (s1, out)
  }

  // ---- The combinator ----

  class Inner<T> {
    const behaviour: Behaviour<T>
    var polls: nat

    constructor (behaviour: Behaviour<T>)
      ensures this.behaviour == behaviour && polls == 0
    {
      this.behaviour, polls := behaviour, 0;
    }

    method PollNext() returns (r: Poll<T>)
      modifies this
      ensures r == behaviour(old(polls)) && polls == old(polls) + 1
    {
      r := behaviour(polls);
      polls := polls + 1;
    }
  }

  class SelectUntilFirstEnds<T> {
    const a: Inner<T>
    const b: Inner<T>
    var aDone: bool
    var bDone: bool
    var turn: Turn

    ghost function View(): (s: Select)
      reads this, a, b
    {
      Select(aDone, bDone, turn, a.polls, b.polls)
    }

    constructor (a: Inner<T>, b: Inner<T>)
      requires a.polls == 0 && b.polls == 0
      ensures this.a == a && this.b == b && View() == Start()
    {
      this.a, this.b := a, b;
      aDone, bDone, turn := false, false, TurnA;
    }

    method Drain() returns (out: Output<T>)
      requires a != b
      modifies this, b
      ensures (View(), out) == PollDrain(b.behaviour, old(View()))
    {
      if bDone { return Finished; }
      var r := b.PollNext();
      if r.Ready? && r.item.Some? {
        out := Item(r.item.value, false);
      } else {
        bDone := true;
        out := Finished;
      }
    }

    method AskA() returns (out: Output<T>)
      requires a != b
      modifies this, a, b
      ensures (View(), out) == PollA(a.behaviour, b.behaviour, old(View()))
    {
      var r := a.PollNext();
      match r {
        case Pending => out := Wait;
        case Ready(Some(v)) => out := Item(v, true);
        case Ready(None) =>
          aDone := true;
          out := Drain();
      }
    }

    method AskB() returns (out: Output<T>)
      requires a != b
      modifies this, b
      ensures (View(), out) == PollB(b.behaviour, old(View()))
    {
      if bDone { return Wait; }
      var r := b.PollNext();
      match r {
        case Pending => out := Wait;
        case Ready(Some(v)) => out := Item(v, false);
        case Ready(None) =>
          bDone := true;
          out := Wait;
      }
    }

    method Next() returns (out: Output<T>)
      requires a != b
      modifies this, a, b
      ensures (View(), out) == PollNext(a.behaviour, b.behaviour, old(View()))
    {
      if aDone {
        out := Drain();
        return;
      }
      var now := turn;
      turn := Flip(turn);
      match now {
        case TurnA =>
          out := AskA();
          if out.Wait? { out := AskB(); }
        case TurnB =>
          out := AskB();
          if out.Wait? { out := AskA(); }
      }
    }
  }

  // ---- Runs ----

  function StateAfter<T>(a: Behaviour<T>, b: Behaviour<T>, k: nat): (s: Select) {
    if k == 0 then Start() else PollNext(a, b, StateAfter(a, b, k - 1)).0
  }

  /** The answer to the `k`-th poll. */
  function OutputAt<T>(a: Behaviour<T>, b: Behaviour<T>, k: nat): (o: Output<T>) {
    PollNext(a, b, StateAfter(a, b, k)).1
  }

  /** The items among the first `k` answers, in order. */
  function Delivered<T>(a: Behaviour<T>, b: Behaviour<T>, k: nat): (r: seq<T>) {
    if k == 0 then []
    else Delivered(a, b, k - 1) +
         (if OutputAt(a, b, k - 1).Item? then [OutputAt(a, b, k - 1).value] else [])
  }

  /** The items an inner stream gave in its first `n` polls. */
  function Given<T>(f: Behaviour<T>, n: nat): (r: seq<T>) {
    if n == 0 then []
    else Given(f, n - 1) + (if f(n - 1).Ready? && f(n - 1).item.Some? then [f(n - 1).item.value] else [])
  }

  /** `out` is a merge of `xs` and `ys` that keeps both orders, nothing lost and nothing added. */
  ghost predicate Interleaves<T(!new)>(out: seq<T>, xs: seq<T>, ys: seq<T>)
    decreases |out|
  {
    if out == [] then xs == [] && ys == []
    else
      var n := |out| - 1;
      || (xs != [] && out[n] == xs[|xs| - 1] && Interleaves(out[..n], xs[..|xs| - 1], ys))
      || (ys != [] && out[n] == ys[|ys| - 1] && Interleaves(out[..n], xs, ys[..|ys| - 1]))
  }

  lemma GivenNext<T>(f: Behaviour<T>, n: nat)
    ensures f(n).Ready? && f(n).item.Some? ==> Given(f, n + 1) == Given(f, n) + [f(n).item.value]
    ensures !(f(n).Ready? && f(n).item.Some?) ==> Given(f, n + 1) == Given(f, n)
  {
  }

  /** Between `s` and `r` exactly `out` was taken from the inner streams, and from one of them. */
  predicate Takes<T(==)>(a: Behaviour<T>, b: Behaviour<T>, s: Select, r: Select, out: Output<T>) {
    && Given(a, r.aPolls) == Given(a, s.aPolls) + (if out.Item? && out.fromA then [out.value] else [])
    && Given(b, r.bPolls) == Given(b, s.bPolls) + (if out.Item? && !out.fromA then [out.value] else [])
  }

  lemma DrainTakes<T>(a: Behaviour<T>, b: Behaviour<T>, s: Select)
    ensures Takes(a, b, s, PollDrain(b, s).0, PollDrain(b, s).1)
  {
    GivenNext(b, s.bPolls);
  }

  lemma AskBTakes<T>(a: Behaviour<T>, b: Behaviour<T>, s: Select)
    ensures Takes(a, b, s, PollB(b, s).0, PollB(b, s).1)
  {
    GivenNext(b, s.bPolls);
  }

  lemma AskATakes<T>(a: Behaviour<T>, b: Behaviour<T>, s: Select)
    ensures Takes(a, b, s, PollA(a, b, s).0, PollA(a, b, s).1)
  {
    GivenNext(a, s.aPolls);
    DrainTakes(a, b, s.(aPolls := s.aPolls + 1, aDone := true));
  }

  /** A wait takes nothing, so what comes after it is all that was taken. */
  lemma TakesAfterWait<T>(a: Behaviour<T>, b: Behaviour<T>, s: Select, mid: Select, r: Select, out: Output<T>)
    requires Takes(a, b, s, mid, Wait) && Takes(a, b, mid, r, out)
    ensures Takes(a, b, s, r, out)
  {
    assert Given(a, s.aPolls) + [] == Given(a, s.aPolls) && Given(b, s.bPolls) + [] == Given(b, s.bPolls);
  }

  /** One poll adds to the output exactly what it took from the inner streams. */
  lemma PollTakes<T>(a: Behaviour<T>, b: Behaviour<T>, s: Select)
    ensures Takes(a, b, s, PollNext(a, b, s).0, PollNext(a, b, s).1)
  {
    var flipped := s.(turn := Flip(s.turn));
    if s.aDone {
      DrainTakes(a, b, s);
    } else if s.turn.TurnA? {
      var (mid, out) := PollA(a, b, flipped);
      AskATakes(a, b, flipped);
      AskBTakes(a, b, mid);
      if out.Wait? { TakesAfterWait(a, b, s, mid, PollB(b, mid).0, PollB(b, mid).1); }
    } else {
      var (mid, out) := PollB(b, flipped);
      AskBTakes(a, b, flipped);
      AskATakes(a, b, mid);
      if out.Wait? { TakesAfterWait(a, b, s, mid, PollA(a, b, mid).0, PollA(a, b, mid).1); }
    }
  }

  lemma InterleavesTakes<T(!new)>(out: seq<T>, xs: seq<T>, ys: seq<T>, v: T)
    requires Interleaves(out, xs, ys)
    ensures Interleaves(out + [v], xs + [v], ys) && Interleaves(out + [v], xs, ys + [v])
  {
    assert (out + [v])[..|out|] == out;
    assert (xs + [v])[..|xs|] == xs;
    assert (ys + [v])[..|ys|] == ys;
  }

  /** What holds after any number of polls. */
  ghost predicate Inv<T(!new)>(a: Behaviour<T>, b: Behaviour<T>, s: Select) {
    && (s.aDone <==> s.aPolls > 0 && a(s.aPolls - 1) == Ready(None))
    && (forall n: nat {:trigger a(n)} | n + 1 < s.aPolls :: a(n) != Ready(None))
    && (forall n: nat {:trigger b(n)} | n + 1 < s.bPolls :: b(n) != Ready(None))
    && (s.bPolls > 0 && b(s.bPolls - 1) == Ready(None) ==> s.bDone)
    && (s.bDone && !s.aDone ==> s.bPolls > 0 && b(s.bPolls - 1) == Ready(None))
    && (s.bDone ==> s.bPolls > 0 && !(b(s.bPolls - 1).Ready? && b(s.bPolls - 1).item.Some?))
  }

  lemma DrainKeepsInv<T(!new)>(a: Behaviour<T>, b: Behaviour<T>, s: Select)
    requires Inv(a, b, s) && s.aDone
    ensures Inv(a, b, PollDrain(b, s).0)
  {
  }

  lemma AskAKeepsInv<T(!new)>(a: Behaviour<T>, b: Behaviour<T>, s: Select)
    requires Inv(a, b, s) && !s.aDone
    ensures Inv(a, b, PollA(a, b, s).0)
  {
    var next := s.(aPolls := s.aPolls + 1, aDone := a(s.aPolls) == Ready(None));
    assert Inv(a, b, next);
    if next.aDone { DrainKeepsInv(a, b, next); }
  }

  lemma AskBKeepsInv<T(!new)>(a: Behaviour<T>, b: Behaviour<T>, s: Select)
    requires Inv(a, b, s) && !s.aDone
    ensures Inv(a, b, PollB(b, s).0) && !PollB(b, s).0.aDone
  {
  }

  lemma PollKeepsInv<T(!new)>(a: Behaviour<T>, b: Behaviour<T>, s: Select)
    requires Inv(a, b, s)
    ensures Inv(a, b, PollNext(a, b, s).0)
  {
    if s.aDone {
      DrainKeepsInv(a, b, s);
    } else {
      var flipped := s.(turn := Flip(s.turn));
      assert Inv(a, b, flipped);
      if s.turn.TurnA? {
        AskAKeepsInv(a, b, flipped);
        var (s1, out) := PollA(a, b, flipped);
        if out.Wait? { AskBKeepsInv(a, b, s1); }
      } else {
        AskBKeepsInv(a, b, flipped);
        var (s1, out) := PollB(b, flipped);
        if out.Wait? { AskAKeepsInv(a, b, s1); }
      }
    }
  }

  /** What any single poll does to the flags and counters. */
  lemma PollProgress<T>(a: Behaviour<T>, b: Behaviour<T>, s: Select)
    ensures var (r, out) := PollNext(a, b, s);
            && s.aPolls <= r.aPolls && s.bPolls <= r.bPolls
            && (s.aDone ==> r.aDone && r.aPolls == s.aPolls)
            && (s.bDone ==> r.bDone && r.bPolls == s.bPolls)
            && (!s.aDone ==> r.turn == Flip(s.turn))
            && (!s.aDone && s.turn.TurnA? ==> r.aPolls == s.aPolls + 1)
            && (!s.aDone && s.turn.TurnB? ==> r.bPolls > s.bPolls || r.bDone)
            && (out.Finished? ==> r.aDone && r.bDone)
            && (out.Wait? ==> !s.aDone && a(s.aPolls) == Pending && r.aPolls == s.aPolls + 1)
            && (out.Wait? ==> s.bDone || !(b(s.bPolls).Ready? && b(s.bPolls).item.Some?))
            && (s.aDone && s.bDone ==> out.Finished?)
  {
  }

  lemma {:induction false} AlwaysInv<T(!new)>(a: Behaviour<T>, b: Behaviour<T>, k: nat)
    ensures Inv(a, b, StateAfter(a, b, k))
  {
    if k > 0 {
      AlwaysInv(a, b, k - 1);
      PollKeepsInv(a, b, StateAfter(a, b, k - 1));
    }
  }

  lemma PollInterleaves<T(!new)>(a: Behaviour<T>, b: Behaviour<T>, s: Select, sofar: seq<T>)
    requires Interleaves(sofar, Given(a, s.aPolls), Given(b, s.bPolls))
    ensures var (r, out) := PollNext(a, b, s);
            Interleaves(sofar + (if out.Item? then [out.value] else []), Given(a, r.aPolls), Given(b, r.bPolls))
  {
    PollTakes(a, b, s);
    var (r, out) := PollNext(a, b, s);
    var xs, ys := Given(a, s.aPolls), Given(b, s.bPolls);
    assert sofar + [] == sofar && xs + [] == xs && ys + [] == ys;
    if out.Item? { InterleavesTakes(sofar, xs, ys, out.value); }
  }

  /** The output is always an order-preserving merge of everything taken from A and from B. */
  lemma {:induction false} DeliveredInterleaves<T(!new)>(a: Behaviour<T>, b: Behaviour<T>, k: nat)
    ensures var s := StateAfter(a, b, k);
            Interleaves(Delivered(a, b, k), Given(a, s.aPolls), Given(b, s.bPolls))
  {
    if k > 0 {
      DeliveredInterleaves(a, b, k - 1);
      PollInterleaves(a, b, StateAfter(a, b, k - 1), Delivered(a, b, k - 1));
    }
  }

  /** Neither stream is polled again after it has ended. */
  lemma NeverPolledAfterEnd<T(!new)>(a: Behaviour<T>, b: Behaviour<T>, k: nat, n: nat)
    ensures a(n) == Ready(None) ==> StateAfter(a, b, k).aPolls <= n + 1
    ensures b(n) == Ready(None) ==> StateAfter(a, b, k).bPolls <= n + 1
  {
    AlwaysInv(a, b, k);
    var s := StateAfter(a, b, k);
    if n + 1 < s.aPolls { assert a(n) != Ready(None); }
    if n + 1 < s.bPolls { assert b(n) != Ready(None); }
  }

  /**
   The output ends only when A has, so that by then all of A has been delivered, and B is at a point
   where it had nothing ready.
   */
  lemma EndsOnlyWithA<T(!new)>(a: Behaviour<T>, b: Behaviour<T>, k: nat)
    requires OutputAt(a, b, k) == Finished
    ensures var s := StateAfter(a, b, k + 1);
            && s.aPolls > 0 && a(s.aPolls - 1) == Ready(None)
            && s.bPolls > 0 && !(b(s.bPolls - 1).Ready? && b(s.bPolls - 1).item.Some?)
  {
    FinishedIsDone(a, b, k);
    AlwaysInv(a, b, k + 1);
    WhenDone(a, b, StateAfter(a, b, k + 1));
  }

  lemma FinishedIsDone<T>(a: Behaviour<T>, b: Behaviour<T>, k: nat)
    requires OutputAt(a, b, k) == Finished
    ensures StateAfter(a, b, k + 1).aDone && StateAfter(a, b, k + 1).bDone
  {
    PollProgress(a, b, StateAfter(a, b, k));
  }

  lemma WhenDone<T(!new)>(a: Behaviour<T>, b: Behaviour<T>, s: Select)
    requires Inv(a, b, s) && s.aDone && s.bDone
    ensures s.aPolls > 0 && a(s.aPolls - 1) == Ready(None)
    ensures s.bPolls > 0 && !(b(s.bPolls - 1).Ready? && b(s.bPolls - 1).item.Some?)
  {
  }

  lemma {:induction false} DoneIsPermanent<T(!new)>(a: Behaviour<T>, b: Behaviour<T>, k: nat, m: nat)
    requires k < m && OutputAt(a, b, k) == Finished
    ensures StateAfter(a, b, m).aDone && StateAfter(a, b, m).bDone
    decreases m
  {
    PollProgress(a, b, StateAfter(a, b, m - 1));
    if k + 1 < m { DoneIsPermanent(a, b, k, m - 1); }
  }

  /** The first end is permanent. */
  lemma EndIsPermanent<T(!new)>(a: Behaviour<T>, b: Behaviour<T>, k: nat, m: nat)
    requires k <= m && OutputAt(a, b, k) == Finished
    ensures OutputAt(a, b, m) == Finished
  {
    if k < m {
      DoneIsPermanent(a, b, k, m);
      PollProgress(a, b, StateAfter(a, b, m));
    }
  }

  /** Before A ends, of any two consecutive polls at least one reaches A, and at least one reaches B unless it ended. */
  lemma Fair<T(!new)>(a: Behaviour<T>, b: Behaviour<T>, k: nat)
    requires !StateAfter(a, b, k + 1).aDone
    ensures StateAfter(a, b, k).aPolls < StateAfter(a, b, k + 2).aPolls
    ensures StateAfter(a, b, k).bPolls < StateAfter(a, b, k + 2).bPolls || StateAfter(a, b, k + 2).bDone
  {
    PollProgress(a, b, StateAfter(a, b, k));
    PollProgress(a, b, StateAfter(a, b, k + 1));
  }

  /** A pending answer means that in this very poll A was pending, and B was pending or has ended. */
  lemma PendingRegistersBoth<T(!new)>(a: Behaviour<T>, b: Behaviour<T>, k: nat)
    requires OutputAt(a, b, k) == Wait
    ensures var s := StateAfter(a, b, k);
            && !s.aDone && a(s.aPolls) == Pending && StateAfter(a, b, k + 1).aPolls == s.aPolls + 1
            && (s.bDone ||
                (StateAfter(a, b, k + 1).bPolls == s.bPolls + 1 && !(b(s.bPolls).Ready? && b(s.bPolls).item.Some?)))
  {
    PollProgress(a, b, StateAfter(a, b, k));
  }

  lemma {:induction false} ReachesA<T(!new)>(a: Behaviour<T>, b: Behaviour<T>, k: nat)
    ensures StateAfter(a, b, 2 * k).aDone || StateAfter(a, b, 2 * k).aPolls >= k
    decreases k
  {
    if k > 0 {
      ReachesA(a, b, k - 1);
      var m := 2 * (k - 1);
      assert m + 2 == 2 * k;
      PollProgress(a, b, StateAfter(a, b, m));
      PollProgress(a, b, StateAfter(a, b, m + 1));
      if !StateAfter(a, b, m + 1).aDone { Fair(a, b, m); }
    }
  }

  /** If A ends at its poll `n`, its end has been noticed after at most `2 * (n + 2)` polls of the output. */
  lemma EndOfAIsReached<T(!new)>(a: Behaviour<T>, b: Behaviour<T>, n: nat)
    requires a(n) == Ready(None)
    ensures StateAfter(a, b, 2 * (n + 2)).aDone
  {
    ReachesA(a, b, n + 2);
    NeverPolledAfterEnd(a, b, 2 * (n + 2), n);
  }

  lemma DrainStep<T(!new)>(a: Behaviour<T>, b: Behaviour<T>, k: nat, m: nat)
    requires StateAfter(a, b, k).aDone && StateAfter(a, b, k).bPolls <= m && OutputAt(a, b, k) != Finished
    requires !(b(m).Ready? && b(m).item.Some?)
    ensures StateAfter(a, b, k + 1).aDone
    ensures StateAfter(a, b, k + 1).bPolls == StateAfter(a, b, k).bPolls + 1 <= m
  {
  }

  /**
   Once A has ended, draining takes one item of B per poll and stops at B's first break: if B is not
   ready with an item at its poll `m`, the output has ended when B would be asked for that poll.
   */
  lemma {:induction false} DrainEnds<T(!new)>(a: Behaviour<T>, b: Behaviour<T>, k: nat, m: nat)
    requires StateAfter(a, b, k).aDone && StateAfter(a, b, k).bPolls <= m
    requires !(b(m).Ready? && b(m).item.Some?)
    ensures OutputAt(a, b, k + (m - StateAfter(a, b, k).bPolls)) == Finished
    decreases m - StateAfter(a, b, k).bPolls
  {
    if OutputAt(a, b, k) == Finished {
      EndIsPermanent(a, b, k, k + (m - StateAfter(a, b, k).bPolls));
    } else {
      DrainStep(a, b, k, m);
      DrainEnds(a, b, k + 1, m);
    }
  }
}
