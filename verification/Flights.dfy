/**
 Flights: the grouping of consecutive chat messages that are drawn together.

 `Calculate` is the per-message rule. The independent description is the `Linked` relation between
 neighbours: a position says which of the two links around a message exist, and the positions of a
 whole window determine, and are determined by, the partition of the window into flights.
 */
module Flights {
  import opened Prelude

  type MessageId = nat

  datatype Position = Single | Start | Middle | End

  datatype Body = Content(sender: nat, text: string) | Display(text: string)

  datatype Message = Message(id: MessageId, timestamp: int, body: Body, detail: nat,
                             attachments: seq<nat>, position: Position)

  /** One minute; timestamps count nanoseconds. */
  const TIME_THRESHOLD: int := 60_000_000_000

  predicate FlightBreak(a: Message, b: Message) {
    match (a.body, b.body)
    case (Content(s, _), Content(t, _)) =>
      s != t || TIME_THRESHOLD <= (if b.timestamp < a.timestamp then a.timestamp - b.timestamp
                                   else b.timestamp - a.timestamp)
    case _ => true
  }

  function Calculate(m: Message, prev: Option<Message>, next: Option<Message>): (p: Position) {
    match (prev, next)
    case (None, None) => Single
    case (Some(a), None) => if FlightBreak(a, m) then Single else End
    case (None, Some(b)) => if FlightBreak(m, b) then Single else Start
    case (Some(a), Some(b)) =>
      match (FlightBreak(a, m), FlightBreak(m, b))
      case (true, true) => Single
      case (true, false) => Start
      case (false, true) => End
      case (false, false) => Middle
  }

  /** Messages `i - 1` and `i` are neighbours in one flight. */
  predicate Linked(ms: seq<Message>, i: int, divider: Option<nat>) {
    0 < i < |ms| && divider != Some(i) && !FlightBreak(ms[i - 1], ms[i])
  }

  function FromLinks(before: bool, after: bool): (p: Position) {
    if before then (if after then Middle else End) else (if after then Start else Single)
  }

  /** The position of a message: which of the two links around it exist. */
  function PositionAt(ms: seq<Message>, i: nat, divider: Option<nat>): (p: Position)
    requires i < |ms|
  {
    FromLinks(Linked(ms, i, divider), Linked(ms, i + 1, divider))
  }

  /** Hiding the neighbour across the unread divider, `Calculate` yields exactly the link description. */
  lemma CalculateReadsLinks(ms: seq<Message>, i: nat, divider: Option<nat>)
    requires i < |ms|
    ensures var prev := if i > 0 && divider != Some(i) then Some(ms[i - 1]) else None;
            var next := if divider == Some(i + 1) then None
                        else if i + 1 < |ms| then Some(ms[i + 1]) else None;
            Calculate(ms[i], prev, next) == PositionAt(ms, i, divider)
  {
  }

  /** Every position computed from scratch. */
  function Positioned(ms: seq<Message>, divider: Option<nat>): (r: seq<Message>)
    ensures |r| == |ms|
    ensures forall i {:trigger r[i]} | 0 <= i < |r| :: r[i] == ms[i].(position := PositionAt(ms, i, divider))
  {
    seq(|ms|, i requires 0 <= i < |ms| => ms[i].(position := PositionAt(ms, i, divider)))
  }

  /** Blanking the positions: what a message is apart from where it stands in its flight. */
  function Bare(ms: seq<Message>): (r: seq<Message>)
    ensures |r| == |ms|
    ensures forall i {:trigger r[i]} | 0 <= i < |r| :: r[i] == ms[i].(position := Single)
  {
    seq(|ms|, i requires 0 <= i < |ms| => ms[i].(position := Single))
  }

  lemma LinkedIgnoresPositions(a: seq<Message>, b: seq<Message>, i: int, divider: Option<nat>)
    requires Bare(a) == Bare(b)
    ensures Linked(a, i, divider) == Linked(b, i, divider)
  {
    assert |Bare(a)| == |Bare(b)|;
    if 0 < i < |a| {
      assert Bare(a)[i - 1] == Bare(b)[i - 1] && Bare(a)[i] == Bare(b)[i];
    }
  }

  /** Recomputing is a function of the messages alone: stored positions never feed back into it. */
  lemma PositionedIgnoresPositions(a: seq<Message>, b: seq<Message>, divider: Option<nat>)
    requires Bare(a) == Bare(b)
    ensures Positioned(a, divider) == Positioned(b, divider)
  {
    assert |Bare(a)| == |Bare(b)|;
    forall i | 0 <= i < |a|
      ensures Positioned(a, divider)[i] == Positioned(b, divider)[i]
    {
      assert Bare(a)[i] == Bare(b)[i];
      LinkedIgnoresPositions(a, b, i, divider);
      LinkedIgnoresPositions(a, b, i + 1, divider);
    }
  }

  lemma BareOfPositioned(ms: seq<Message>, divider: Option<nat>)
    ensures Bare(Positioned(ms, divider)) == Bare(ms)
  {
    assert forall i | 0 <= i < |ms| :: Bare(Positioned(ms, divider))[i] == Bare(ms)[i];
  }

  /** A window whose stored positions are the ones a full recomputation would store. */
  predicate FullyPositioned(ms: seq<Message>, divider: Option<nat>) {
    forall i {:trigger PositionAt(ms, i, divider)} | 0 <= i < |ms| :: ms[i].position == PositionAt(ms, i, divider)
  }

  predicate OpensFlight(p: Position) { p.Single? || p.Start? }

  predicate ContinuesAfter(p: Position) { p.Start? || p.Middle? }

  /** The number of flights that have opened up to and including index `i`. */
  function FlightNumber(ms: seq<Message>, i: nat): (n: nat)
    requires i < |ms|
  {
    (if i == 0 then 0 else FlightNumber(ms, i - 1)) + (if i == 0 || OpensFlight(ms[i].position) then 1 else 0)
  }

  lemma {:induction false} FlightNumberGrows(ms: seq<Message>, i: nat, j: nat)
    requires i <= j < |ms|
    ensures FlightNumber(ms, i) <= FlightNumber(ms, j)
    decreases j
  {
    if i < j { FlightNumberGrows(ms, i, j - 1); }
  }

  /** Neighbouring positions agree: one flight continues exactly when the next message does not open one. */
  lemma NeighboursAgree(ms: seq<Message>, i: nat, divider: Option<nat>)
    requires FullyPositioned(ms, divider) && i + 1 < |ms|
    ensures ContinuesAfter(ms[i].position) <==> !OpensFlight(ms[i + 1].position)
    ensures OpensFlight(ms[0].position) && !ContinuesAfter(ms[|ms| - 1].position)
  {
    assert ms[i].position == PositionAt(ms, i, divider);
    assert ms[i + 1].position == PositionAt(ms, i + 1, divider);
    assert ms[0].position == PositionAt(ms, 0, divider);
    assert ms[|ms| - 1].position == PositionAt(ms, |ms| - 1, divider);
  }

  /** An unbroken chain of links joins `i` to `j`. */
  ghost predicate Chained(ms: seq<Message>, i: nat, j: nat, divider: Option<nat>) {
    forall k | i < k <= j :: Linked(ms, k, divider)
  }

  lemma ChainExtends(ms: seq<Message>, i: nat, j: nat, divider: Option<nat>)
    requires i < j
    ensures Chained(ms, i, j, divider) <==> Chained(ms, i, j - 1, divider) && Linked(ms, j, divider)
  {
  }

  lemma OpensWhereUnlinked(ms: seq<Message>, j: nat, divider: Option<nat>)
    requires FullyPositioned(ms, divider) && 0 < j < |ms|
    ensures FlightNumber(ms, j) == FlightNumber(ms, j - 1) + (if Linked(ms, j, divider) then 0 else 1)
  {
    assert ms[j].position == PositionAt(ms, j, divider);
  }

  /**
   The stored positions partition the window into flights: two messages carry the same flight number
   exactly when an unbroken chain of links joins them.
   */
  lemma {:induction false} PositionsPartition(ms: seq<Message>, i: nat, j: nat, divider: Option<nat>)
    requires FullyPositioned(ms, divider) && i <= j < |ms|
    ensures FlightNumber(ms, i) == FlightNumber(ms, j) <==> Chained(ms, i, j, divider)
    decreases j
  {
    if i < j {
      PositionsPartition(ms, i, j - 1, divider);
      FlightNumberGrows(ms, i, j - 1);
      ChainExtends(ms, i, j, divider);
      OpensWhereUnlinked(ms, j, divider);
    }
  }

  /** Two neighbours one sender wrote within a minute, with no divider between them. */
  predicate GoTogether(ms: seq<Message>, k: nat, divider: Option<nat>)
    requires 0 < k < |ms|
  {
    var a, b := ms[k - 1], ms[k];
    && a.body.Content? && b.body.Content? && a.body.sender == b.body.sender
    && -60_000_000_000 < b.timestamp - a.timestamp < 60_000_000_000
    && (divider.Some? ==> divider.value != k)
  }

  /** What a flight is: everything between two of its messages was written by one sender, no pause reaching a minute. */
  lemma FlightsAreRuns(ms: seq<Message>, i: nat, j: nat, divider: Option<nat>)
    requires FullyPositioned(ms, divider) && i <= j < |ms|
    ensures FlightNumber(ms, i) == FlightNumber(ms, j) <==> forall k | i < k <= j :: GoTogether(ms, k, divider)
  {
    PositionsPartition(ms, i, j, divider);
    assert forall k | i < k <= j :: Linked(ms, k, divider) <==> GoTogether(ms, k, divider);
  }

  lemma {:induction false} FlightHasOneSender(ms: seq<Message>, i: nat, j: nat, divider: Option<nat>)
    requires FullyPositioned(ms, divider) && i < j < |ms| && FlightNumber(ms, i) == FlightNumber(ms, j)
    ensures ms[i].body.Content? && ms[j].body.Content? && ms[i].body.sender == ms[j].body.sender
    decreases j
  {
    FlightsAreRuns(ms, i, j, divider);
    assert GoTogether(ms, j, divider);
    if i < j - 1 {
      FlightsAreRuns(ms, i, j - 1, divider);
      FlightHasOneSender(ms, i, j - 1, divider);
    }
  }
}
