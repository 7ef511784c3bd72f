/**
 The mark-as-read debounce: any number of concurrent calls share one `watch` cell whose version grows
 with every notified write. `WatchCell` holds the four atomic updates of the cell; the state machine
 interleaves calls at the granularity of those updates, so that between any two of them any other
 call, or a reload of the chat, may run.
 */
module MarkAsRead {
  import opened Prelude

  type MessageId = nat
  type Time = int

  datatype Cell = NotLoaded | Marked(at: Time) | Scheduled(until: Time, id: MessageId)

  /** The outcome of a call's first update. */
  datatype Decision = Skip | Schedule | SameTime(scheduledId: MessageId)

  function Decide(cell: Cell, id: MessageId, until: Time): (d: Decision) {
    match cell
    case NotLoaded => Schedule
    case Marked(at) => if at < until then Schedule else Skip
    case Scheduled(at, other) =>
      if at < until then Schedule
      else if other != id && at == until then SameTime(other)
      else Skip
  }

  /** Whether the debounced call still finds its own message scheduled. */
  predicate StillMine(cell: Cell, id: MessageId) { cell.Scheduled? && cell.id == id }

  function Reloaded(cell: Cell, lastRead: Time): (r: Cell) {
    if cell.Scheduled? then cell else Marked(lastRead)
  }

  /** The shared cell and its change counter. */
  class WatchCell {
    var cell: Cell
    var version: nat

    constructor ()
      ensures cell == NotLoaded && version == 0
    {
      cell, version := NotLoaded, 0;
    }

    method TrySchedule(id: MessageId, until: Time) returns (d: Decision)
      modifies this
      ensures d == Decide(old(cell), id, until)
      ensures cell == if d.Schedule? then Scheduled(until, id) else old(cell)
      ensures version == old(version) + if d.Schedule? then 1 else 0
    {
      d := Skip;
      match cell {
        case NotLoaded => d := Schedule;
        case Marked(at) => if at < until { d := Schedule; }
        case Scheduled(at, other) =>
          if at < until { d := Schedule; }
          else if other != id && at == until { d := SameTime(other); }
      }
      if d.Schedule? { cell, version := Scheduled(until, id), version + 1; }
    }

    method Overwrite(id: MessageId, until: Time)
      modifies this
      ensures cell == Scheduled(until, id) && version == old(version) + 1
    {
      cell, version := Scheduled(until, id), version + 1;
    }

    method Confirm(id: MessageId) returns (marked: bool)
      modifies this
      ensures marked <==> StillMine(old(cell), id)
      ensures cell == if marked then Marked(old(cell).until) else old(cell)
      ensures version == old(version) + if marked then 1 else 0
    {
      marked := false;
      if cell.Scheduled? && cell.id == id {
        cell, version, marked := Marked(cell.until), version + 1, true;
      }
    }

    method Reload(lastRead: Time)
      modifies this
      ensures cell == Reloaded(old(cell), lastRead)
      ensures version == old(version) + if cell == old(cell) then 0 else 1
    {
      match cell {
        case Scheduled(_, _) =>
        case Marked(at) => if at != lastRead { cell, version := Marked(lastRead), version + 1; }
        case NotLoaded => cell, version := Marked(lastRead), version + 1;
      }
    }
  }

  // ---- Interleavings ----

  /**
   Where a call stands. `Ordering` remembers whether, since the equal timestamp was noticed, a write
   with a later timestamp has gone in (`overtaken`; history only, no step reads it).
   */
  datatype Pc =
    | Start
    | Ordering(scheduledId: MessageId, overtaken: bool)
    | Subscribing
    | Waiting(seen: nat)
    | Marking
    | Returned

  datatype Call = Call(id: MessageId, until: Time, pc: Pc)

  /**
   The cell, every call so far, the last call that scheduled, the ids whose scheduled state turned into
   a marked one, and the ids passed to the service.
   */
  datatype System = System(cell: Cell, version: nat, calls: seq<Call>, lastWriter: Option<nat>,
                           confirmed: seq<MessageId>, serviced: seq<MessageId>)

  datatype Order = Earlier | SameOrLater | Failed

  datatype Event =
    | Enter(id: MessageId, until: Time)
    | First(c: nat)
    | Ordered(c: nat, order: Order)
    | Subscribe(c: nat)
    | SeeChange(c: nat)
    | Timer(c: nat)
    | Service(c: nat)
    | Refresh(lastRead: Time)

  function Init(): (s: System) { System(NotLoaded, 0, [], None, [], []) }

  predicate Enabled(s: System, e: Event) {
    match e
    case Enter(_, _) => true
    case First(c) => c < |s.calls| && s.calls[c].pc.Start?
    case Ordered(c, _) => c < |s.calls| && s.calls[c].pc.Ordering?
    case Subscribe(c) => c < |s.calls| && s.calls[c].pc.Subscribing?
    case SeeChange(c) => c < |s.calls| && s.calls[c].pc.Waiting? && s.calls[c].pc.seen != s.version
    case Timer(c) => c < |s.calls| && s.calls[c].pc.Waiting?
    case Service(c) => c < |s.calls| && s.calls[c].pc.Marking?
    case Refresh(_) => true
  }

  function Move(calls: seq<Call>, c: nat, pc: Pc): (r: seq<Call>)
    requires c < |calls|
    ensures |r| == |calls|
  {
    calls[c := calls[c].(pc := pc)]
  }

  function Overtake(call: Call, until: Time): (r: Call) {
    if call.pc.Ordering? && call.until < until then call.(pc := call.pc.(overtaken := true)) else call
  }

  function OvertakeAll(calls: seq<Call>, until: Time): (r: seq<Call>)
    ensures |r| == |calls|
    ensures forall i {:trigger r[i]} | 0 <= i < |r| :: r[i] == Overtake(calls[i], until)
  {
    seq(|calls|, i requires 0 <= i < |calls| => Overtake(calls[i], until))
  }

  /** Call `c` writes its own schedule. */
  function Write(s: System, c: nat): (r: System)
    requires c < |s.calls|
  {
    s.(cell := Scheduled(s.calls[c].until, s.calls[c].id), version := s.version + 1, lastWriter := Some(c),
       calls := OvertakeAll(Move(s.calls, c, Subscribing), s.calls[c].until))
  }

  function Next(s: System, e: Event): (r: System)
    requires Enabled(s, e)
  {
    match e
    case Enter(id, until) => s.(calls := s.calls + [Call(id, until, Start)])
    case First(c) =>
      (match Decide(s.cell, s.calls[c].id, s.calls[c].until)
       case Skip => s.(calls := Move(s.calls, c, Returned))
       case Schedule => Write(s, c)
       case SameTime(other) => s.(calls := Move(s.calls, c, Ordering(other, false))))
    case Ordered(c, order) =>
      if order.Earlier? then Write(s, c) else s.(calls := Move(s.calls, c, Returned))
    case Subscribe(c) => s.(calls := Move(s.calls, c, Waiting(s.version)))
    case SeeChange(c) => s.(calls := Move(s.calls, c, Returned))
    case Timer(c) =>
      if StillMine(s.cell, s.calls[c].id)
      then s.(cell := Marked(s.cell.until), version := s.version + 1, calls := Move(s.calls, c, Marking),
              confirmed := s.confirmed + [s.cell.id])
      else s.(calls := Move(s.calls, c, Returned))
    case Service(c) => s.(calls := Move(s.calls, c, Returned), serviced := s.serviced + [s.calls[c].id])
    case Refresh(lastRead) =>
      var cell := Reloaded(s.cell, lastRead);
      s.(cell := cell, version := s.version + if cell == s.cell then 0 else 1)
  }

  predicate Run(s: System, events: seq<Event>)
    decreases |events|
  {
    events == [] || (Enabled(s, events[0]) && Run(Next(s, events[0]), events[1..]))
  }

  function After(s: System, events: seq<Event>): (r: System)
    requires Run(s, events)
    decreases |events|
  {
    if events == [] then s else After(Next(s, events[0]), events[1..])
  }

  // ---- No lost mark ----

  /** The last writer of a scheduled state is still on its way to confirming it, with nothing unseen. */
  predicate WriterWaits(s: System) {
    s.cell.Scheduled? ==>
      && s.lastWriter.Some? && s.lastWriter.value < |s.calls|
      && var w := s.calls[s.lastWriter.value];
         w.id == s.cell.id && w.until == s.cell.until && (w.pc.Subscribing? || w.pc == Waiting(s.version))
  }

  predicate SeenArePast(s: System) {
    forall c {:trigger s.calls[c]} | 0 <= c < |s.calls| :: s.calls[c].pc.Waiting? ==> s.calls[c].pc.seen <= s.version
  }

  /** Whether a call is between confirming `id` and telling the service. */
  function Owes(call: Call, id: MessageId): (n: nat) { if call.pc.Marking? && call.id == id then 1 else 0 }

  function InFlight(calls: seq<Call>, id: MessageId): (n: nat) {
    if calls == [] then 0 else InFlight(calls[..|calls| - 1], id) + Owes(calls[|calls| - 1], id)
  }

  /** Every confirmed id is with the service or in flight to it, and none is there twice. */
  ghost predicate MarksConserved(s: System) {
    forall id: MessageId :: multiset(s.confirmed)[id] == multiset(s.serviced)[id] + InFlight(s.calls, id)
  }

  ghost predicate Inv(s: System) { WriterWaits(s) && SeenArePast(s) && MarksConserved(s) }

  lemma {:induction false} InFlightMove(calls: seq<Call>, c: nat, call: Call, id: MessageId)
    requires c < |calls|
    ensures InFlight(calls[c := call], id) == InFlight(calls, id) - Owes(calls[c], id) + Owes(call, id)
    decreases |calls|
  {
    var n := |calls| - 1;
    if c < n {
      assert calls[c := call][..n] == calls[..n][c := call];
      InFlightMove(calls[..n], c, call, id);
    } else {
      assert calls[c := call][..n] == calls[..n];
    }
  }

  lemma {:induction false} InFlightOvertake(calls: seq<Call>, until: Time, id: MessageId)
    ensures InFlight(OvertakeAll(calls, until), id) == InFlight(calls, id)
    decreases |calls|
  {
    if calls != [] {
      var n := |calls| - 1;
      assert OvertakeAll(calls, until)[..n] == OvertakeAll(calls[..n], until);
      InFlightOvertake(calls[..n], until, id);
    }
  }

  lemma InFlightWrite(s: System, c: nat, id: MessageId)
    requires c < |s.calls| && !s.calls[c].pc.Marking?
    ensures InFlight(Write(s, c).calls, id) == InFlight(s.calls, id)
  {
    InFlightMove(s.calls, c, s.calls[c].(pc := Subscribing), id);
    InFlightOvertake(Move(s.calls, c, Subscribing), s.calls[c].until, id);
  }

  /** The first look confirms and serves nothing, and puts nothing in flight. */
  lemma FirstBalances(s: System, c: nat, id: MessageId)
    requires Enabled(s, First(c))
    ensures var r := Next(s, First(c));
            r.confirmed == s.confirmed && r.serviced == s.serviced && InFlight(r.calls, id) == InFlight(s.calls, id)
  {
    match Decide(s.cell, s.calls[c].id, s.calls[c].until)
    case Skip => InFlightMove(s.calls, c, s.calls[c].(pc := Returned), id);
    case Schedule => InFlightWrite(s, c, id);
    case SameTime(other) => InFlightMove(s.calls, c, s.calls[c].(pc := Ordering(other, false)), id);
  }

  /** A confirmed mark is a mark in flight. */
  lemma TimerBalances(s: System, c: nat, id: MessageId)
    requires Enabled(s, Timer(c))
    ensures var r := Next(s, Timer(c));
            && r.serviced == s.serviced
            && multiset(r.confirmed)[id] - multiset(s.confirmed)[id] == InFlight(r.calls, id) - InFlight(s.calls, id)
  {
    InFlightMove(s.calls, c, s.calls[c].(pc := Marking), id);
    InFlightMove(s.calls, c, s.calls[c].(pc := Returned), id);
  }

  /** What one step adds to the confirmed ids, to the serviced ids and to the ids in flight. */
  lemma StepBalances(s: System, e: Event, id: MessageId)
    requires Enabled(s, e)
    ensures var r := Next(s, e);
            multiset(r.confirmed)[id] - multiset(s.confirmed)[id]
            == (multiset(r.serviced)[id] - multiset(s.serviced)[id]) + (InFlight(r.calls, id) - InFlight(s.calls, id))
  {
    match e
    case Enter(other, until) =>
      assert (s.calls + [Call(other, until, Start)])[..|s.calls|] == s.calls;
    case First(c) => FirstBalances(s, c, id);
    case Ordered(c, order) =>
      if order.Earlier? { InFlightWrite(s, c, id); }
      else { InFlightMove(s.calls, c, s.calls[c].(pc := Returned), id); }
    case Subscribe(c) => InFlightMove(s.calls, c, s.calls[c].(pc := Waiting(s.version)), id);
    case SeeChange(c) => InFlightMove(s.calls, c, s.calls[c].(pc := Returned), id);
    case Timer(c) => TimerBalances(s, c, id);
    case Service(c) => InFlightMove(s.calls, c, s.calls[c].(pc := Returned), id);
    case Refresh(_) =>
  }

  lemma StepKeepsMarks(s: System, e: Event)
    requires MarksConserved(s) && Enabled(s, e)
    ensures MarksConserved(Next(s, e))
  {
    var r := Next(s, e);
    forall id: MessageId ensures multiset(r.confirmed)[id] == multiset(r.serviced)[id] + InFlight(r.calls, id) {
      StepBalances(s, e, id);
    }
  }

  lemma StepKeepsWriter(s: System, e: Event)
    requires WriterWaits(s) && SeenArePast(s) && Enabled(s, e)
    ensures WriterWaits(Next(s, e)) && SeenArePast(Next(s, e))
  {
  }

  lemma StepKeepsInv(s: System, e: Event)
    requires Inv(s) && Enabled(s, e)
    ensures Inv(Next(s, e))
  {
    StepKeepsMarks(s, e);
    StepKeepsWriter(s, e);
  }

  lemma {:induction false} RunKeepsInv(s: System, events: seq<Event>)
    requires Inv(s) && Run(s, events)
    ensures Inv(After(s, events))
    decreases |events|
  {
    if events != [] {
      StepKeepsInv(s, events[0]);
      RunKeepsInv(Next(s, events[0]), events[1..]);
    }
  }

  predicate AllReturned(s: System) { forall c {:trigger s.calls[c]} | 0 <= c < |s.calls| :: s.calls[c].pc.Returned? }

  lemma {:induction false} NothingInFlight(calls: seq<Call>, id: MessageId)
    requires forall c | 0 <= c < |calls| :: calls[c].pc.Returned?
    ensures InFlight(calls, id) == 0
    decreases |calls|
  {
    if calls != [] { NothingInFlight(calls[..|calls| - 1], id); }
  }

  /**
   No mark is lost: whatever the interleaving of calls and reloads, a scheduled state has its last
   writer still waiting with no unseen change; and once every call has returned nothing is left
   scheduled and the service was told exactly the ids that were confirmed.
   */
  lemma NoLostMark(events: seq<Event>)
    requires Run(Init(), events)
    ensures WriterWaits(After(Init(), events))
    ensures AllReturned(After(Init(), events)) ==>
              && !After(Init(), events).cell.Scheduled?
              && multiset(After(Init(), events).confirmed) == multiset(After(Init(), events).serviced)
  {
    RunKeepsInv(Init(), events);
    var s := After(Init(), events);
    if AllReturned(s) {
      forall id: MessageId ensures multiset(s.confirmed)[id] == multiset(s.serviced)[id] {
        NothingInFlight(s.calls, id);
      }
    }
  }

  /** The last writer of a scheduled state cannot be woken by a change, and its timer confirms its own message. */
  lemma WriterConfirms(s: System, w: nat)
    requires Inv(s) && s.cell.Scheduled? && s.lastWriter == Some(w)
    ensures !Enabled(s, SeeChange(w))
    ensures Enabled(s, Timer(w)) || Enabled(s, Subscribe(w))
    ensures Enabled(s, Timer(w)) ==> Next(s, Timer(w)).cell == Marked(s.cell.until)
    ensures Enabled(s, Timer(w)) ==> Next(s, Timer(w)).confirmed == s.confirmed + [s.cell.id]
    ensures Enabled(s, Subscribe(w)) ==> Enabled(Next(s, Subscribe(w)), Timer(w)) && !Enabled(Next(s, Subscribe(w)), SeeChange(w))
  {
  }

  // ---- Monotonicity of the read marker ----

  /** The marker of a cell: how far the chat is read or about to be. */
  predicate MarkerAtMost(a: Cell, b: Cell) {
    match (a, b)
    case (NotLoaded, _) => true
    case (_, NotLoaded) => false
    case (_, _) => MarkerTime(a) <= MarkerTime(b)
  }

  function MarkerTime(cell: Cell): (t: Time)
    requires !cell.NotLoaded?
  {
    if cell.Marked? then cell.at else cell.until
  }

  predicate NoReloads(events: seq<Event>) { forall i {:trigger events[i]} | 0 <= i < |events| :: !events[i].Refresh? }

  /** The marker never moves back anywhere in the run. */
  predicate Monotone(s: System, events: seq<Event>)
    requires Run(s, events)
    decreases |events|
  {
    events == [] || (MarkerAtMost(s.cell, Next(s, events[0]).cell) && Monotone(Next(s, events[0]), events[1..]))
  }

  predicate OverwritesOvertaken(s: System, e: Event)
    requires Enabled(s, e)
  {
    e.Ordered? && e.order.Earlier? && s.calls[e.c].pc.overtaken
  }

  /** No call overwrites after a later write has gone in since it noticed the equal timestamp. */
  predicate NoneOvertaken(s: System, events: seq<Event>)
    requires Run(s, events)
    decreases |events|
  {
    events == [] || (!OverwritesOvertaken(s, events[0]) && NoneOvertaken(Next(s, events[0]), events[1..]))
  }

  /** As long as the marker has not moved back, it is past a call that is still ordering iff that call was overtaken. */
  predicate OvertakenIffPassed(s: System) {
    forall c {:trigger s.calls[c]} | 0 <= c < |s.calls| :: s.calls[c].pc.Ordering? ==>
      !s.cell.NotLoaded? && (s.calls[c].pc.overtaken <==> s.calls[c].until < MarkerTime(s.cell))
  }

  lemma StepMonotoneIff(s: System, e: Event)
    requires OvertakenIffPassed(s) && Enabled(s, e) && !e.Refresh?
    ensures MarkerAtMost(s.cell, Next(s, e).cell) <==> !OverwritesOvertaken(s, e)
  {
  }

  lemma StepKeepsOvertaken(s: System, e: Event)
    requires OvertakenIffPassed(s) && Enabled(s, e) && !e.Refresh? && MarkerAtMost(s.cell, Next(s, e).cell)
    ensures OvertakenIffPassed(Next(s, e))
  {
    var r := Next(s, e);
    forall c {:trigger r.calls[c]} | 0 <= c < |r.calls| && r.calls[c].pc.Ordering?
      ensures !r.cell.NotLoaded? && (r.calls[c].pc.overtaken <==> r.calls[c].until < MarkerTime(r.cell))
    {
      if c < |s.calls| { var before := s.calls[c]; }
    }
  }

  lemma {:induction false} RunMonotoneIff(s: System, events: seq<Event>)
    requires OvertakenIffPassed(s) && Run(s, events) && NoReloads(events)
    ensures Monotone(s, events) <==> NoneOvertaken(s, events)
    decreases |events|
  {
    if events != [] {
      StepMonotoneIff(s, events[0]);
      if MarkerAtMost(s.cell, Next(s, events[0]).cell) {
        StepKeepsOvertaken(s, events[0]);
        RunMonotoneIff(Next(s, events[0]), events[1..]);
      }
    }
  }

  /**
   Without reloads, the read marker of a run never moves back if and only if no call resolves an equal
   timestamp by overwriting after some other call has meanwhile written a later one.
   */
  lemma MarkerMonotoneIff(events: seq<Event>)
    requires Run(Init(), events) && NoReloads(events)
    ensures Monotone(Init(), events) <==> NoneOvertaken(Init(), events)
  {
    RunMonotoneIff(Init(), events);
  }

  // ---- What is read once everything has settled ----

  /** The marker is at or past every call that has looked at the cell, and at one of them. */
  predicate Reached(s: System) {
    && (forall c {:trigger s.calls[c]} | 0 <= c < |s.calls| && !s.calls[c].pc.Start? ::
          !s.cell.NotLoaded? && s.calls[c].until <= MarkerTime(s.cell))
    && (s.cell.NotLoaded? || exists c {:trigger s.calls[c]} :: 0 <= c < |s.calls| && s.calls[c].until == MarkerTime(s.cell))
  }

  lemma StepKeepsUntils(s: System, e: Event, c: nat)
    requires Enabled(s, e) && c < |s.calls|
    ensures c < |Next(s, e).calls| && Next(s, e).calls[c].until == s.calls[c].until
  {
  }

  lemma StepReaches(s: System, e: Event)
    requires Reached(s) && Enabled(s, e) && !e.Refresh? && MarkerAtMost(s.cell, Next(s, e).cell)
    ensures Reached(Next(s, e))
  {
    var r := Next(s, e);
    forall c {:trigger r.calls[c]} | 0 <= c < |r.calls| && !r.calls[c].pc.Start?
      ensures !r.cell.NotLoaded? && r.calls[c].until <= MarkerTime(r.cell)
    {
      if c < |s.calls| { var before := s.calls[c]; }
    }
    if !r.cell.NotLoaded? {
      var c: nat :| c < |s.calls| && s.calls[c].until == MarkerTime(r.cell) by { StepMarksACall(s, e); }
      StepKeepsUntils(s, e, c);
      assert r.calls[c].until == MarkerTime(r.cell);
    }
  }

  lemma StepMarksACall(s: System, e: Event)
    requires Reached(s) && Enabled(s, e) && !e.Refresh? && !Next(s, e).cell.NotLoaded?
    ensures exists c: nat {:trigger s.calls[c]} :: c < |s.calls| && s.calls[c].until == MarkerTime(Next(s, e).cell)
  {
    var r := Next(s, e);
    if !s.cell.NotLoaded? && MarkerTime(r.cell) == MarkerTime(s.cell) {
      var c :| 0 <= c < |s.calls| && s.calls[c].until == MarkerTime(s.cell);
      assert s.calls[c as nat].until == MarkerTime(r.cell);
    } else {
      assert (e.First? || e.Ordered?) && s.calls[e.c].until == MarkerTime(r.cell);
    }
  }

  lemma {:induction false} RunReaches(s: System, events: seq<Event>)
    requires Reached(s) && Run(s, events) && NoReloads(events) && Monotone(s, events)
    ensures Reached(After(s, events))
    decreases |events|
  {
    if events != [] {
      StepReaches(s, events[0]);
      RunReaches(Next(s, events[0]), events[1..]);
    }
  }

  /**
   When all calls have returned and none of them was overtaken, the chat is marked as read at exactly
   the latest time any call asked for.
   */
  lemma LatestIsReadAtRest(events: seq<Event>)
    requires Run(Init(), events) && NoReloads(events) && NoneOvertaken(Init(), events)
    requires AllReturned(After(Init(), events)) && After(Init(), events).calls != []
    ensures var s := After(Init(), events);
            && s.cell.Marked?
            && (forall c {:trigger s.calls[c]} | 0 <= c < |s.calls| :: s.calls[c].until <= s.cell.at)
            && exists c {:trigger s.calls[c]} :: 0 <= c < |s.calls| && s.calls[c].until == s.cell.at
  {
    MarkerMonotoneIff(events);
    RunReaches(Init(), events);
    NoLostMark(events);
    var s := After(Init(), events);
    assert !s.calls[0].pc.Start?;
  }

  // ---- What is read already ----

  /** A call's first look writes exactly if the chat is not loaded or its marker is earlier than the call's time. */
  lemma FirstWritesIff(s: System, c: nat)
    requires Enabled(s, First(c))
    ensures var r := Next(s, First(c));
            if s.cell.NotLoaded? || MarkerTime(s.cell) < s.calls[c].until
            then r.cell == Scheduled(s.calls[c].until, s.calls[c].id) && r.version == s.version + 1 && r.calls[c].pc.Subscribing?
            else && r.cell == s.cell && r.version == s.version
                 && (r.calls[c].pc.Ordering? <==>
                       s.cell.Scheduled? && s.cell.id != s.calls[c].id && s.cell.until == s.calls[c].until)
                 && (r.calls[c].pc.Ordering? || r.calls[c].pc.Returned?)
  {
  }

  /** The times that the timers of a run mark as read, in order. */
  function MarkedTimes(s: System, events: seq<Event>): (ts: seq<Time>)
    requires Run(s, events)
    decreases |events|
  {
    if events == [] then []
    else
      var e := events[0];
      (if e.Timer? && StillMine(s.cell, s.calls[e.c].id) then [s.cell.until] else []) + MarkedTimes(Next(s, e), events[1..])
  }

  /** A time that can still be marked: later than what is read, not earlier than what is scheduled. */
  predicate Ahead(cell: Cell, t: Time) {
    match cell
    case NotLoaded => true
    case Marked(at) => at < t
    case Scheduled(until, _) => until <= t
  }

  /** A tie is resolved by overwriting only while its time can still be marked. */
  predicate InTime(s: System, e: Event)
    requires Enabled(s, e)
  {
    e.Ordered? && e.order.Earlier? ==> Ahead(s.cell, s.calls[e.c].until)
  }

  predicate TiesInTime(s: System, events: seq<Event>)
    requires Run(s, events)
    decreases |events|
  {
    events == [] || (InTime(s, events[0]) && TiesInTime(Next(s, events[0]), events[1..]))
  }

  predicate Increasing(ts: seq<Time>) { forall i, j | 0 <= i < j < |ts| :: ts[i] < ts[j] }

  lemma IncreasingFrom(first: Time, rest: seq<Time>)
    requires Increasing(rest) && forall t | t in rest :: first < t
    ensures Increasing([first] + rest)
  {
    var ts := [first] + rest;
    forall i, j | 0 <= i < j < |ts| ensures ts[i] < ts[j] {
      assert ts[j] == rest[j - 1] && rest[j - 1] in rest;
      if i > 0 { assert ts[i] == rest[i - 1]; }
    }
  }

  lemma StepGoesAhead(s: System, e: Event, t: Time)
    requires Enabled(s, e) && !e.Refresh? && InTime(s, e) && Ahead(Next(s, e).cell, t)
    ensures Ahead(s.cell, t)
    ensures e.Timer? && StillMine(s.cell, s.calls[e.c].id) ==> s.cell.until < t
  {
  }

  /**
   Without reloads and late ties no time is marked as read twice: the marked times strictly increase,
   and all of them are later than what was read before.
   */
  lemma {:induction false} NoTimeMarkedTwice(s: System, events: seq<Event>)
    requires Run(s, events) && NoReloads(events) && TiesInTime(s, events)
    ensures Increasing(MarkedTimes(s, events)) && forall t | t in MarkedTimes(s, events) :: Ahead(s.cell, t)
    decreases |events|
  {
    if events != [] {
      var e, r := events[0], Next(s, events[0]);
      NoTimeMarkedTwice(r, events[1..]);
      var rest := MarkedTimes(r, events[1..]);
      var marks := e.Timer? && StillMine(s.cell, s.calls[e.c].id);
      forall t | t in rest ensures Ahead(s.cell, t) && (marks ==> s.cell.until < t) { StepGoesAhead(s, e, t); }
      if marks {
        IncreasingFrom(s.cell.until, rest);
        assert MarkedTimes(s, events) == [s.cell.until] + rest;
      } else {
        assert MarkedTimes(s, events) == rest;
      }
    }
  }

  /** A tie resolved too late does mark its time again, or an earlier one than was read: nothing holds it up. */
  lemma LateTieMarksAgain(s: System, c: nat)
    requires Enabled(s, Ordered(c, Earlier)) && s.cell.Marked?
    ensures var events := [Ordered(c, Earlier)] + ([Subscribe(c)] + ([Timer(c)] + []));
            && Run(s, events) && MarkedTimes(s, events) == [s.calls[c].until]
            && (InTime(s, events[0]) <==> s.cell.at < s.calls[c].until)
  {
    var s1 := Next(s, Ordered(c, Earlier));
    var s2 := Next(s1, Subscribe(c));
    MarksUnfold(s2, Timer(c), []);
    MarksUnfold(s1, Subscribe(c), [Timer(c)] + []);
    MarksUnfold(s, Ordered(c, Earlier), [Subscribe(c)] + ([Timer(c)] + []));
  }

  lemma MarksUnfold(s: System, e: Event, rest: seq<Event>)
    requires Enabled(s, e) && Run(Next(s, e), rest)
    ensures Run(s, [e] + rest)
    ensures MarkedTimes(s, [e] + rest) == (if e.Timer? && StillMine(s.cell, s.calls[e.c].id) then [s.cell.until] else [])
                                          + MarkedTimes(Next(s, e), rest)
  {
    assert ([e] + rest)[1..] == rest;
  }

  /** Three calls for times 5, 5 and 9: the second resolves its tie last and takes the marker back to 5. */
  function StaleOverwrite(): (events: seq<Event>) {
    [Enter(1, 5), Enter(2, 5), Enter(3, 9), First(0), First(1), First(2), Ordered(1, Earlier)]
  }

  /** From the state in which all three calls have entered. */
  lemma StaleTail(s: System)
    requires s == Init().(calls := [Call(1, 5, Start), Call(2, 5, Start), Call(3, 9, Start)])
    ensures Run(s, [First(0), First(1), First(2), Ordered(1, Earlier)])
    ensures !Monotone(s, [First(0), First(1), First(2), Ordered(1, Earlier)])
  {
    var s1 := Next(s, First(0));
    var s2 := Next(s1, First(1));
    assert s2.calls[1].pc == Ordering(1, false);
    var s3 := Next(s2, First(2));
    assert s3.cell == Scheduled(9, 3) && s3.calls[1].pc == Ordering(1, true);
    assert Next(s3, Ordered(1, Earlier)).cell == Scheduled(5, 2);
    RunUnfolds(s3, Ordered(1, Earlier), []);
    RunUnfolds(s2, First(2), [Ordered(1, Earlier)]);
    RunUnfolds(s1, First(1), [First(2), Ordered(1, Earlier)]);
    RunUnfolds(s, First(0), [First(1), First(2), Ordered(1, Earlier)]);
  }

  lemma MarkerCanMoveBack()
    ensures Run(Init(), StaleOverwrite()) && NoReloads(StaleOverwrite()) && !Monotone(Init(), StaleOverwrite())
  {
    var tail := [First(0), First(1), First(2), Ordered(1, Earlier)];
    var s := AllEntered(tail);
    StaleTail(s);
    StaleEvents(tail);
  }

  lemma StaleEvents(tail: seq<Event>)
    requires tail == [First(0), First(1), First(2), Ordered(1, Earlier)]
    ensures StaleOverwrite() == [Enter(1, 5)] + ([Enter(2, 5)] + ([Enter(3, 9)] + tail)) && NoReloads(StaleOverwrite())
  {
  }

  /** The three calls enter. */
  lemma AllEntered(tail: seq<Event>) returns (s: System)
    ensures s == Init().(calls := [Call(1, 5, Start), Call(2, 5, Start), Call(3, 9, Start)])
    ensures var es := [Enter(1, 5)] + ([Enter(2, 5)] + ([Enter(3, 9)] + tail));
            Run(s, tail) ==> Run(Init(), es) && (Monotone(Init(), es) ==> Monotone(s, tail))
  {
    var s1 := Next(Init(), Enter(1, 5));
    var s2 := Next(s1, Enter(2, 5));
    s := Next(s2, Enter(3, 9));
    assert s.calls == [Call(1, 5, Start), Call(2, 5, Start), Call(3, 9, Start)];
    if Run(s, tail) {
      RunUnfolds(s2, Enter(3, 9), tail);
      RunUnfolds(s1, Enter(2, 5), [Enter(3, 9)] + tail);
      RunUnfolds(Init(), Enter(1, 5), [Enter(2, 5)] + ([Enter(3, 9)] + tail));
    }
  }

  lemma RunUnfolds(s: System, e: Event, rest: seq<Event>)
    requires Enabled(s, e) && Run(Next(s, e), rest)
    ensures Run(s, [e] + rest)
    ensures Monotone(s, [e] + rest) <==> MarkerAtMost(s.cell, Next(s, e).cell) && Monotone(Next(s, e), rest)
  {
    assert ([e] + rest)[1..] == rest;
  }
}
