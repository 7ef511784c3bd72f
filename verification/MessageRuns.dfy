/** Whole runs of the message list: replaying the diffs, the UI mirror never loses track of the window. */
module MessageRuns {
  import opened Prelude
  import opened Flights
  import opened MessageDiff
  import opened MessageWindow
  import opened MessageReplay
  import opened MessageList

  datatype Event =
    | Loaded(page: seq<Message>, isConnectionChat: Option<bool>, direction: Direction)
    | Cleared
    | Edited(message: Message)
    | Deleted(id: MessageId)

  predicate Legal(e: Event) {
    e.Loaded? ==>
      && AllBare(e.page)
      && (e.direction.Replace? && e.direction.firstUnread.Some? ==> e.direction.firstUnread.value < |e.page|)
  }

  function Step(w: Window, e: Event): (r: Window) {
    match e
    case Loaded(page, isConnectionChat, direction) => Applied(w, page, isConnectionChat, direction)
    case Cleared => DividerCleared(w)
    case Edited(m) => Updated(w, m)
    case Deleted(id) => Removed(w, id)
  }

  function StepChanges(w: Window, e: Event): (r: seq<Change>) {
    match e
    case Loaded(page, isConnectionChat, direction) => AppliedChanges(w, page, isConnectionChat, direction)
    case Cleared => ClearChanges(w)
    case Edited(m) => UpdateChanges(w, m)
    case Deleted(id) => RemoveChanges(w, id)
  }

  /** A step whose diff carries every position: anything but a page with two neighbours in one flight. */
  predicate CarriesPositions(w: Window, e: Event) {
    e.Loaded? ==>
      match e.direction
      case Replace(_, _, _, _, _, _) => true
      case PrependOlder(_) => OlderPageSplits(e.page)
      case AppendNewer(_) => NewerPageSplits(|w.messages|, e.page)
  }

  /** What the mirror of `shown` becomes, oldest-first. */
  function ShownAfter(w: Window, shown: seq<Message>, e: Event): (r: seq<Message>)
    requires |shown| == |w.messages|
  {
    match e
    case Loaded(page, isConnectionChat, direction) =>
      (match direction
       case Replace(_, _, _, _, _, _) => Step(w, e).messages
       case PrependOlder(hasOlder) => OlderShown(w, shown, page, hasOlder)
       case AppendNewer(hasNewer) => NewerShown(w, shown, page, hasNewer))
    case Cleared => ClearShown(w, shown)
    case Edited(m) => UpdateShown(w, shown, m)
    case Deleted(id) => RemoveShown(w, shown, id)
  }

  lemma StepReplay(w: Window, shown: seq<Message>, e: Event)
    requires |shown| == |w.messages|
    ensures Replay(Newest(shown), StepChanges(w, e)) == Some(Newest(ShownAfter(w, shown, e)))
  {
    match e
    case Loaded(page, isConnectionChat, direction) =>
      match direction {
        case Replace(_, _, _, _, _, _) => ReplayOne(Newest(shown), Reload(Newest(Step(w, e).messages)));
        case PrependOlder(hasOlder) => OlderReplay(w, shown, page, hasOlder);
        case AppendNewer(hasNewer) => NewerReplay(w, shown, page, hasNewer);
      }
    case Cleared => ClearReplay(w, shown);
    case Edited(m) => UpdateReplay(w, shown, m);
    case Deleted(id) => RemoveReplay(w, shown, id);
  }

  lemma StepModuloPosition(w: Window, shown: seq<Message>, e: Event)
    requires Bare(shown) == Bare(w.messages)
    ensures |shown| == |w.messages|
    ensures Bare(ShownAfter(w, shown, e)) == Bare(Step(w, e).messages)
  {
    assert |Bare(shown)| == |Bare(w.messages)|;
    match e
    case Loaded(page, isConnectionChat, direction) =>
      match direction {
        case Replace(_, _, _, _, _, _) =>
        case PrependOlder(hasOlder) => OlderModuloPosition(w, shown, page, hasOlder);
        case AppendNewer(hasNewer) => NewerModuloPosition(w, shown, page, hasNewer);
      }
    case Cleared => ClearModuloPosition(w, shown);
    case Edited(m) => UpdateModuloPosition(w, shown, m);
    case Deleted(id) => RemoveModuloPosition(w, shown, id);
  }

  lemma StepKeepsConsistent(w: Window, e: Event)
    requires Consistent(w) && Legal(e)
    ensures Consistent(Step(w, e))
  {
    match e
    case Loaded(page, isConnectionChat, direction) =>
      match direction {
        case Replace(_, _, _, firstUnread, _, _) => PositionedIsConsistent(page, firstUnread);
        case PrependOlder(hasOlder) => OlderKeepsConsistent(w, page, hasOlder);
        case AppendNewer(hasNewer) => NewerKeepsConsistent(w, page, hasNewer);
      }
    case Cleared => ClearKeepsConsistent(w);
    case Edited(m) => UpdateKeepsConsistent(w, m);
    case Deleted(id) => RemoveKeepsConsistent(w, id);
  }

  /** One transition on an exact mirror is exact if and only if its diff carries every position. */
  lemma StepExactIff(w: Window, e: Event)
    requires Consistent(w) && Legal(e)
    ensures ShownAfter(w, w.messages, e) == Step(w, e).messages <==> CarriesPositions(w, e)
  {
    match e
    case Loaded(page, isConnectionChat, direction) =>
      match direction {
        case Replace(_, _, _, _, _, _) =>
        case PrependOlder(hasOlder) => OlderExactIff(w, page, hasOlder);
        case AppendNewer(hasNewer) => NewerExactIff(w, page, hasNewer);
      }
    case Cleared => ClearExact(w);
    case Edited(m) => UpdateExact(w, m);
    case Deleted(id) => RemoveExact(w, id);
  }

  function After(w: Window, events: seq<Event>): (r: Window)
    decreases |events|
  {
    if events == [] then w else After(Step(w, events[0]), events[1..])
  }

  /** The mirror after the diffs of a whole run. */
  function MirrorAfter(w: Window, mirror: seq<Message>, events: seq<Event>): (r: Option<seq<Message>>)
    decreases |events|
  {
    if events == [] then Some(mirror)
    else
      match Replay(mirror, StepChanges(w, events[0]))
      case None => None
      case Some(next) => MirrorAfter(Step(w, events[0]), next, events[1..])
  }

  predicate AllLegal(events: seq<Event>) { forall i | 0 <= i < |events| :: Legal(events[i]) }

  predicate AllCarryPositions(w: Window, events: seq<Event>)
    decreases |events|
  {
    events == [] || (CarriesPositions(w, events[0]) && AllCarryPositions(Step(w, events[0]), events[1..]))
  }

  /** Over any run, every change applies and the mirror shows the window's messages in reverse. */
  lemma {:induction false} MirrorFollows(w: Window, shown: seq<Message>, events: seq<Event>)
    requires Consistent(w) && AllLegal(events) && Bare(shown) == Bare(w.messages)
    ensures Consistent(After(w, events))
    ensures MirrorAfter(w, Newest(shown), events).Some?
    ensures Bare(Newest(MirrorAfter(w, Newest(shown), events).value)) == Bare(After(w, events).messages)
    decreases |events|
  {
    if events == [] {
      assert Newest(Newest(shown)) == shown;
    } else {
      StepModuloPosition(w, shown, events[0]);
      StepReplay(w, shown, events[0]);
      StepKeepsConsistent(w, events[0]);
      MirrorFollows(Step(w, events[0]), ShownAfter(w, shown, events[0]), events[1..]);
    }
  }

  /** Over any run whose diffs carry every position, the mirror is the window in reverse, positions included. */
  lemma {:induction false} MirrorFollowsExactly(w: Window, events: seq<Event>)
    requires Consistent(w) && AllLegal(events) && AllCarryPositions(w, events)
    ensures MirrorAfter(w, Newest(w.messages), events) == Some(Newest(After(w, events).messages))
    decreases |events|
  {
    if events != [] {
      StepExactIff(w, events[0]);
      StepReplay(w, w.messages, events[0]);
      StepKeepsConsistent(w, events[0]);
      MirrorFollowsExactly(Step(w, events[0]), events[1..]);
    }
  }
}
