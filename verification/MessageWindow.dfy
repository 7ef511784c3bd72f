/**
 The message-list window, described the simple way: every operation edits the list of messages and
 then recomputes every position from scratch. `MessageList` proves that the incremental code refines
 this, and the lemmas here prove that the emitted diffs take the UI mirror to the new window.
 */
module MessageWindow {
  import opened Prelude
  import opened Flights
  import opened MessageDiff

  const PAGE_SIZE: nat := 64

  /** Ten pages. */
  const MAX_WINDOW: nat := 640

  datatype State = State(
    isConnectionChat: Option<bool>,
    hasOlder: bool,
    hasNewer: bool,
    isAtBottom: bool,
    firstUnread: Option<nat>,
    unreadCount: nat,
    revision: nat)

  datatype Window = Window(messages: seq<Message>, state: State)

  /** A stored window: positions as if recomputed, and an unread divider that points into it. */
  predicate Consistent(w: Window) {
    && FullyPositioned(w.messages, w.state.firstUnread)
    && (w.state.firstUnread.Some? ==> w.state.firstUnread.value < |w.messages|)
  }

  predicate AllBare(ms: seq<Message>) { forall i | 0 <= i < |ms| :: ms[i].position == Single }

  // ---- The operations ----

  /** The number of messages dropped when a list of length `n` is cut to the window bound. */
  function Evicted(n: nat): (r: nat) { SaturatingSub(n, MAX_WINDOW) }

  /** `page` in front of `ms`, without the `e` newest messages. */
  function KeepOldest(page: seq<Message>, ms: seq<Message>, e: nat): (r: seq<Message>)
    requires e <= |page| + |ms|
    ensures |r| == |page| + |ms| - e
    ensures forall i {:trigger r[i]} | 0 <= i < |r| :: r[i] == if i < |page| then page[i] else ms[i - |page|]
  {
    seq(|page| + |ms| - e, i requires 0 <= i < |page| + |ms| => if i < |page| then page[i] else ms[i - |page|])
  }

  /** `page` behind `ms`, without the `e` oldest messages. */
  function KeepNewest(ms: seq<Message>, page: seq<Message>, e: nat): (r: seq<Message>)
    requires e <= |ms| + |page|
    ensures |r| == |ms| + |page| - e
    ensures forall i {:trigger r[i]} | 0 <= i < |r| :: r[i] == if i + e < |ms| then ms[i + e] else page[i + e - |ms|]
  {
    seq(|ms| + |page| - e,
        i requires 0 <= i < |ms| + |page| - e => if i + e < |ms| then ms[i + e] else page[i + e - |ms|])
  }

  lemma KeepIsCut(a: seq<Message>, b: seq<Message>, e: nat)
    requires e <= |a| + |b|
    ensures KeepOldest(a, b, e) == (a + b)[..|a| + |b| - e]
    ensures KeepNewest(a, b, e) == (a + b)[e..]
  {
  }

  function ShiftUp(u: Option<nat>, count: nat, len: nat): (r: Option<nat>)
    ensures r.Some? ==> r.value < len
  {
    if u.Some? && u.value + count < len then Some(u.value + count) else None
  }

  function ShiftDown(u: Option<nat>, count: nat): (r: Option<nat>) {
    if u.Some? then CheckedSub(u.value, count) else None
  }

  function OlderLoaded(w: Window, page: seq<Message>, hasOlder: bool): (r: Window) {
    var evicted := Evicted(|page| + |w.messages|);
    var kept := KeepOldest(page, w.messages, evicted);
    var unread := ShiftUp(w.state.firstUnread, |page|, |kept|);
    var hasNewer := w.state.hasNewer || evicted > 0;
    Window(Positioned(kept, unread),
           w.state.(hasOlder := hasOlder, hasNewer := hasNewer,
                    isAtBottom := !hasNewer && w.state.isAtBottom,
                    firstUnread := unread, revision := w.state.revision + 1))
  }

  function NewerLoaded(w: Window, page: seq<Message>, hasNewer: bool): (r: Window) {
    var evicted := Evicted(|w.messages| + |page|);
    var unread := ShiftDown(w.state.firstUnread, evicted);
    Window(Positioned(KeepNewest(w.messages, page, evicted), unread),
           w.state.(hasOlder := w.state.hasOlder || evicted > 0, hasNewer := hasNewer,
                    isAtBottom := !hasNewer, firstUnread := unread, revision := w.state.revision + 1))
  }

  function DividerCleared(w: Window): (r: Window) {
    if w.state.firstUnread.None? then w
    else Window(Positioned(w.messages, None),
                w.state.(firstUnread := None, unreadCount := 0, revision := w.state.revision + 1))
  }

  /** The id index: where each id occurs last. */
  function IndexOf(ms: seq<Message>): (r: map<MessageId, nat>)
    ensures forall id {:trigger id in r} | id in r :: r[id] < |ms| && ms[r[id]].id == id
  {
    if ms == [] then map[] else IndexOf(ms[..|ms| - 1])[ms[|ms| - 1].id := |ms| - 1]
  }

  /** Every loaded message is indexed, under the last place its id occurs. */
  lemma {:induction false} IndexOfIsLast(ms: seq<Message>, i: nat)
    requires i < |ms|
    ensures ms[i].id in IndexOf(ms) && i <= IndexOf(ms)[ms[i].id]
    decreases |ms|
  {
    if i < |ms| - 1 { IndexOfIsLast(ms[..|ms| - 1], i); }
  }

  function Find(ms: seq<Message>, id: MessageId): (r: Option<nat>)
    ensures r.Some? ==> r.value < |ms| && ms[r.value].id == id
  {
    if id in IndexOf(ms) then Some(IndexOf(ms)[id]) else None
  }

  function Updated(w: Window, m: Message): (r: Window) {
    match Find(w.messages, m.id)
    case None => w
    case Some(i) =>
      if w.messages[i] == m then w
      else Window(Positioned(w.messages[i := m], w.state.firstUnread),
                  w.state.(revision := w.state.revision + 1))
  }

  function Without(ms: seq<Message>, i: nat): (r: seq<Message>)
    requires i < |ms|
    ensures |r| == |ms| - 1
  {
    ms[..i] + ms[i + 1..]
  }

  function UnreadAfterRemoval(u: Option<nat>, i: nat, len: nat): (r: Option<nat>) {
    if u.None? then None
    else if u.value > i then Some(u.value - 1)
    else if u.value == i then (if i < len then Some(i) else None)
    else u
  }

  function Removed(w: Window, id: MessageId): (r: Window) {
    match Find(w.messages, id)
    case None => w
    case Some(i) =>
      var ms := Without(w.messages, i);
      var unread := UnreadAfterRemoval(w.state.firstUnread, i, |ms|);
      Window(Positioned(ms, unread), w.state.(firstUnread := unread, revision := w.state.revision + 1))
  }

  // ---- The emitted changes ----

  /** Indices of the new window that are patched after a page of `p` older messages. */
  function OlderPatches(n: nat, p: nat, e: nat): (s: set<nat>) {
    (if p > 0 && n > 0 then {p - 1, p} else {}) + (if 0 < e < p + n then {p + n - e - 1} else {})
  }

  function OlderSplices(n: nat, page: seq<Message>): (r: seq<Change>) {
    [Splice(n, Newest(page), 0)]
    + (if Evicted(|page| + n) > 0 then [Splice(0, [], Evicted(|page| + n))] else [])
  }

  function OlderChanges(w: Window, page: seq<Message>, hasOlder: bool): (r: seq<Change>) {
    OlderSplices(|w.messages|, page)
    + Patches(OlderLoaded(w, page, hasOlder).messages, OlderPatches(|w.messages|, |page|, Evicted(|page| + |w.messages|)))
  }

  function NewerPatches(n: nat, p: nat, e: nat): (s: set<nat>) {
    (if n > 0 && p > 0 && n - 1 >= e then {n - 1 - e} else {})
    + (if n > 0 && p > 0 && n >= e then {n - e} else {})
    + (if e > 0 then {0} else {})
  }

  function NewerSplices(n: nat, page: seq<Message>): (r: seq<Change>) {
    var evicted := Evicted(n + |page|);
    [Splice(0, Newest(page), 0)]
    + (if evicted > 0 then [Splice(n + |page| - evicted, [], evicted)] else [])
  }

  function NewerChanges(w: Window, page: seq<Message>, hasNewer: bool): (r: seq<Change>) {
    NewerSplices(|w.messages|, page)
    + Patches(NewerLoaded(w, page, hasNewer).messages, NewerPatches(|w.messages|, |page|, Evicted(|w.messages| + |page|)))
  }

  function Span(start: nat, end: nat): (s: set<nat>)
    ensures forall i :: i in s <==> start <= i < end
  {
    if end <= start then {} else Span(start, end - 1) + {end - 1}
  }

  function ClearChanges(w: Window): (r: seq<Change>) {
    match w.state.firstUnread
    case None => []
    case Some(u) => Patches(DividerCleared(w).messages, Span(SaturatingSub(u, 1), u + 1))
  }

  function UpdateChanges(w: Window, m: Message): (r: seq<Change>) {
    match Find(w.messages, m.id)
    case None => []
    case Some(i) =>
      if w.messages[i] == m then []
      else Patches(Updated(w, m).messages, Span(SaturatingSub(i, 1), i + 2))
  }

  function RemoveChanges(w: Window, id: MessageId): (r: seq<Change>) {
    match Find(w.messages, id)
    case None => []
    case Some(i) =>
      [Splice(NewestIndex(|w.messages|, i), [], 1)]
      + Patches(Removed(w, id).messages, Span(SaturatingSub(i, 1), i + 1))
  }

  lemma UpdatedAt(w: Window, m: Message, i: nat)
    requires Find(w.messages, m.id) == Some(i) && w.messages[i] != m
    ensures Updated(w, m) == Window(Positioned(w.messages[i := m], w.state.firstUnread),
                                    w.state.(revision := w.state.revision + 1))
  {
  }

  lemma UpdateChangesAt(w: Window, m: Message, i: nat)
    requires Find(w.messages, m.id) == Some(i) && w.messages[i] != m
    ensures UpdateChanges(w, m) == Patches(Positioned(w.messages[i := m], w.state.firstUnread),
                                           Span(SaturatingSub(i, 1), i + 2))
  {
    UpdatedAt(w, m, i);
  }

  lemma RemovedAt(w: Window, id: MessageId, i: nat)
    requires Find(w.messages, id) == Some(i)
    ensures var ms := Without(w.messages, i);
            var unread := UnreadAfterRemoval(w.state.firstUnread, i, |ms|);
            && Removed(w, id) == Window(Positioned(ms, unread),
                                        w.state.(firstUnread := unread, revision := w.state.revision + 1))
            && RemoveChanges(w, id) == [Splice(NewestIndex(|w.messages|, i), [], 1)]
                                       + Patches(Positioned(ms, unread), Span(SaturatingSub(i, 1), i + 1))
  {
  }

  // ---- Which messages stay, and which of them are unread ----

  /** The messages from the divider on. */
  function Unread(w: Window): (ms: seq<Message>)
    requires w.state.firstUnread.Some? ==> w.state.firstUnread.value <= |w.messages|
  {
    if w.state.firstUnread.Some? then Bare(w.messages[w.state.firstUnread.value..]) else []
  }

  lemma UnreadOfPositioned(ms: seq<Message>, st: State)
    requires st.firstUnread.Some? && st.firstUnread.value <= |ms|
    ensures Unread(Window(Positioned(ms, st.firstUnread), st)) == Bare(ms[st.firstUnread.value..])
  {
    var p, u := Positioned(ms, st.firstUnread), st.firstUnread.value;
    assert forall k | 0 <= k < |ms| - u :: Bare(p[u..])[k] == Bare(ms[u..])[k];
  }

  lemma FrontKeepsUnread(whole: seq<Message>, n: nat, st: State)
    requires n <= |whole| && st.firstUnread.Some? && st.firstUnread.value <= n
    ensures var r := Window(Positioned(whole[..n], st.firstUnread), st); Unread(r) == Bare(whole[st.firstUnread.value..n])
  {
    UnreadOfPositioned(whole[..n], st);
    TakeThenDrop(whole, st.firstUnread.value, n);
  }

  lemma BackKeepsUnread(whole: seq<Message>, gone: nat, st: State)
    requires st.firstUnread.Some? && gone + st.firstUnread.value <= |whole|
    ensures var r := Window(Positioned(whole[gone..], st.firstUnread), st); Unread(r) == Bare(whole[gone + st.firstUnread.value..])
  {
    UnreadOfPositioned(whole[gone..], st);
    DropsAdd(whole, gone, st.firstUnread.value);
  }

  lemma OlderIsFront(w: Window, page: seq<Message>, hasOlder: bool, whole: seq<Message>)
    requires whole == page + w.messages
    ensures var r, n := OlderLoaded(w, page, hasOlder), Min(|whole|, 640);
            && r == Window(Positioned(whole[..n], r.state.firstUnread), r.state)
            && r.state.firstUnread == if w.state.firstUnread.Some? && |page| + w.state.firstUnread.value < n
                                      then Some(|page| + w.state.firstUnread.value) else None
  {
    KeepIsCut(page, w.messages, Evicted(|whole|));
  }

  lemma NewerIsBack(w: Window, page: seq<Message>, hasNewer: bool, whole: seq<Message>)
    requires whole == w.messages + page
    ensures var r, gone := NewerLoaded(w, page, hasNewer), |whole| - Min(|whole|, 640);
            && r == Window(Positioned(whole[gone..], r.state.firstUnread), r.state)
            && r.state.firstUnread == if w.state.firstUnread.Some? && gone <= w.state.firstUnread.value
                                      then Some(w.state.firstUnread.value - gone) else None
  {
    KeepIsCut(w.messages, page, Evicted(|whole|));
  }

  /** An older page goes in front and only messages past the 640th go, from the newest end; so go the unread ones. */
  lemma OlderKeepsUnread(w: Window, page: seq<Message>, hasOlder: bool, whole: seq<Message>)
    requires Consistent(w) && whole == page + w.messages
    ensures var r := OlderLoaded(w, page, hasOlder);
            && |r.messages| == Min(|whole|, 640) && Bare(r.messages) == Bare(whole[..|r.messages|])
            && (r.state.firstUnread.Some? <==>
                w.state.firstUnread.Some? && |page| + w.state.firstUnread.value < |r.messages|)
            && (r.state.firstUnread.Some? ==> Unread(r) == Bare(whole[|page| + w.state.firstUnread.value..|r.messages|]))
  {
    var r, n := OlderLoaded(w, page, hasOlder), Min(|whole|, 640);
    OlderIsFront(w, page, hasOlder, whole);
    BareOfPositioned(whole[..n], r.state.firstUnread);
    if r.state.firstUnread.Some? { FrontKeepsUnread(whole, n, r.state); }
  }

  /** A newer page goes behind and only messages past the 640th go, from the oldest end. */
  lemma NewerKeepsUnread(w: Window, page: seq<Message>, hasNewer: bool, whole: seq<Message>, gone: nat)
    requires Consistent(w) && whole == w.messages + page && gone == |whole| - Min(|whole|, 640)
    ensures var r := NewerLoaded(w, page, hasNewer);
            && |r.messages| == Min(|whole|, 640) && Bare(r.messages) == Bare(whole[gone..])
            && (r.state.firstUnread.Some? <==> w.state.firstUnread.Some? && gone <= w.state.firstUnread.value)
            && (r.state.firstUnread.Some? ==> Unread(r) == Bare(whole[w.state.firstUnread.value..]))
  {
    var r := NewerLoaded(w, page, hasNewer);
    NewerIsBack(w, page, hasNewer, whole);
    BareOfPositioned(whole[gone..], r.state.firstUnread);
    if r.state.firstUnread.Some? { BackKeepsUnread(whole, gone, r.state); }
  }

  /** The messages from index `u` on, without the one at index `i`. */
  function FromWithout(ms: seq<Message>, u: nat, i: nat): (r: seq<Message>)
    requires u <= |ms| && i < |ms|
  {
    if i < u then ms[u..] else ms[u..i] + ms[i + 1..]
  }

  lemma WithoutFrom(ms: seq<Message>, u: nat, i: nat)
    requires u < |ms| && i < |ms|
    ensures Without(ms, i)[if i < u then u - 1 else u..] == FromWithout(ms, u, i)
  {
  }

  /**
   A removal takes out that one message. The divider stays where there was one, unless it stood on the
   last message and that is the one removed; and what was unread is unread, without the removed one.
   */
  predicate LosesOnly(w: Window, i: nat, r: Window)
    requires i < |w.messages| && (w.state.firstUnread.Some? ==> w.state.firstUnread.value < |w.messages|)
  {
    && Bare(r.messages) == Bare(w.messages[..i] + w.messages[i + 1..])
    && (r.state.firstUnread.Some? <==>
          w.state.firstUnread.Some? && !(w.state.firstUnread.value == i == |w.messages| - 1))
    && (r.state.firstUnread.Some? ==>
          r.state.firstUnread.value < |r.messages| && Unread(r) == Bare(FromWithout(w.messages, w.state.firstUnread.value, i)))
  }

  lemma RemovalKeepsUnread(w: Window, id: MessageId, i: nat)
    requires Consistent(w) && Find(w.messages, id) == Some(i)
    ensures LosesOnly(w, i, Removed(w, id))
  {
    RemovedAt(w, id, i);
    var r, ms := Removed(w, id), Without(w.messages, i);
    BareOfPositioned(ms, r.state.firstUnread);
    if r.state.firstUnread.Some? {
      UnreadOfPositioned(ms, r.state);
      WithoutFrom(w.messages, w.state.firstUnread.value, i);
    }
  }

  /** An edit replaces that one message and moves nothing. */
  lemma EditKeepsUnread(w: Window, m: Message, i: nat)
    requires Find(w.messages, m.id) == Some(i) && w.messages[i] != m
    ensures var r := Updated(w, m);
            Bare(r.messages) == Bare(w.messages)[i := m.(position := Single)] && r.state.firstUnread == w.state.firstUnread
  {
    UpdatedAt(w, m, i);
    BareOfPositioned(w.messages[i := m], w.state.firstUnread);
  }

  /** Clearing the divider keeps the messages and leaves nothing unread. */
  lemma ClearKeepsMessages(w: Window)
    ensures var r := DividerCleared(w);
            && Bare(r.messages) == Bare(w.messages) && r.state.firstUnread == None
            && (w.state.firstUnread.Some? ==> r.state.unreadCount == 0)
  {
    BareOfPositioned(w.messages, None);
  }

  // ---- Consistency ----

  lemma PositionedIsConsistent(ms: seq<Message>, divider: Option<nat>)
    ensures FullyPositioned(Positioned(ms, divider), divider)
  {
    BareOfPositioned(ms, divider);
    PositionedIgnoresPositions(Positioned(ms, divider), ms, divider);
    var p := Positioned(ms, divider);
    forall i | 0 <= i < |p| ensures p[i].position == PositionAt(p, i, divider) {
      assert Positioned(p, divider)[i] == p[i];
    }
  }

  lemma OlderKeepsConsistent(w: Window, page: seq<Message>, hasOlder: bool)
    ensures Consistent(OlderLoaded(w, page, hasOlder))
    ensures |OlderLoaded(w, page, hasOlder).messages| <= MAX_WINDOW
  {
    var kept := KeepOldest(page, w.messages, Evicted(|page| + |w.messages|));
    PositionedIsConsistent(kept, ShiftUp(w.state.firstUnread, |page|, |kept|));
  }

  lemma NewerKeepsConsistent(w: Window, page: seq<Message>, hasNewer: bool)
    requires Consistent(w)
    ensures Consistent(NewerLoaded(w, page, hasNewer))
    ensures |NewerLoaded(w, page, hasNewer).messages| <= MAX_WINDOW
  {
    var e := Evicted(|w.messages| + |page|);
    PositionedIsConsistent(KeepNewest(w.messages, page, e), ShiftDown(w.state.firstUnread, e));
  }

  lemma ClearKeepsConsistent(w: Window)
    requires Consistent(w)
    ensures Consistent(DividerCleared(w))
  {
    PositionedIsConsistent(w.messages, None);
  }

  lemma UpdateKeepsConsistent(w: Window, m: Message)
    requires Consistent(w)
    ensures Consistent(Updated(w, m))
  {
    if Find(w.messages, m.id).Some? {
      PositionedIsConsistent(w.messages[Find(w.messages, m.id).value := m], w.state.firstUnread);
    }
  }

  lemma RemoveKeepsConsistent(w: Window, id: MessageId)
    requires Consistent(w)
    ensures Consistent(Removed(w, id))
  {
    if Find(w.messages, id).Some? {
      var i := Find(w.messages, id).value;
      PositionedIsConsistent(Without(w.messages, i), UnreadAfterRemoval(w.state.firstUnread, i, |w.messages| - 1));
    }
  }

  // ---- Replay ----

  /** What the mirror of `shown` becomes, oldest-first, when the older-page diff is applied. */
  function OlderShown(w: Window, shown: seq<Message>, page: seq<Message>, hasOlder: bool): (r: seq<Message>)
    requires |shown| == |w.messages|
  {
    var e := Evicted(|page| + |shown|);
    Overlay(KeepOldest(page, shown, e), OlderLoaded(w, page, hasOlder).messages, OlderPatches(|shown|, |page|, e))
  }

  function NewerShown(w: Window, shown: seq<Message>, page: seq<Message>, hasNewer: bool): (r: seq<Message>)
    requires |shown| == |w.messages|
  {
    var e := Evicted(|shown| + |page|);
    Overlay(KeepNewest(shown, page, e), NewerLoaded(w, page, hasNewer).messages, NewerPatches(|shown|, |page|, e))
  }

  lemma OlderReplay(w: Window, shown: seq<Message>, page: seq<Message>, hasOlder: bool)
    requires |shown| == |w.messages|
    ensures Replay(Newest(shown), OlderChanges(w, page, hasOlder)) == Some(Newest(OlderShown(w, shown, page, hasOlder)))
  {
    var all := page + shown;
    var evicted := Evicted(|all|);
    InsertOlder(shown, page);
    EvictNewest(all, evicted);
    KeepIsCut(page, shown, evicted);
    assert evicted == 0 ==> KeepOldest(page, shown, evicted) == all;
    ReplayTransition(shown, OlderSplices(|shown|, page), all, KeepOldest(page, shown, evicted),
                     OlderLoaded(w, page, hasOlder).messages,
                     OlderPatches(|shown|, |page|, evicted));
  }

  lemma NewerReplay(w: Window, shown: seq<Message>, page: seq<Message>, hasNewer: bool)
    requires |shown| == |w.messages|
    ensures Replay(Newest(shown), NewerChanges(w, page, hasNewer)) == Some(Newest(NewerShown(w, shown, page, hasNewer)))
  {
    var all := shown + page;
    var evicted := Evicted(|all|);
    InsertNewer(shown, page);
    EvictOldest(all, evicted);
    KeepIsCut(shown, page, evicted);
    assert evicted == 0 ==> KeepNewest(shown, page, evicted) == all;
    ReplayTransition(shown, NewerSplices(|shown|, page), all, KeepNewest(shown, page, evicted),
                     NewerLoaded(w, page, hasNewer).messages,
                     NewerPatches(|shown|, |page|, evicted));
  }
}
