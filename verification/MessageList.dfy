/**
 The message-list data as the code keeps it: messages and an id index updated in place, positions
 recomputed only around the edges an operation touches. Every method is proved to leave exactly the
 window that `MessageWindow` describes with full recomputation, and to emit exactly its changes.
 */
module MessageList {
  import opened Prelude
  import opened Flights
  import opened MessageDiff
  import opened MessageWindow
  import opened MessageReplay

  datatype ChatMessage = ChatMessage(id: MessageId, timestamp: int, body: Body, detail: nat)

  function FromMessage(m: ChatMessage, attachments: seq<nat>): (r: Message) {
    Message(m.id, m.timestamp, m.body, m.detail, attachments, Single)
  }

  /** The loaded page, every position still `Single`. */
  function FromMessages(ms: seq<ChatMessage>, local: map<MessageId, seq<nat>>): (r: seq<Message>)
    ensures |r| == |ms| && AllBare(r)
    ensures forall i {:trigger r[i]} | 0 <= i < |r| :: r[i].id == ms[i].id
  {
    seq(|ms|, i requires 0 <= i < |ms| =>
      FromMessage(ms[i], if ms[i].id in local then local[ms[i].id] else []))
  }

  datatype Command = ScrollToId(id: MessageId) | ScrollToBottom

  datatype Kind = WindowReplaced | OlderPageLoaded | NewerPageLoaded | MessageUpdated | MessageDeleted
                | UnreadBoundaryChanged | MetaUpdated | CommandIssued

  datatype Transition = Transition(revision: nat, kind: Kind, changes: seq<Change>, command: Option<Command>)

  datatype Direction =
    | Replace(replaceHasOlder: bool, replaceHasNewer: bool, isAtBottom: bool, firstUnread: Option<nat>,
              unreadCount: nat, command: Option<Command>)
    | PrependOlder(hasOlder: bool)
    | AppendNewer(hasNewer: bool)

  function Replaced(w: Window, page: seq<Message>, isConnectionChat: Option<bool>, d: Direction): (r: Window)
    requires d.Replace?
  {
    Window(Positioned(page, d.firstUnread),
           State(if isConnectionChat.Some? then isConnectionChat else w.state.isConnectionChat,
                 d.replaceHasOlder, d.replaceHasNewer, d.isAtBottom, d.firstUnread, d.unreadCount,
                 w.state.revision + 1))
  }

  /** The window after a load, by full recomputation. */
  function Applied(w: Window, page: seq<Message>, isConnectionChat: Option<bool>, d: Direction): (r: Window) {
    match d
    case Replace(_, _, _, _, _, _) => Replaced(w, page, isConnectionChat, d)
    case PrependOlder(hasOlder) => OlderLoaded(w, page, hasOlder)
    case AppendNewer(hasNewer) => NewerLoaded(w, page, hasNewer)
  }

  function AppliedChanges(w: Window, page: seq<Message>, isConnectionChat: Option<bool>, d: Direction): (r: seq<Change>) {
    match d
    case Replace(_, _, _, _, _, _) => [Reload(Newest(Replaced(w, page, isConnectionChat, d).messages))]
    case PrependOlder(hasOlder) => OlderChanges(w, page, hasOlder)
    case AppendNewer(hasNewer) => NewerChanges(w, page, hasNewer)
  }

  function KindOf(d: Direction): (k: Kind) {
    match d
    case Replace(_, _, _, _, _, _) => WindowReplaced
    case PrependOlder(_) => OlderPageLoaded
    case AppendNewer(_) => NewerPageLoaded
  }

  // ---- Recomputing a range ----

  ghost predicate Recomputed(ms: seq<Message>, r: seq<Message>, start: nat, end: nat, d: Option<nat>) {
    |r| == |ms| && forall i {:trigger r[i]} | 0 <= i < |r| ::
      r[i] == if start <= i < end then ms[i].(position := PositionAt(ms, i, d)) else ms[i]
  }

  /** Positions in `[start, end)` recomputed in place, each from neighbours that may already be updated. */
  method RecomputeRange(messages: seq<Message>, start: nat, end: nat, divider: Option<nat>) returns (r: seq<Message>)
    ensures Recomputed(messages, r, start, end, divider)
  {
    r := messages;
    var stop := Min(end, |messages|);
    var i := start;
    while i < stop
      invariant start <= i && (i <= stop || i == start)
      invariant Recomputed(messages, r, start, i, divider)
    {
      var prev := if i > 0 && divider != Some(i) then Some(r[i - 1]) else None;
      var next := if divider == Some(i + 1) then None
                  else if i + 1 < |r| then Some(r[i + 1]) else None;
      CalculateReadsLinks(r, i, divider);
      assert Bare(r) == Bare(messages);
      PositionAtIgnoresPositions(r, messages, i, divider);
      var position := Calculate(r[i], prev, next);
      r := r[i := r[i].(position := position)];
      i := i + 1;
    }
  }

  method ComputeFlightPositions(messages: seq<Message>, divider: Option<nat>) returns (r: seq<Message>)
    ensures r == Positioned(messages, divider)
  {
    r := RecomputeRange(messages, 0, |messages|, divider);
  }

  lemma PositionAtIgnoresPositions(a: seq<Message>, b: seq<Message>, i: nat, d: Option<nat>)
    requires Bare(a) == Bare(b) && i < |a|
    ensures i < |b| && PositionAt(a, i, d) == PositionAt(b, i, d)
  {
    assert |Bare(a)| == |Bare(b)|;
    LinkedIgnoresPositions(a, b, i, d);
    LinkedIgnoresPositions(a, b, i + 1, d);
  }

  // ---- Patches ----

  function ToSet(indices: seq<nat>): (s: set<nat>) { set i | i in indices }

  /** Appends a patch for every listed index that exists, once each, oldest first. */
  method PushPatchChanges(changes: seq<Change>, messages: seq<Message>, indices: seq<nat>) returns (r: seq<Change>)
    ensures r == changes + Patches(messages, ToSet(indices))
  {
    var deduped: set<nat> := {};
    for k := 0 to |indices|
      invariant forall i :: i in deduped <==> i in indices[..k] && i < |messages|
    {
      if indices[k] < |messages| { deduped := deduped + {indices[k]}; }
    }
    assert indices[..|indices|] == indices;
    r := changes;
    for n := 0 to |messages|
      invariant r == changes + PatchesBelow(messages, ToSet(indices), n)
    {
      if n in deduped { r := r + [Patch(NewestIndex(|messages|, n), messages[n])]; }
    }
  }

  // ---- The id index ----

  method RebuildIndex(messages: seq<Message>) returns (index: map<MessageId, nat>)
    ensures index == IndexOf(messages)
  {
    index := map[];
    for i := 0 to |messages|
      invariant index == IndexOf(messages[..i])
    {
      assert messages[..i + 1][..i] == messages[..i];
      index := index[messages[i].id := i];
    }
    assert messages[..|messages|] == messages;
  }

  // ---- Edges of a page load ----

  lemma TruncateCell(ms: seq<Message>, d: Option<nat>, n: nat, i: nat)
    requires i + 1 < n <= |ms|
    ensures PositionAt(ms[..n], i, ShiftUp(d, 0, n)) == PositionAt(ms, i, d)
  {
  }

  lemma DropCell(ms: seq<Message>, d: Option<nat>, e: nat, i: nat)
    requires 0 < i < |ms| - e
    ensures PositionAt(ms[e..], i, ShiftDown(d, e)) == PositionAt(ms, i + e, d)
  {
  }

  /** Recomputing the two cells at the seam completes an older page. */
  lemma OlderSeam(page: seq<Message>, ms: seq<Message>, u: Option<nat>, r: seq<Message>)
    requires FullyPositioned(ms, u) && (u.Some? ==> u.value < |ms|)
    requires var joined := Positioned(page, None) + ms;
             var d := ShiftUp(u, |page|, |joined|);
             if |page| > 0 && |ms| > 0 then Recomputed(joined, r, |page| - 1, |page| + 1, d) else r == joined
    ensures r == OlderResult(page, ms, u, 0)
  {
    var joined := Positioned(page, None) + ms;
    var d := ShiftUp(u, |page|, |joined|);
    var kept := KeepOldest(page, ms, 0);
    assert Bare(joined) == Bare(kept) by {
      assert forall i {:trigger Bare(joined)[i]} | 0 <= i < |joined| :: Bare(joined)[i] == Bare(kept)[i];
    }
    forall i | 0 <= i < |r| ensures r[i] == OlderResult(page, ms, u, 0)[i] {
      if i in OlderPatches(|ms|, |page|, 0) {
        PositionAtIgnoresPositions(joined, kept, i, d);
      } else if i < |page| {
        OlderPageCell(page, ms, u, 0, i);
      } else {
        OlderOldCell(page, ms, u, 0, i);
      }
    }
  }

  lemma NewerSeam(ms: seq<Message>, page: seq<Message>, u: Option<nat>, r: seq<Message>)
    requires FullyPositioned(ms, u) && (u.Some? ==> u.value < |ms|)
    requires var joined := ms + Positioned(page, None);
             if |page| > 0 && |ms| > 0 then Recomputed(joined, r, |ms| - 1, |ms| + 1, u) else r == joined
    ensures r == NewerResult(ms, page, u, 0)
  {
    var joined := ms + Positioned(page, None);
    var kept := KeepNewest(ms, page, 0);
    assert Bare(joined) == Bare(kept) by {
      assert forall i {:trigger Bare(joined)[i]} | 0 <= i < |joined| :: Bare(joined)[i] == Bare(kept)[i];
    }
    assert ShiftDown(u, 0) == u;
    forall i | 0 <= i < |r| ensures r[i] == NewerResult(ms, page, u, 0)[i] {
      if i in NewerPatches(|ms|, |page|, 0) {
        PositionAtIgnoresPositions(joined, kept, i, u);
      } else if i < |ms| {
        NewerOldCell(ms, page, u, 0, i);
      } else {
        NewerPageCell(ms, page, u, 0, i);
      }
    }
  }

  /** Cutting the newest end and recomputing the last cell. */
  lemma OlderEviction(page: seq<Message>, ms: seq<Message>, u: Option<nat>, e: nat, r: seq<Message>)
    requires 0 < e < |page| + |ms| && (u.Some? ==> u.value < |ms|)
    requires var len := |page| + |ms| - e;
             Recomputed(OlderResult(page, ms, u, 0)[..len], r, len - 1, len, ShiftUp(u, |page|, len))
    ensures r == OlderResult(page, ms, u, e)
  {
    var len := |page| + |ms| - e;
    var whole := KeepOldest(page, ms, 0);
    var d0 := ShiftUp(u, |page|, |whole|);
    var d := ShiftUp(u, |page|, len);
    assert d == ShiftUp(d0, 0, len);
    assert KeepOldest(page, ms, e) == whole[..len];
    var cut := OlderResult(page, ms, u, 0)[..len];
    assert Bare(cut) == Bare(whole[..len]);
    forall i | 0 <= i < len ensures r[i] == OlderResult(page, ms, u, e)[i] {
      if i == len - 1 {
        PositionAtIgnoresPositions(cut, whole[..len], i, d);
      } else {
        TruncateCell(whole, d0, len, i);
      }
    }
  }

  lemma NewerEviction(ms: seq<Message>, page: seq<Message>, u: Option<nat>, e: nat, r: seq<Message>)
    requires 0 < e < |page| + |ms| && (u.Some? ==> u.value < |ms|)
    requires Recomputed(NewerResult(ms, page, u, 0)[e..], r, 0, 1, ShiftDown(u, e))
    ensures r == NewerResult(ms, page, u, e)
  {
    var whole := KeepNewest(ms, page, 0);
    var d := ShiftDown(u, e);
    assert ShiftDown(u, 0) == u;
    assert KeepNewest(ms, page, e) == whole[e..];
    var cut := NewerResult(ms, page, u, 0)[e..];
    assert Bare(cut) == Bare(whole[e..]);
    forall i | 0 <= i < |r| ensures r[i] == NewerResult(ms, page, u, e)[i] {
      if i == 0 {
        PositionAtIgnoresPositions(cut, whole[e..], i, d);
      } else {
        DropCell(whole, u, e, i);
      }
    }
  }

  /** Recomputing around an edited index completes an update or a removal. */
  lemma UpdateSeam(ms: seq<Message>, i: nat, m: Message, d: Option<nat>, r: seq<Message>)
    requires FullyPositioned(ms, d) && i < |ms|
    requires Recomputed(ms[i := m], r, SaturatingSub(i, 1), Min(i + 2, |ms|), d)
    ensures r == Positioned(ms[i := m], d)
  {
    forall k | 0 <= k < |ms| && (k + 1 < i || i + 1 < k) ensures r[k] == Positioned(ms[i := m], d)[k] {
      UpdateCell(ms, i, m, d, k);
    }
  }

  lemma RemoveSeam(ms: seq<Message>, i: nat, u: Option<nat>, r: seq<Message>)
    requires FullyPositioned(ms, u) && i < |ms| && (u.Some? ==> u.value < |ms|)
    requires Recomputed(Without(ms, i), r, SaturatingSub(i, 1), Min(i + 1, |ms| - 1), UnreadAfterRemoval(u, i, |ms| - 1))
    ensures r == Positioned(Without(ms, i), UnreadAfterRemoval(u, i, |ms| - 1))
  {
    var d := UnreadAfterRemoval(u, i, |ms| - 1);
    forall k | 0 <= k < |r| && (k + 1 < i || i < k) ensures r[k] == Positioned(Without(ms, i), d)[k] {
      RemoveCell(ms, i, u, k);
    }
  }

  lemma ClearSeam(ms: seq<Message>, u: nat, r: seq<Message>)
    requires FullyPositioned(ms, Some(u)) && u < |ms|
    requires Recomputed(ms, r, SaturatingSub(u, 1), Min(u + 1, |ms|), None)
    ensures r == Positioned(ms, None)
  {
    forall k | 0 <= k < |ms| && k != u && k + 1 != u ensures r[k] == Positioned(ms, None)[k] {
      ClearLinks(ms, u, k);
      ClearLinks(ms, u, k + 1);
      SameCell(ms, None, k, ms, Some(u), k);
    }
  }

  /** A run of consecutive indices, as `start..end` iterates it. */
  function Range(start: nat, end: nat): (r: seq<nat>)
    ensures forall i :: i in r <==> start <= i < end
  {
    if end <= start then [] else Range(start, end - 1) + [end - 1]
  }

  // ---- Joining a page ----

  /** The patch indices as the code collects them, and the set they denote. */
  lemma OlderIndices(n: nat, p: nat, e: nat, collected: seq<nat>)
    requires e < p + n || (e == 0 && p + n == 0)
    requires collected == (if p > 0 && n > 0 then Range(p - 1, p + 1) else []) + (if e > 0 then [p + n - e - 1] else [])
    ensures ToSet(collected) == OlderPatches(n, p, e)
  {
  }

  lemma NewerIndices(n: nat, p: nat, e: nat, collected: seq<nat>)
    requires var seam := if p > 0 && n > 0 then Range(n - 1, n + 1) else [];
             collected == if e > 0 then SubtractAll(seam, e) + [0] else seam
    ensures ToSet(collected) == NewerPatches(n, p, e)
  {
    var seam := if p > 0 && n > 0 then Range(n - 1, n + 1) else [];
    forall k | k in SubtractAll(seam, e) ensures k == n - 1 - e || k == n - e {
      assert k + e in seam;
    }
  }

  /** Puts an older page in front and recomputes the two cells at the seam. */
  method SeamOlder(page: seq<Message>, ms: seq<Message>, unread: Option<nat>)
    returns (r: seq<Message>, patchIndices: seq<nat>)
    requires FullyPositioned(ms, unread) && (unread.Some? ==> unread.value < |ms|)
    ensures r == OlderResult(page, ms, unread, 0)
    ensures patchIndices == if |page| > 0 && |ms| > 0 then Range(|page| - 1, |page| + 1) else []
  {
    patchIndices := [];
    var prepended := ComputeFlightPositions(page, None);
    r := prepended + ms;
    if |page| > 0 && |r| > |page| {
      var start, end := SaturatingSub(|page|, 1), Min(|page| + 1, |r|);
      r := RecomputeRange(r, start, end, if unread.Some? then Some(unread.value + |page|) else None);
      patchIndices := Range(start, end);
    }
    OlderSeam(page, ms, unread, r);
  }

  /** Cuts the newest end to the window bound and recomputes the last cell. */
  method JoinOlder(page: seq<Message>, ms: seq<Message>, unread: Option<nat>)
    returns (r: seq<Message>, evictCount: nat, patchIndices: seq<nat>, firstUnread: Option<nat>)
    requires FullyPositioned(ms, unread) && (unread.Some? ==> unread.value < |ms|)
    ensures evictCount == Evicted(|page| + |ms|)
    ensures r == OlderResult(page, ms, unread, evictCount)
    ensures ToSet(patchIndices) == OlderPatches(|ms|, |page|, evictCount)
    ensures firstUnread == ShiftUp(unread, |page|, |r|)
  {
    r, patchIndices := SeamOlder(page, ms, unread);
    var shifted := if unread.Some? then Some(unread.value + |page|) else None;
    evictCount := SaturatingSub(|r|, MAX_WINDOW);
    var last: seq<nat> := [];
    if evictCount > 0 {
      r := EvictNewest(page, ms, unread, shifted, r, evictCount);
      last := [|r| - 1];
    }
    patchIndices := patchIndices + last;
    OlderIndices(|ms|, |page|, evictCount, patchIndices);
    firstUnread := if shifted.Some? && shifted.value < |r| then shifted else None;
  }

  /** Drops the newest messages and recomputes the cell that is now the last. */
  method EvictNewest(ghost page: seq<Message>, ghost ms: seq<Message>, ghost unread: Option<nat>, shifted: Option<nat>,
                     whole: seq<Message>, evictCount: nat) returns (r: seq<Message>)
    requires whole == OlderResult(page, ms, unread, 0) && 0 < evictCount == SaturatingSub(|whole|, MAX_WINDOW)
    requires (unread.Some? ==> unread.value < |ms|) && shifted == if unread.Some? then Some(unread.value + |page|) else None
    ensures r == OlderResult(page, ms, unread, evictCount) && |r| == MAX_WINDOW
  {
    r := whole[..MAX_WINDOW];
    r := RecomputeRange(r, |r| - 1, |r|, if shifted.Some? && shifted.value < |r| then shifted else None);
    OlderEviction(page, ms, unread, evictCount, r);
  }

  /** Puts a newer page behind and recomputes the two cells at the seam. */
  method SeamNewer(ms: seq<Message>, page: seq<Message>, unread: Option<nat>)
    returns (r: seq<Message>, patchIndices: seq<nat>)
    requires FullyPositioned(ms, unread) && (unread.Some? ==> unread.value < |ms|)
    ensures r == NewerResult(ms, page, unread, 0)
    ensures patchIndices == if |page| > 0 && |ms| > 0 then Range(|ms| - 1, |ms| + 1) else []
  {
    patchIndices := [];
    var appended := ComputeFlightPositions(page, None);
    r := ms + appended;
    if |ms| > 0 && |r| > |ms| {
      var start, end := SaturatingSub(|ms|, 1), Min(|ms| + 1, |r|);
      r := RecomputeRange(r, start, end, unread);
      patchIndices := Range(start, end);
    }
    NewerSeam(ms, page, unread, r);
  }

  /** Cuts the oldest end to the window bound and recomputes the first cell. */
  method JoinNewer(ms: seq<Message>, page: seq<Message>, unread: Option<nat>)
    returns (r: seq<Message>, evictCount: nat, patchIndices: seq<nat>)
    requires FullyPositioned(ms, unread) && (unread.Some? ==> unread.value < |ms|)
    ensures evictCount == Evicted(|ms| + |page|)
    ensures r == NewerResult(ms, page, unread, evictCount)
    ensures ToSet(patchIndices) == NewerPatches(|ms|, |page|, evictCount)
  {
    r, patchIndices := SeamNewer(ms, page, unread);
    evictCount := SaturatingSub(|r|, MAX_WINDOW);
    if evictCount > 0 {
      r := r[evictCount..];
      patchIndices := SubtractAll(patchIndices, evictCount);
      r := RecomputeRange(r, 0, 1, ShiftDown(unread, evictCount));
      NewerEviction(ms, page, unread, evictCount, r);
      patchIndices := patchIndices + [0];
    }
    NewerIndices(|ms|, |page|, evictCount, patchIndices);
  }

  /** The page goes behind the oldest shown message, then the newest are dropped. */
  method PushOlderSplices(oldLen: nat, page: seq<Message>, evictCount: nat) returns (changes: seq<Change>)
    requires evictCount == Evicted(|page| + oldLen)
    ensures changes == OlderSplices(oldLen, page)
  {
    changes := [Splice(oldLen, Newest(page), 0)];
    if evictCount > 0 { changes := changes + [Splice(0, [], evictCount)]; }
  }

  /** The page goes in front of the newest shown message, then the oldest are dropped. */
  method PushNewerSplices(oldCount: nat, page: seq<Message>, evictCount: nat) returns (changes: seq<Change>)
    requires evictCount == Evicted(oldCount + |page|)
    ensures changes == NewerSplices(oldCount, page)
  {
    changes := [Splice(0, Newest(page), 0)];
    if evictCount > 0 { changes := changes + [Splice(oldCount + |page| - evictCount, [], evictCount)]; }
  }

  // ---- The data ----

  class MessageListData {
    var messages: seq<Message>
    var messageIdsIndex: map<MessageId, nat>

    ghost predicate Valid(state: State)
      reads this
    {
      Consistent(Window(messages, state)) && messageIdsIndex == IndexOf(messages)
    }

    ghost function View(state: State): (w: Window)
      reads this
    {
      Window(messages, state)
    }

    constructor ()
      ensures messages == []
      ensures forall state: State :: state.firstUnread.None? ==> Valid(state)
    {
      messages := [];
      messageIdsIndex := map[];
    }

    /** Applies a loaded page in the given direction. */
    method ApplyMessages(state: State, newMessages: seq<ChatMessage>, local: map<MessageId, seq<nat>>,
                         isConnectionChat: Option<bool>, direction: Direction)
      returns (next: State, transition: Transition)
      requires Valid(state)
      requires direction.Replace? && direction.firstUnread.Some? ==> direction.firstUnread.value < |newMessages|
      modifies this
      ensures Valid(next)
      ensures View(next) == Applied(old(View(state)), FromMessages(newMessages, local), isConnectionChat, direction)
      ensures transition.changes
           == AppliedChanges(old(View(state)), FromMessages(newMessages, local), isConnectionChat, direction)
      ensures transition.revision == next.revision && transition.kind == KindOf(direction)
      ensures transition.command == if direction.Replace? then direction.command else None
    {
      var page := FromMessages(newMessages, local);
      var changes, command := [], None;
      match direction {
        case Replace(_, _, _, _, _, nextCommand) =>
          next, changes := ReplacePage(state, page, isConnectionChat, direction);
          command := nextCommand;
        case PrependOlder(hasOlder) =>
          next, changes := PrependPage(state, page, hasOlder);
        case AppendNewer(hasNewer) =>
          next, changes := AppendPage(state, page, hasNewer);
      }
      transition := Transition(next.revision, KindOf(direction), changes, command);
    }

    method ReplacePage(state: State, page: seq<Message>, isConnectionChat: Option<bool>, direction: Direction)
      returns (next: State, changes: seq<Change>)
      requires direction.Replace? && (direction.firstUnread.Some? ==> direction.firstUnread.value < |page|)
      modifies this
      ensures Valid(next)
      ensures View(next) == Replaced(old(View(state)), page, isConnectionChat, direction)
      ensures changes == [Reload(Newest(messages))]
    {
      messages := ComputeFlightPositions(page, direction.firstUnread);
      PositionedIsConsistent(page, direction.firstUnread);
      messageIdsIndex := RebuildIndex(messages);
      next := State(if isConnectionChat.Some? then isConnectionChat else state.isConnectionChat,
                    direction.replaceHasOlder, direction.replaceHasNewer, direction.isAtBottom,
                    direction.firstUnread, direction.unreadCount, state.revision + 1);
      changes := [Reload(Newest(messages))];
    }

    method PrependPage(state: State, page: seq<Message>, hasOlder: bool) returns (next: State, changes: seq<Change>)
      requires Valid(state)
      modifies this
      ensures Valid(next)
      ensures View(next) == OlderLoaded(old(View(state)), page, hasOlder)
      ensures changes == OlderChanges(old(View(state)), page, hasOlder)
    {
      ghost var target, patches := OlderLoaded(View(state), page, hasOlder), OlderChanges(View(state), page, hasOlder);
      OlderKeepsConsistent(View(state), page, hasOlder);
      OlderUnfolds(View(state), page, hasOlder, Evicted(|page| + |messages|));
      var oldLen := |messages|;
      var joined, evictCount, patchIndices, firstUnread := JoinOlder(page, messages, state.firstUnread);
      messages := joined;
      var hasNewer := state.hasNewer || evictCount > 0;
      messageIdsIndex := RebuildIndex(joined);
      next := state.(hasOlder := hasOlder, hasNewer := hasNewer, isAtBottom := !hasNewer && state.isAtBottom,
                     firstUnread := firstUnread, revision := state.revision + 1);
      assert joined == target.messages && next == target.state;
      changes := PushOlderSplices(oldLen, page, evictCount);
      changes := PushPatchChanges(changes, joined, patchIndices);
      assert changes == patches;
    }

    method AppendPage(state: State, page: seq<Message>, hasNewer: bool) returns (next: State, changes: seq<Change>)
      requires Valid(state)
      modifies this
      ensures Valid(next)
      ensures View(next) == NewerLoaded(old(View(state)), page, hasNewer)
      ensures changes == NewerChanges(old(View(state)), page, hasNewer)
    {
      ghost var target, patches := NewerLoaded(View(state), page, hasNewer), NewerChanges(View(state), page, hasNewer);
      NewerKeepsConsistent(View(state), page, hasNewer);
      NewerUnfolds(View(state), page, hasNewer, Evicted(|messages| + |page|));
      var oldCount := |messages|;
      var joined, evictCount, patchIndices := JoinNewer(messages, page, state.firstUnread);
      messages := joined;
      messageIdsIndex := RebuildIndex(joined);
      next := state.(hasOlder := state.hasOlder || evictCount > 0, hasNewer := hasNewer, isAtBottom := !hasNewer,
                     firstUnread := ShiftDown(state.firstUnread, evictCount), revision := state.revision + 1);
      assert joined == target.messages && next == target.state;
      changes := PushNewerSplices(oldCount, page, evictCount);
      changes := PushPatchChanges(changes, joined, patchIndices);
      assert changes == patches;
    }

    /** Drops the unread divider; `None` when there is none. */
    method ClearFirstUnread(state: State) returns (next: State, transition: Option<Transition>)
      requires Valid(state)
      modifies this
      ensures Valid(next)
      ensures View(next) == DividerCleared(old(View(state)))
      ensures transition.Some? <==> state.firstUnread.Some?
      ensures transition.Some? ==>
                transition.value == Transition(next.revision, UnreadBoundaryChanged, ClearChanges(old(View(state))), None)
    {
      next, transition := state, None;
      if state.firstUnread.Some? {
        ghost var target := DividerCleared(View(state));
        ClearKeepsConsistent(View(state));
        var changes;
        messages, changes := Undivide(messages, state.firstUnread.value);
        next := state.(firstUnread := None, unreadCount := 0, revision := state.revision + 1);
        assert View(next) == target;
        transition := Some(Transition(next.revision, UnreadBoundaryChanged, changes, None));
      }
    }

    /** Replaces a loaded message by its new version; `None` when it is not loaded or did not change. */
    method UpdateMessage(state: State, message: ChatMessage, attachments: seq<nat>)
      returns (next: State, transition: Option<Transition>)
      requires Valid(state)
      modifies this
      ensures Valid(next)
      ensures View(next) == Updated(old(View(state)), FromMessage(message, attachments))
      ensures transition.None? ==> next == state
      ensures transition.Some? ==>
                && next.revision == state.revision + 1
                && transition.value == Transition(next.revision, MessageUpdated,
                     UpdateChanges(old(View(state)), FromMessage(message, attachments)), None)
    {
      var updated := FromMessage(message, attachments);
      next, transition := state, None;
      if message.id in messageIdsIndex {
        var idx := messageIdsIndex[message.id];
        if messages[idx] != updated {
          ghost var target, patches := Updated(View(state), updated), UpdateChanges(View(state), updated);
          UpdateKeepsConsistent(View(state), updated);
          UpdatedAt(View(state), updated, idx);
          UpdateChangesAt(View(state), updated, idx);
          var changes;
          messages, changes := EditAt(messages, idx, updated, state.firstUnread);
          assert changes == patches;
          next := state.(revision := state.revision + 1);
          assert View(next) == target;
          transition := Some(Transition(next.revision, MessageUpdated, changes, None));
        }
      }
    }

    /** Removes a loaded message and moves the unread divider; `None` when it is not loaded. */
    method RemoveMessage(state: State, id: MessageId) returns (next: State, transition: Option<Transition>)
      requires Valid(state)
      modifies this
      ensures Valid(next)
      ensures View(next) == Removed(old(View(state)), id)
      ensures transition.None? <==> Find(old(messages), id).None?
      ensures transition.None? ==> next == state && messages == old(messages)
      ensures transition.Some? ==>
                && next.revision == state.revision + 1
                && LosesOnly(old(View(state)), Find(old(messages), id).value, View(next))
                && transition.value == Transition(next.revision, MessageDeleted, RemoveChanges(old(View(state)), id), None)
    {
      next, transition := state, None;
      if id in messageIdsIndex {
        ghost var target, patches := Removed(View(state), id), RemoveChanges(View(state), id);
        RemoveKeepsConsistent(View(state), id);
        RemovedAt(View(state), id, messageIdsIndex[id]);
        RemovalKeepsUnread(View(state), id, messageIdsIndex[id]);
        var firstUnread, changes;
        messages, firstUnread, changes := DeleteAt(messages, messageIdsIndex[id], state.firstUnread);
        assert changes == patches;
        messageIdsIndex := RebuildIndex(messages);
        next := state.(firstUnread := firstUnread, revision := state.revision + 1);
        assert View(next) == target;
        transition := Some(Transition(next.revision, MessageDeleted, changes, None));
      }
    }
  }

  method Undivide(ms: seq<Message>, unread: nat) returns (r: seq<Message>, changes: seq<Change>)
    requires FullyPositioned(ms, Some(unread)) && unread < |ms|
    ensures r == Positioned(ms, None) && IndexOf(r) == IndexOf(ms)
    ensures changes == Patches(r, Span(SaturatingSub(unread, 1), unread + 1))
  {
    var start, end := SaturatingSub(unread, 1), Min(unread + 1, |ms|);
    r := RecomputeRange(ms, start, end, None);
    ClearSeam(ms, unread, r);
    SameIds(ms, r);
    assert ToSet(Range(start, end)) == Span(start, unread + 1);
    changes := PushPatchChanges([], r, Range(start, end));
  }

  method EditAt(ms: seq<Message>, idx: nat, updated: Message, unread: Option<nat>)
    returns (r: seq<Message>, changes: seq<Change>)
    requires FullyPositioned(ms, unread) && idx < |ms| && ms[idx].id == updated.id
    ensures r == Positioned(ms[idx := updated], unread) && IndexOf(r) == IndexOf(ms)
    ensures changes == Patches(r, Span(SaturatingSub(idx, 1), idx + 2))
  {
    var start, end := SaturatingSub(idx, 1), Min(idx + 2, |ms|);
    r := RecomputeRange(ms[idx := updated], start, end, unread);
    UpdateSeam(ms, idx, updated, unread, r);
    SameIds(ms, r);
    PatchesClip(r, start, idx + 2);
    assert ToSet(Range(start, end)) == Span(start, end);
    changes := PushPatchChanges([], r, Range(start, end));
  }

  method DeleteAt(ms: seq<Message>, idx: nat, unread: Option<nat>)
    returns (r: seq<Message>, firstUnread: Option<nat>, changes: seq<Change>)
    requires FullyPositioned(ms, unread) && idx < |ms| && (unread.Some? ==> unread.value < |ms|)
    ensures firstUnread == UnreadAfterRemoval(unread, idx, |ms| - 1)
    ensures r == Positioned(Without(ms, idx), firstUnread)
    ensures changes == [Splice(NewestIndex(|ms|, idx), [], 1)] + Patches(r, Span(SaturatingSub(idx, 1), idx + 1))
  {
    var rest := ms[..idx] + ms[idx + 1..];
    firstUnread :=
      if unread.None? then None
      else if unread.value > idx then CheckedSub(unread.value, 1)
      else if unread.value == idx then (if idx < |rest| then Some(idx) else None)
      else unread;
    var start, end := SaturatingSub(idx, 1), Min(idx + 1, |rest|);
    r := RecomputeRange(rest, start, end, firstUnread);
    RemoveSeam(ms, idx, unread, r);
    PatchesClip(r, start, idx + 1);
    assert ToSet(Range(start, end)) == Span(start, end);
    changes := PushPatchChanges([Splice(NewestIndex(|ms|, idx), [], 1)], r, Range(start, end));
  }

  /** `filter_map(|index| index.checked_sub(count))`. */
  function SubtractAll(indices: seq<nat>, count: nat): (r: seq<nat>)
    ensures forall k: nat {:trigger k in r} :: k in r <==> k + count in indices
  {
    if indices == [] then []
    else
      assert indices == [indices[0]] + indices[1..];
      (if indices[0] >= count then [indices[0] - count] else []) + SubtractAll(indices[1..], count)
  }

  /** Replacing messages by others with the same ids keeps the id index right. */
  lemma {:induction false} SameIds(a: seq<Message>, b: seq<Message>)
    requires |a| == |b| && forall i {:trigger b[i]} | 0 <= i < |a| :: a[i].id == b[i].id
    ensures IndexOf(a) == IndexOf(b)
    decreases |a|
  {
    if a != [] {
      assert a[|a| - 1].id == b[|a| - 1].id;
      SameIds(a[..|a| - 1], b[..|a| - 1]);
    }
  }

  /** Indices past the end contribute no patch. */
  lemma PatchesClip(ms: seq<Message>, start: nat, end: nat)
    ensures Patches(ms, Span(start, end)) == Patches(ms, Span(start, Min(end, |ms|)))
  {
    PatchesBelowAgree(ms, Span(start, end), Span(start, Min(end, |ms|)), |ms|);
  }

  lemma {:induction false} PatchesBelowAgree(ms: seq<Message>, s: set<nat>, t: set<nat>, n: nat)
    requires n <= |ms| && forall i | 0 <= i < n :: i in s <==> i in t
    ensures PatchesBelow(ms, s, n) == PatchesBelow(ms, t, n)
    decreases n
  {
    if n > 0 { PatchesBelowAgree(ms, s, t, n - 1); }
  }
}
