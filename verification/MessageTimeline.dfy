/**
 The window over a fixed timeline. Pages come from cursor queries with one sentinel row; whatever the
 sequence of loads and jumps, the window is a contiguous slice of the timeline and its flags say
 exactly what lies on either side.
 */
module MessageTimeline {
  import opened Prelude
  import opened Flights
  import opened MessageWindow
  import opened MessageList

  // ---- Store queries ----

  /** The pagination cursor: timestamp, then id. */
  datatype Cursor = Cursor(timestamp: int, id: MessageId)

  function CursorOf(m: Message): (c: Cursor) { Cursor(m.timestamp, m.id) }

  predicate Before(a: Cursor, b: Cursor) {
    a.timestamp < b.timestamp || (a.timestamp == b.timestamp && a.id < b.id)
  }

  /** A chat's messages in store order. */
  predicate Timeline(t: seq<Message>) {
    && AllBare(t)
    && forall i, j | 0 <= i < j < |t| :: Before(CursorOf(t[i]), CursorOf(t[j]))
  }

  datatype Where = Less(c: Cursor) | AtMost(c: Cursor) | More(c: Cursor)

  predicate Holds(w: Where, m: Message) {
    match w
    case Less(c) => Before(CursorOf(m), c)
    case AtMost(c) => !Before(c, CursorOf(m))
    case More(c) => Before(c, CursorOf(m))
  }

  /** The rows a condition selects, in ascending order. */
  function Select(t: seq<Message>, w: Where): (r: seq<Message>)
    ensures |r| <= |t|
  {
    if t == [] then []
    else Select(t[..|t| - 1], w) + (if Holds(w, t[|t| - 1]) then [t[|t| - 1]] else [])
  }

  /** The newest `limit + 1` rows; the extra oldest one only reports that there are more. */
  function TakeNewest(rows: seq<Message>, limit: nat): (r: (seq<Message>, bool)) {
    var fetched := if |rows| > limit + 1 then rows[|rows| - limit - 1..] else rows;
    if |fetched| > limit then (fetched[1..], true) else (fetched, false)
  }

  function TakeOldest(rows: seq<Message>, limit: nat): (r: (seq<Message>, bool)) {
    var fetched := if |rows| > limit + 1 then rows[..limit + 1] else rows;
    if |fetched| > limit then (fetched[..limit], true) else (fetched, false)
  }

  lemma TakesAreSlices(rows: seq<Message>, limit: nat)
    ensures TakeNewest(rows, limit) == (rows[SaturatingSub(|rows|, limit)..], |rows| > limit)
    ensures TakeOldest(rows, limit) == (rows[..Min(|rows|, limit)], |rows| > limit)
  {
    if |rows| > limit {
      assert rows[|rows| - limit - 1..][1..] == rows[|rows| - limit..];
      assert rows[..limit + 1][..limit] == rows[..limit];
    } else {
      assert rows[0..] == rows && rows[..|rows|] == rows;
    }
  }

  /** The page on either side of a place in the timeline. */
  lemma TakesAt(t: seq<Message>, k: nat, limit: nat)
    requires k <= |t|
    ensures TakeNewest(t[..k], limit) == (t[SaturatingSub(k, limit)..k], SaturatingSub(k, limit) > 0)
    ensures TakeOldest(t[k..], limit) == (t[k..k + Min(|t| - k, limit)], k + Min(|t| - k, limit) < |t|)
  {
    TakesAreSlices(t[..k], limit);
    TakesAreSlices(t[k..], limit);
    assert t[..k][SaturatingSub(k, limit)..] == t[SaturatingSub(k, limit)..k];
    assert t[k..][..Min(|t| - k, limit)] == t[k..k + Min(|t| - k, limit)];
  }

  /** A condition that holds of exactly the messages before `k`, or exactly those from `k` on. */
  lemma {:induction false} SelectIsSlice(t: seq<Message>, w: Where, k: nat, front: bool)
    requires k <= |t|
    requires forall i | 0 <= i < |t| :: Holds(w, t[i]) <==> (i < k) == front
    ensures Select(t, w) == if front then t[..k] else t[k..]
    decreases |t|
  {
    if t != [] {
      var n := |t| - 1;
      var rest := t[..n];
      forall i | 0 <= i < n ensures Holds(w, rest[i]) <==> (i < Min(k, n)) == front { assert rest[i] == t[i]; }
      SelectIsSlice(rest, w, Min(k, n), front);
      assert Holds(w, t[n]) <==> (n < k) == front;
      AppendSlices(rest, t[n], t, k);
    }
  }

  lemma AppendSlices(rest: seq<Message>, last: Message, t: seq<Message>, k: nat)
    requires t == rest + [last] && k <= |t|
    ensures k <= |rest| ==> t[..k] == rest[..k] && t[k..] == rest[k..] + [last]
    ensures k == |t| ==> t[..k] == rest[..|rest|] + [last] && t[k..] == rest[|rest|..]
  {
  }

  /** The cursor of a loaded message splits the timeline right before and right after that message. */
  lemma CursorSplits(t: seq<Message>, k: nat)
    requires Timeline(t) && k <= |t|
    ensures k < |t| ==> Select(t, Less(CursorOf(t[k]))) == t[..k]
    ensures k > 0 ==> Select(t, More(CursorOf(t[k - 1]))) == t[k..]
  {
    if k < |t| { SelectIsSlice(t, Less(CursorOf(t[k])), k, true); }
    if k > 0 { SelectIsSlice(t, More(CursorOf(t[k - 1])), k, false); }
  }

  /** Any cursor splits the timeline somewhere. */
  lemma {:induction false} AnyCursorSplits(t: seq<Message>, c: Cursor, k: nat)
    requires Timeline(t) && k <= |t|
    requires forall i | k <= i < |t| :: Before(c, CursorOf(t[i]))
    ensures var a := |Select(t, AtMost(c))|;
            Select(t, AtMost(c)) == t[..a] && Select(t, More(c)) == t[a..]
    decreases k
  {
    if k == 0 || !Before(c, CursorOf(t[k - 1])) {
      forall i | 0 <= i < k ensures !Before(c, CursorOf(t[i])) {
        if i < k - 1 { assert Before(CursorOf(t[i]), CursorOf(t[k - 1])); }
      }
      SelectIsSlice(t, AtMost(c), k, true);
      SelectIsSlice(t, More(c), k, false);
    } else {
      AnyCursorSplits(t, c, k - 1);
    }
  }

  // ---- Commands ----

  datatype Step =
    | Open(unread: Option<Message>, unreadCount: nat)
    | LoadOlder
    | LoadNewer
    | JumpToBottom
    | JumpTo(id: MessageId, found: Option<Message>)

  function FirstPosition(ms: seq<Message>, id: MessageId): (r: Option<nat>)
    ensures r.Some? ==> r.value < |ms| && ms[r.value].id == id
  {
    if ms == [] then None
    else if ms[0].id == id then Some(0)
    else
      var rest := FirstPosition(ms[1..], id);
      if rest.None? then None else Some(rest.value + 1)
  }

  function Bottom(t: seq<Message>, w: Window, command: Option<Command>): (r: Window) {
    var (page, hasOlder) := TakeNewest(t, PAGE_SIZE);
    Applied(w, page, None, Replace(hasOlder, false, true, None, 0, command))
  }

  /** The rows around a cursor, the cursor's own message in the older half. */
  function AroundPage(t: seq<Message>, c: Cursor): (r: (seq<Message>, bool, bool)) {
    var (backward, hasOlder) := TakeNewest(Select(t, AtMost(c)), PAGE_SIZE);
    var (forward, hasNewer) := TakeOldest(Select(t, More(c)), PAGE_SIZE);
    (backward + forward, hasOlder, hasNewer)
  }

  function Around(t: seq<Message>, w: Window, c: Cursor, unread: Option<MessageId>, unreadCount: nat,
                  command: Option<Command>): (r: Window) {
    var (page, hasOlder, hasNewer) := AroundPage(t, c);
    var firstUnread := if unread.None? then None else FirstPosition(page, unread.value);
    Applied(w, page, None, Replace(hasOlder, hasNewer, !hasNewer, firstUnread, unreadCount, command))
  }

  function Perform(t: seq<Message>, w: Window, s: Step): (r: Window) {
    match s
    case Open(None, _) => Bottom(t, w, None)
    case Open(Some(m), count) => Around(t, w, CursorOf(m), Some(m.id), count, None)
    case LoadOlder =>
      if w.messages == [] then w
      else
        var (page, hasOlder) := TakeNewest(Select(t, Less(CursorOf(w.messages[0]))), PAGE_SIZE);
        if page == [] then Window(w.messages, w.state.(hasOlder := hasOlder, revision := w.state.revision + 1))
        else OlderLoaded(w, page, hasOlder)
    case LoadNewer =>
      if w.messages == [] then w
      else
        var (page, hasNewer) := TakeOldest(Select(t, More(CursorOf(w.messages[|w.messages| - 1]))), PAGE_SIZE);
        if page == [] then Window(w.messages, w.state.(hasNewer := hasNewer, revision := w.state.revision + 1))
        else NewerLoaded(w, page, hasNewer)
    case JumpToBottom => Bottom(t, w, Some(ScrollToBottom))
    case JumpTo(id, found) =>
      if id in IndexOf(w.messages) then Window(w.messages, w.state.(revision := w.state.revision + 1))
      else if found.None? then w
      else Around(t, w, CursorOf(found.value), None, 0, Some(ScrollToId(id)))
  }

  function PerformAll(t: seq<Message>, w: Window, steps: seq<Step>): (r: Window)
    decreases |steps|
  {
    if steps == [] then w else PerformAll(t, Perform(t, w, steps[0]), steps[1..])
  }

  // ---- Contiguity ----

  /** The window is `t[lo..hi]`, and its flags tell the truth about both sides. */
  predicate SliceAt(t: seq<Message>, w: Window, lo: nat, hi: nat) {
    && lo <= hi <= |t|
    && Consistent(w)
    && Bare(w.messages) == t[lo..hi]
    && (w.state.hasOlder <==> lo > 0)
    && (w.state.hasNewer <==> hi < |t|)
    && (w.state.isAtBottom <==> hi == |t|)
  }

  ghost predicate Contiguous(t: seq<Message>, w: Window) {
    exists lo, hi :: SliceAt(t, w, lo, hi)
  }

  lemma BareSlice(t: seq<Message>, lo: nat, hi: nat)
    requires AllBare(t) && lo <= hi <= |t|
    ensures Bare(t[lo..hi]) == t[lo..hi]
  {
    assert forall i {:trigger t[lo..hi][i]} | 0 <= i < hi - lo :: t[lo..hi][i] == t[lo + i];
  }

  lemma ReplacedIsSlice(t: seq<Message>, w: Window, lo: nat, hi: nat, d: Direction)
    requires Timeline(t) && lo <= hi <= |t| && d.Replace?
    requires d.firstUnread.Some? ==> d.firstUnread.value < hi - lo
    requires (d.replaceHasOlder <==> lo > 0) && (d.replaceHasNewer <==> hi < |t|) && (d.isAtBottom <==> hi == |t|)
    ensures SliceAt(t, Applied(w, t[lo..hi], None, d), lo, hi)
  {
    PositionedIsConsistent(t[lo..hi], d.firstUnread);
    BareOfPositioned(t[lo..hi], d.firstUnread);
    BareSlice(t, lo, hi);
  }

  lemma BottomIsSlice(t: seq<Message>, w: Window, command: Option<Command>)
    requires Timeline(t)
    ensures Contiguous(t, Bottom(t, w, command))
  {
    TakesAt(t, |t|, PAGE_SIZE);
    assert t[..|t|] == t;
    var lo := SaturatingSub(|t|, PAGE_SIZE);
    ReplacedIsSlice(t, w, lo, |t|, Replace(|t| > PAGE_SIZE, false, true, None, 0, command));
  }

  lemma AroundPageIs(t: seq<Message>, c: Cursor) returns (lo: nat, hi: nat)
    requires Timeline(t)
    ensures lo <= hi <= |t|
    ensures AroundPage(t, c) == (t[lo..hi], lo > 0, hi < |t|)
  {
    var a := |Select(t, AtMost(c))|;
    AnyCursorSplits(t, c, |t|);
    TakesAt(t, a, PAGE_SIZE);
    lo, hi := SaturatingSub(a, PAGE_SIZE), a + Min(|t| - a, PAGE_SIZE);
    SlicesMeet(t, lo, a, hi);
  }

  lemma AroundIsSlice(t: seq<Message>, w: Window, c: Cursor, unread: Option<MessageId>, count: nat, command: Option<Command>)
    requires Timeline(t)
    ensures Contiguous(t, Around(t, w, c, unread, count, command))
  {
    var lo, hi := AroundPageIs(t, c);
    var firstUnread := if unread.None? then None else FirstPosition(t[lo..hi], unread.value);
    ReplacedIsSlice(t, w, lo, hi, Replace(lo > 0, hi < |t|, hi == |t|, firstUnread, count, command));
  }

  // ---- Where jumps lead ----

  lemma AtMostSplits(t: seq<Message>, k: nat)
    requires Timeline(t) && k < |t|
    ensures Select(t, AtMost(CursorOf(t[k]))) == t[..k + 1]
  {
    forall i | 0 <= i < |t|
      ensures Holds(AtMost(CursorOf(t[k])), t[i]) <==> i < k + 1
    {
      if i < k { assert Before(CursorOf(t[i]), CursorOf(t[k])); }
      if i > k { assert Before(CursorOf(t[k]), CursorOf(t[i])); }
    }
    SelectIsSlice(t, AtMost(CursorOf(t[k])), k + 1, true);
  }

  lemma AroundPageAt(t: seq<Message>, k: nat, lo: nat, hi: nat)
    requires Timeline(t) && k < |t| && lo == SaturatingSub(k + 1, PAGE_SIZE) && hi == k + 1 + Min(|t| - k - 1, PAGE_SIZE)
    ensures AroundPage(t, CursorOf(t[k])) == (t[lo..hi], lo > 0, hi < |t|)
  {
    AtMostSplits(t, k);
    CursorSplits(t, k + 1);
    TakesAt(t, k + 1, PAGE_SIZE);
    SlicesMeet(t, lo, k + 1, hi);
  }

  /** The window around message `k`: a page up to and including it, and a page after it. */
  lemma AroundShows(t: seq<Message>, w: Window, k: nat, unread: Option<MessageId>, count: nat, command: Option<Command>)
    requires Timeline(t) && k < |t|
    ensures var r := Around(t, w, CursorOf(t[k]), unread, count, command);
            SliceAt(t, r, SaturatingSub(k + 1, PAGE_SIZE), k + 1 + Min(|t| - k - 1, PAGE_SIZE))
  {
    var lo, hi := SaturatingSub(k + 1, PAGE_SIZE), k + 1 + Min(|t| - k - 1, PAGE_SIZE);
    AroundPageAt(t, k, lo, hi);
    var firstUnread := if unread.None? then None else FirstPosition(t[lo..hi], unread.value);
    ReplacedIsSlice(t, w, lo, hi, Replace(lo > 0, hi < |t|, hi == |t|, firstUnread, count, command));
  }

  predicate Shows(w: Window, id: MessageId) { exists i | 0 <= i < |w.messages| :: w.messages[i].id == id }

  lemma IndexedIffShown(w: Window, id: MessageId)
    ensures id in IndexOf(w.messages) <==> Shows(w, id)
  {
    if i :| 0 <= i < |w.messages| && w.messages[i].id == id { IndexOfIsLast(w.messages, i); }
  }

  lemma SliceShows(t: seq<Message>, w: Window, lo: nat, hi: nat, k: nat)
    requires SliceAt(t, w, lo, hi) && lo <= k < hi
    ensures |w.messages| == hi - lo && w.messages[k - lo].id == t[k].id && Shows(w, t[k].id)
  {
    assert |Bare(w.messages)| == hi - lo && Bare(w.messages)[k - lo] == t[k];
  }

  /** A jump shows its target, or changes nothing if the store has no such message. */
  lemma JumpShowsTarget(t: seq<Message>, w: Window, id: MessageId, found: Option<Message>, k: nat)
    requires Timeline(t)
    requires found.Some? ==> k < |t| && t[k].id == id && CursorOf(found.value) == CursorOf(t[k])
    ensures var r := Perform(t, w, JumpTo(id, found));
            && (Shows(w, id) ==> r.messages == w.messages)
            && (!Shows(w, id) && found.None? ==> r == w)
            && (!Shows(w, id) && found.Some? ==>
                  SliceAt(t, r, SaturatingSub(k + 1, PAGE_SIZE), k + 1 + Min(|t| - k - 1, PAGE_SIZE)))
            && (found.Some? ==> Shows(r, id))
  {
    IndexedIffShown(w, id);
    if !Shows(w, id) && found.Some? {
      AroundShows(t, w, k, None, 0, Some(ScrollToId(id)));
      AroundTarget(t, w, k, None, 0, Some(ScrollToId(id)));
    }
  }

  /** Opening at an unread message shows it; opening or jumping without one shows the newest messages. */
  lemma OpenShows(t: seq<Message>, w: Window, k: nat, count: nat)
    requires Timeline(t) && k < |t|
    ensures Shows(Perform(t, w, Open(Some(t[k]), count)), t[k].id)
    ensures Shows(Perform(t, w, Open(None, count)), t[|t| - 1].id) && Shows(Perform(t, w, JumpToBottom), t[|t| - 1].id)
  {
    AroundTarget(t, w, k, Some(t[k].id), count, None);
    BottomShows(t, w, None);
    BottomShows(t, w, Some(ScrollToBottom));
  }

  lemma AroundTarget(t: seq<Message>, w: Window, k: nat, unread: Option<MessageId>, count: nat, command: Option<Command>)
    requires Timeline(t) && k < |t|
    ensures Shows(Around(t, w, CursorOf(t[k]), unread, count, command), t[k].id)
  {
    var lo, hi := SaturatingSub(k + 1, PAGE_SIZE), k + 1 + Min(|t| - k - 1, PAGE_SIZE);
    AroundShows(t, w, k, unread, count, command);
    SliceShows(t, Around(t, w, CursorOf(t[k]), unread, count, command), lo, hi, k);
  }

  lemma BottomShows(t: seq<Message>, w: Window, command: Option<Command>)
    requires Timeline(t) && t != []
    ensures SliceAt(t, Bottom(t, w, command), SaturatingSub(|t|, PAGE_SIZE), |t|)
    ensures Shows(Bottom(t, w, command), t[|t| - 1].id)
  {
    TakesAt(t, |t|, PAGE_SIZE);
    assert t[..|t|] == t;
    var lo := SaturatingSub(|t|, PAGE_SIZE);
    ReplacedIsSlice(t, w, lo, |t|, Replace(|t| > PAGE_SIZE, false, true, None, 0, command));
    SliceShows(t, Bottom(t, w, command), lo, |t|, |t| - 1);
  }

  /** The cursors at the two ends of a window that shows `t[lo..hi]`. */
  lemma EndCursors(t: seq<Message>, ms: seq<Message>, lo: nat, hi: nat)
    requires lo < hi <= |t| && Bare(ms) == t[lo..hi]
    ensures |ms| == hi - lo
    ensures CursorOf(ms[0]) == CursorOf(t[lo]) && CursorOf(ms[hi - lo - 1]) == CursorOf(t[hi - 1])
  {
    assert |Bare(ms)| == hi - lo;
    assert Bare(ms)[0] == t[lo] && Bare(ms)[hi - lo - 1] == t[hi - 1];
  }

  /** What a window `t[lo..hi]` asks the store for at its older end, and gets. */
  lemma OlderPageIs(t: seq<Message>, w: Window, lo: nat, hi: nat, newLo: nat)
    requires Timeline(t) && lo < hi <= |t| && Bare(w.messages) == t[lo..hi] && newLo == SaturatingSub(lo, PAGE_SIZE)
    ensures |w.messages| == hi - lo
    ensures TakeNewest(Select(t, Less(CursorOf(w.messages[0]))), PAGE_SIZE) == (t[newLo..lo], newLo > 0)
  {
    EndCursors(t, w.messages, lo, hi);
    CursorSplits(t, lo);
    TakesAt(t, lo, PAGE_SIZE);
  }

  lemma NewerPageIs(t: seq<Message>, w: Window, lo: nat, hi: nat, newHi: nat)
    requires Timeline(t) && lo < hi <= |t| && Bare(w.messages) == t[lo..hi] && newHi == hi + Min(|t| - hi, PAGE_SIZE)
    ensures |w.messages| == hi - lo
    ensures TakeOldest(Select(t, More(CursorOf(w.messages[hi - lo - 1]))), PAGE_SIZE) == (t[hi..newHi], newHi < |t|)
  {
    EndCursors(t, w.messages, lo, hi);
    CursorSplits(t, hi);
    TakesAt(t, hi, PAGE_SIZE);
  }

  /** What a load does with a known page. */
  lemma PerformOlder(t: seq<Message>, w: Window, page: seq<Message>, hasOlder: bool)
    requires w.messages != [] && TakeNewest(Select(t, Less(CursorOf(w.messages[0]))), PAGE_SIZE) == (page, hasOlder)
    ensures Perform(t, w, LoadOlder) ==
            if page == [] then Window(w.messages, w.state.(hasOlder := hasOlder, revision := w.state.revision + 1))
            else OlderLoaded(w, page, hasOlder)
  {
  }

  lemma PerformNewer(t: seq<Message>, w: Window, page: seq<Message>, hasNewer: bool)
    requires w.messages != []
    requires TakeOldest(Select(t, More(CursorOf(w.messages[|w.messages| - 1]))), PAGE_SIZE) == (page, hasNewer)
    ensures Perform(t, w, LoadNewer) ==
            if page == [] then Window(w.messages, w.state.(hasNewer := hasNewer, revision := w.state.revision + 1))
            else NewerLoaded(w, page, hasNewer)
  {
  }

  lemma OlderIsSlice(t: seq<Message>, w: Window, lo: nat, hi: nat)
    requires Timeline(t) && SliceAt(t, w, lo, hi)
    ensures Contiguous(t, Perform(t, w, LoadOlder))
  {
    assert |Bare(w.messages)| == hi - lo;
    if w.messages == [] {
      assert SliceAt(t, w, lo, hi);
    } else {
      var newLo := SaturatingSub(lo, PAGE_SIZE);
      OlderPageIs(t, w, lo, hi, newLo);
      PerformOlder(t, w, t[newLo..lo], newLo > 0);
      if newLo == lo {
        assert SliceAt(t, Perform(t, w, LoadOlder), lo, hi);
      } else {
        OlderLoadedIsSlice(t, w, newLo, lo, hi);
      }
    }
  }

  lemma OlderLoadedIsSlice(t: seq<Message>, w: Window, newLo: nat, lo: nat, hi: nat)
    requires Timeline(t) && SliceAt(t, w, lo, hi) && newLo <= lo
    ensures var r := OlderLoaded(w, t[newLo..lo], newLo > 0); SliceAt(t, r, newLo, hi - Evicted(hi - newLo))
  {
    assert |Bare(w.messages)| == hi - lo;
    var page, e := t[newLo..lo], Evicted(hi - newLo);
    OlderKeepsConsistent(w, page, newLo > 0);
    KeptOlder(t, w.messages, newLo, lo, hi, e);
    BareOfPositioned(KeepOldest(page, w.messages, e), ShiftUp(w.state.firstUnread, |page|, hi - newLo - e));
  }

  lemma KeptOlder(t: seq<Message>, ms: seq<Message>, newLo: nat, lo: nat, hi: nat, e: nat)
    requires AllBare(t) && newLo <= lo <= hi <= |t| && Bare(ms) == t[lo..hi] && e <= hi - newLo
    ensures |ms| == hi - lo
    ensures Bare(KeepOldest(t[newLo..lo], ms, e)) == t[newLo..hi - e]
  {
    assert |Bare(ms)| == hi - lo;
    forall i | 0 <= i < hi - e - newLo ensures Bare(KeepOldest(t[newLo..lo], ms, e))[i] == t[newLo..hi - e][i] {
      if i >= lo - newLo { assert Bare(ms)[i - (lo - newLo)] == t[newLo + i]; }
    }
  }

  lemma KeptNewer(t: seq<Message>, ms: seq<Message>, lo: nat, hi: nat, newHi: nat, e: nat)
    requires AllBare(t) && lo <= hi <= newHi <= |t| && Bare(ms) == t[lo..hi] && e <= newHi - lo
    ensures |ms| == hi - lo
    ensures Bare(KeepNewest(ms, t[hi..newHi], e)) == t[lo + e..newHi]
  {
    assert |Bare(ms)| == hi - lo;
    forall i | 0 <= i < newHi - e - lo ensures Bare(KeepNewest(ms, t[hi..newHi], e))[i] == t[lo + e..newHi][i] {
      if i + e < hi - lo { assert Bare(ms)[i + e] == t[lo + e + i]; }
    }
  }

  lemma NewerIsSlice(t: seq<Message>, w: Window, lo: nat, hi: nat)
    requires Timeline(t) && SliceAt(t, w, lo, hi)
    ensures Contiguous(t, Perform(t, w, LoadNewer))
  {
    assert |Bare(w.messages)| == hi - lo;
    if w.messages == [] {
      assert SliceAt(t, w, lo, hi);
    } else {
      var newHi := hi + Min(|t| - hi, PAGE_SIZE);
      NewerPageIs(t, w, lo, hi, newHi);
      PerformNewer(t, w, t[hi..newHi], newHi < |t|);
      if newHi == hi {
        assert SliceAt(t, Perform(t, w, LoadNewer), lo, hi);
      } else {
        NewerLoadedIsSlice(t, w, lo, hi, newHi);
      }
    }
  }

  lemma NewerLoadedIsSlice(t: seq<Message>, w: Window, lo: nat, hi: nat, newHi: nat)
    requires Timeline(t) && SliceAt(t, w, lo, hi) && hi <= newHi <= |t|
    ensures var r := NewerLoaded(w, t[hi..newHi], newHi < |t|); SliceAt(t, r, lo + Evicted(newHi - lo), newHi)
  {
    assert |Bare(w.messages)| == hi - lo;
    var page, e := t[hi..newHi], Evicted(newHi - lo);
    NewerKeepsConsistent(w, page, newHi < |t|);
    KeptNewer(t, w.messages, lo, hi, newHi, e);
    BareOfPositioned(KeepNewest(w.messages, page, e), ShiftDown(w.state.firstUnread, e));
  }

  lemma StepStaysContiguous(t: seq<Message>, w: Window, s: Step)
    requires Timeline(t) && (s.Open? || Contiguous(t, w))
    ensures Contiguous(t, Perform(t, w, s))
  {
    match s
    case Open(unread, count) =>
      if unread.None? { BottomIsSlice(t, w, None); }
      else { AroundIsSlice(t, w, CursorOf(unread.value), Some(unread.value.id), count, None); }
    case LoadOlder => var lo, hi :| SliceAt(t, w, lo, hi); OlderIsSlice(t, w, lo, hi);
    case LoadNewer => var lo, hi :| SliceAt(t, w, lo, hi); NewerIsSlice(t, w, lo, hi);
    case JumpToBottom => BottomIsSlice(t, w, Some(ScrollToBottom));
    case JumpTo(id, found) =>
      if id in IndexOf(w.messages) {
        var lo, hi :| SliceAt(t, w, lo, hi);
        assert SliceAt(t, Perform(t, w, s), lo, hi);
      } else if found.Some? {
        AroundIsSlice(t, w, CursorOf(found.value), None, 0, Some(ScrollToId(id)));
      }
  }

  /** After the first load, every sequence of loads and jumps leaves a contiguous, truthfully flagged window. */
  lemma {:induction false} WindowStaysContiguous(t: seq<Message>, w: Window, steps: seq<Step>)
    requires Timeline(t) && (Contiguous(t, w) || (steps != [] && steps[0].Open?))
    ensures Contiguous(t, PerformAll(t, w, steps))
    decreases |steps|
  {
    if steps != [] {
      StepStaysContiguous(t, w, steps[0]);
      WindowStaysContiguous(t, Perform(t, w, steps[0]), steps[1..]);
    }
  }
}
