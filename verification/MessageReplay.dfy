/**
 Which links between neighbours an operation can change, and what follows for the UI mirror: every
 transition is right apart from positions, the in-place edits are right including positions, and a
 loaded page is right including positions exactly when no two neighbours of the page share a flight.
 */
module MessageReplay {
  import opened Prelude
  import opened Flights
  import opened MessageDiff
  import opened MessageWindow

  // ---- Links before and after ----

  lemma OlderLinks(page: seq<Message>, ms: seq<Message>, u: Option<nat>, e: nat, k: int)
    requires (u.Some? ==> u.value < |ms|) && e <= |page| + |ms|
    requires k != |page|
    ensures var kept := KeepOldest(page, ms, e);
            Linked(kept, k, ShiftUp(u, |page|, |kept|)) ==
              if k >= |kept| then false
              else if k < |page| then Linked(page, k, None)
              else Linked(ms, k - |page|, u)
  {
    var kept := KeepOldest(page, ms, e);
    if 0 < k < |kept| {
      if k < |page| {
        assert kept[k - 1] == page[k - 1] && kept[k] == page[k];
      } else {
        assert kept[k - 1] == ms[k - 1 - |page|] && kept[k] == ms[k - |page|];
      }
    }
  }

  lemma NewerLinks(ms: seq<Message>, page: seq<Message>, u: Option<nat>, e: nat, k: int)
    requires (u.Some? ==> u.value < |ms|) && e <= |ms| + |page|
    requires k + e != |ms|
    ensures Linked(KeepNewest(ms, page, e), k, ShiftDown(u, e)) ==
              if k <= 0 then false
              else if k + e < |ms| then Linked(ms, k + e, u)
              else Linked(page, k + e - |ms|, None)
  {
    var kept := KeepNewest(ms, page, e);
    if 0 < k < |kept| {
      if k + e < |ms| {
        assert kept[k - 1] == ms[k - 1 + e] && kept[k] == ms[k + e];
      } else {
        assert kept[k - 1] == page[k - 1 + e - |ms|] && kept[k] == page[k + e - |ms|];
      }
    }
  }

  lemma ClearLinks(ms: seq<Message>, u: nat, k: int)
    requires k != u
    ensures Linked(ms, k, None) == Linked(ms, k, Some(u))
  {
  }

  lemma UpdateLinks(ms: seq<Message>, i: nat, m: Message, divider: Option<nat>, k: int)
    requires i < |ms| && k != i && k != i + 1
    ensures Linked(ms[i := m], k, divider) == Linked(ms, k, divider)
  {
  }

  lemma RemoveLinks(ms: seq<Message>, i: nat, u: Option<nat>, k: int)
    requires i < |ms| && k != i
    requires u.Some? ==> u.value < |ms|
    ensures Linked(Without(ms, i), k, UnreadAfterRemoval(u, i, |ms| - 1)) ==
            if k < i then Linked(ms, k, u) else Linked(ms, k + 1, u)
  {
  }

  /** A cell whose two links did not change keeps its position. */
  lemma SameCell(ms: seq<Message>, d: Option<nat>, i: nat, old_: seq<Message>, d0: Option<nat>, k: nat)
    requires i < |ms| && k < |old_| && ms[i] == old_[k] && old_[k].position == PositionAt(old_, k, d0)
    requires Linked(ms, i, d) == Linked(old_, k, d0) && Linked(ms, i + 1, d) == Linked(old_, k + 1, d0)
    ensures Positioned(ms, d)[i] == old_[k]
  {
  }

  // ---- Cells outside the patched indices ----

  /** An old message that is not patched keeps its position when an older page arrives. */
  lemma OlderOldCell(page: seq<Message>, ms: seq<Message>, u: Option<nat>, e: nat, i: nat)
    requires (u.Some? ==> u.value < |ms|) && e <= |page| + |ms|
    requires |page| <= i < |page| + |ms| - e && i !in OlderPatches(|ms|, |page|, e)
    requires ms[i - |page|].position == PositionAt(ms, i - |page|, u)
    ensures Positioned(KeepOldest(page, ms, e), ShiftUp(u, |page|, |page| + |ms| - e))[i] == ms[i - |page|]
  {
    var kept := KeepOldest(page, ms, e);
    var d := ShiftUp(u, |page|, |kept|);
    assert Linked(kept, i, d) == Linked(ms, i - |page|, u) by {
      if i > |page| { OlderLinks(page, ms, u, e, i); }
    }
    assert Linked(kept, i + 1, d) == Linked(ms, i + 1 - |page|, u) by { OlderLinks(page, ms, u, e, i + 1); }
    SameCell(kept, d, i, ms, u, i - |page|);
  }

  lemma NewerOldCell(ms: seq<Message>, page: seq<Message>, u: Option<nat>, e: nat, i: nat)
    requires (u.Some? ==> u.value < |ms|) && e <= |ms| + |page|
    requires i + e < |ms| && i !in NewerPatches(|ms|, |page|, e)
    requires ms[i + e].position == PositionAt(ms, i + e, u)
    ensures Positioned(KeepNewest(ms, page, e), ShiftDown(u, e))[i] == ms[i + e]
  {
    var kept := KeepNewest(ms, page, e);
    var d := ShiftDown(u, e);
    assert Linked(kept, i, d) == Linked(ms, i + e, u) by { NewerLinks(ms, page, u, e, i); }
    assert Linked(kept, i + 1, d) == Linked(ms, i + e + 1, u) by {
      if i + e + 1 < |ms| { NewerLinks(ms, page, u, e, i + 1); } else { assert page == []; }
    }
    SameCell(kept, d, i, ms, u, i + e);
  }

  /** A page message that is not patched has the position it has within the page alone. */
  lemma OlderPageCell(page: seq<Message>, ms: seq<Message>, u: Option<nat>, e: nat, i: nat)
    requires (u.Some? ==> u.value < |ms|) && e <= |page| + |ms|
    requires i < |page| && i < |page| + |ms| - e && i !in OlderPatches(|ms|, |page|, e)
    ensures Positioned(KeepOldest(page, ms, e), ShiftUp(u, |page|, |page| + |ms| - e))[i]
         == page[i].(position := PositionAt(page, i, None))
  {
    var kept := KeepOldest(page, ms, e);
    var d := ShiftUp(u, |page|, |kept|);
    OlderLinks(page, ms, u, e, i);
    assert Linked(kept, i, d) == Linked(page, i, None);
    if i + 1 < |page| { OlderLinks(page, ms, u, e, i + 1); }
    assert Linked(kept, i + 1, d) == Linked(page, i + 1, None);
  }

  lemma NewerPageCell(ms: seq<Message>, page: seq<Message>, u: Option<nat>, e: nat, i: nat)
    requires (u.Some? ==> u.value < |ms|) && e <= |ms| + |page|
    requires |ms| <= i + e < |ms| + |page| && i !in NewerPatches(|ms|, |page|, e)
    ensures Positioned(KeepNewest(ms, page, e), ShiftDown(u, e))[i]
         == page[i + e - |ms|].(position := PositionAt(page, i + e - |ms|, None))
  {
    var kept := KeepNewest(ms, page, e);
    var d := ShiftDown(u, e);
    var j := i + e - |ms|;
    assert Linked(kept, i, d) == Linked(page, j, None) by {
      if j > 0 { NewerLinks(ms, page, u, e, i); }
    }
    assert Linked(kept, i + 1, d) == Linked(page, j + 1, None) by { NewerLinks(ms, page, u, e, i + 1); }
  }

  // ---- Pages ----

  /** No two neighbours of the page that stay in the window share a flight. */
  predicate OlderPageSplits(page: seq<Message>) {
    forall j | 0 < j < Min(|page|, MAX_WINDOW) :: !Linked(page, j, None)
  }

  predicate NewerPageSplits(n: nat, page: seq<Message>) {
    forall j | 0 < j < |page| && Evicted(n + |page|) < n + j :: !Linked(page, j, None)
  }

  lemma OlderSplitCell(page: seq<Message>, ms: seq<Message>, u: Option<nat>, e: nat, i: nat)
    requires (u.Some? ==> u.value < |ms|) && e <= |page| + |ms|
    requires i < |page| && i < |page| + |ms| - e && i !in OlderPatches(|ms|, |page|, e)
    requires page[i].position == Single && !Linked(page, i, None) && !Linked(page, i + 1, None)
    ensures Positioned(KeepOldest(page, ms, e), ShiftUp(u, |page|, |page| + |ms| - e))[i] == page[i]
  {
    OlderPageCell(page, ms, u, e, i);
  }

  lemma NewerSplitCell(ms: seq<Message>, page: seq<Message>, u: Option<nat>, e: nat, i: nat)
    requires (u.Some? ==> u.value < |ms|) && e <= |ms| + |page|
    requires |ms| <= i + e < |ms| + |page| && i !in NewerPatches(|ms|, |page|, e)
    requires page[i + e - |ms|].position == Single
    requires !Linked(page, i + e - |ms|, None) && !Linked(page, i + e - |ms| + 1, None)
    ensures Positioned(KeepNewest(ms, page, e), ShiftDown(u, e))[i] == page[i + e - |ms|]
  {
    NewerPageCell(ms, page, u, e, i);
  }

  lemma OlderExactCell(page: seq<Message>, ms: seq<Message>, u: Option<nat>, e: nat, j: nat)
    requires (u.Some? ==> u.value < |ms|) && e <= |page| + |ms|
    requires 0 < j < |page| && j < |page| + |ms| - e && page[j - 1].position == Single
    requires Positioned(KeepOldest(page, ms, e), ShiftUp(u, |page|, |page| + |ms| - e))[j - 1] == page[j - 1]
    ensures !Linked(page, j, None)
  {
    OlderPageCell(page, ms, u, e, j - 1);
  }

  lemma NewerExactCell(ms: seq<Message>, page: seq<Message>, u: Option<nat>, e: nat, j: nat)
    requires (u.Some? ==> u.value < |ms|) && e <= |ms| + |page|
    requires 0 < j < |page| && e < |ms| + j && page[j].position == Single
    requires Positioned(KeepNewest(ms, page, e), ShiftDown(u, e))[|ms| + j - e] == page[j]
    ensures !Linked(page, j, None)
  {
    NewerPageCell(ms, page, u, e, |ms| + j - e);
  }

  /** The window after an older page, and the mirror's copy of it, on plain sequences. */
  function OlderResult(page: seq<Message>, ms: seq<Message>, u: Option<nat>, e: nat): (r: seq<Message>)
    requires e <= |page| + |ms|
    ensures |r| == |page| + |ms| - e
  {
    Positioned(KeepOldest(page, ms, e), ShiftUp(u, |page|, |page| + |ms| - e))
  }

  function NewerResult(ms: seq<Message>, page: seq<Message>, u: Option<nat>, e: nat): (r: seq<Message>)
    requires e <= |ms| + |page|
    ensures |r| == |ms| + |page| - e
  {
    Positioned(KeepNewest(ms, page, e), ShiftDown(u, e))
  }

  lemma OlderUnfolds(w: Window, page: seq<Message>, hasOlder: bool, e: nat)
    requires e == Evicted(|page| + |w.messages|)
    ensures OlderLoaded(w, page, hasOlder).messages == OlderResult(page, w.messages, w.state.firstUnread, e)
    ensures var hasNewer := w.state.hasNewer || e > 0;
            OlderLoaded(w, page, hasOlder).state ==
            w.state.(hasOlder := hasOlder, hasNewer := hasNewer, isAtBottom := !hasNewer && w.state.isAtBottom,
                     firstUnread := ShiftUp(w.state.firstUnread, |page|, |page| + |w.messages| - e),
                     revision := w.state.revision + 1)
    ensures OlderChanges(w, page, hasOlder)
         == OlderSplices(|w.messages|, page) + Patches(OlderResult(page, w.messages, w.state.firstUnread, e),
                                                       OlderPatches(|w.messages|, |page|, e))
  {
  }

  lemma NewerUnfolds(w: Window, page: seq<Message>, hasNewer: bool, e: nat)
    requires e == Evicted(|w.messages| + |page|)
    ensures NewerLoaded(w, page, hasNewer).messages == NewerResult(w.messages, page, w.state.firstUnread, e)
    ensures NewerLoaded(w, page, hasNewer).state ==
            w.state.(hasOlder := w.state.hasOlder || e > 0, hasNewer := hasNewer, isAtBottom := !hasNewer,
                     firstUnread := ShiftDown(w.state.firstUnread, e), revision := w.state.revision + 1)
    ensures NewerChanges(w, page, hasNewer)
         == NewerSplices(|w.messages|, page) + Patches(NewerResult(w.messages, page, w.state.firstUnread, e),
                                                       NewerPatches(|w.messages|, |page|, e))
  {
  }

  lemma OlderSplitIsExact(page: seq<Message>, ms: seq<Message>, u: Option<nat>, e: nat)
    requires FullyPositioned(ms, u) && AllBare(page) && (u.Some? ==> u.value < |ms|) && e <= |page| + |ms|
    requires forall j | 0 < j < |page| && j < |page| + |ms| - e :: !Linked(page, j, None)
    ensures Overlay(KeepOldest(page, ms, e), OlderResult(page, ms, u, e), OlderPatches(|ms|, |page|, e))
         == OlderResult(page, ms, u, e)
  {
    var kept := KeepOldest(page, ms, e);
    forall i | 0 <= i < |kept| && i !in OlderPatches(|ms|, |page|, e)
      ensures OlderResult(page, ms, u, e)[i] == kept[i]
    {
      if i < |page| {
        assert !Linked(page, i, None) && !Linked(page, i + 1, None);
        OlderSplitCell(page, ms, u, e, i);
      } else {
        OlderOldCell(page, ms, u, e, i);
      }
    }
  }

  lemma NewerSplitIsExact(ms: seq<Message>, page: seq<Message>, u: Option<nat>, e: nat)
    requires FullyPositioned(ms, u) && AllBare(page) && (u.Some? ==> u.value < |ms|) && e <= |ms| + |page|
    requires forall j | 0 < j < |page| && e < |ms| + j :: !Linked(page, j, None)
    ensures Overlay(KeepNewest(ms, page, e), NewerResult(ms, page, u, e), NewerPatches(|ms|, |page|, e))
         == NewerResult(ms, page, u, e)
  {
    var kept := KeepNewest(ms, page, e);
    forall i | 0 <= i < |kept| && i !in NewerPatches(|ms|, |page|, e)
      ensures NewerResult(ms, page, u, e)[i] == kept[i]
    {
      if i + e < |ms| {
        NewerOldCell(ms, page, u, e, i);
      } else {
        assert !Linked(page, i + e - |ms|, None) && !Linked(page, i + e - |ms| + 1, None);
        NewerSplitCell(ms, page, u, e, i);
      }
    }
  }

  lemma OlderExactIsSplit(page: seq<Message>, ms: seq<Message>, u: Option<nat>, e: nat, j: nat)
    requires AllBare(page) && (u.Some? ==> u.value < |ms|) && e <= |page| + |ms|
    requires 0 < j < |page| && j < |page| + |ms| - e
    requires Overlay(KeepOldest(page, ms, e), OlderResult(page, ms, u, e), OlderPatches(|ms|, |page|, e))[j - 1]
          == OlderResult(page, ms, u, e)[j - 1]
    ensures !Linked(page, j, None)
  {
    assert j - 1 !in OlderPatches(|ms|, |page|, e);
    OlderExactCell(page, ms, u, e, j);
  }

  lemma NewerExactIsSplit(ms: seq<Message>, page: seq<Message>, u: Option<nat>, e: nat, j: nat)
    requires AllBare(page) && (u.Some? ==> u.value < |ms|) && e <= |ms| + |page|
    requires 0 < j < |page| && e < |ms| + j
    requires Overlay(KeepNewest(ms, page, e), NewerResult(ms, page, u, e), NewerPatches(|ms|, |page|, e))[|ms| + j - e]
          == NewerResult(ms, page, u, e)[|ms| + j - e]
    ensures !Linked(page, j, None)
  {
    assert |ms| + j - e !in NewerPatches(|ms|, |page|, e);
    NewerExactCell(ms, page, u, e, j);
  }

  /**
   The mirror of an exact window stays exact over an older page if and only if no two surviving
   neighbours of the page share a flight: the page is snapshotted before its positions are computed.
   */
  lemma OlderExactIff(w: Window, page: seq<Message>, hasOlder: bool)
    requires Consistent(w) && AllBare(page)
    ensures OlderShown(w, w.messages, page, hasOlder) == OlderLoaded(w, page, hasOlder).messages
       <==> OlderPageSplits(page)
  {
    var ms, u := w.messages, w.state.firstUnread;
    var e := Evicted(|page| + |ms|);
    assert OlderLoaded(w, page, hasOlder).messages == OlderResult(page, ms, u, e);
    if OlderPageSplits(page) {
      OlderSplitIsExact(page, ms, u, e);
    }
    if OlderShown(w, ms, page, hasOlder) == OlderLoaded(w, page, hasOlder).messages {
      forall j | 0 < j < Min(|page|, MAX_WINDOW) ensures !Linked(page, j, None) {
        OlderExactIsSplit(page, ms, u, e, j);
      }
    }
  }

  lemma NewerExactIff(w: Window, page: seq<Message>, hasNewer: bool)
    requires Consistent(w) && AllBare(page)
    ensures NewerShown(w, w.messages, page, hasNewer) == NewerLoaded(w, page, hasNewer).messages
       <==> NewerPageSplits(|w.messages|, page)
  {
    var ms, u := w.messages, w.state.firstUnread;
    var e := Evicted(|ms| + |page|);
    assert NewerLoaded(w, page, hasNewer).messages == NewerResult(ms, page, u, e);
    if NewerPageSplits(|ms|, page) {
      NewerSplitIsExact(ms, page, u, e);
    }
    if NewerShown(w, ms, page, hasNewer) == NewerLoaded(w, page, hasNewer).messages {
      forall j | 0 < j < |page| && e < |ms| + j ensures !Linked(page, j, None) {
        NewerExactIsSplit(ms, page, u, e, j);
      }
    }
  }

  /** One loaded message and an older page of one flight from someone else: the mirror keeps `Single` where the window has `Start`. */
  lemma PageReplayCanBeInexact()
    ensures exists w: Window, page: seq<Message> ::
              w.messages != [] && Consistent(w) && AllBare(page)
              && OlderShown(w, w.messages, page, false) != OlderLoaded(w, page, false).messages
  {
    var m := Message(1, 0, Content(7, ""), 0, [], Single);
    var page := [m, m.(id := 2)];
    var w := Window([Message(3, 0, Content(8, ""), 0, [], Single)], State(None, true, false, true, None, 0, 0));
    OlderExactIff(w, page, false);
    assert Linked(page, 1, None);
  }

  lemma KeepModuloPosition(a: seq<Message>, b: seq<Message>, page: seq<Message>, e: nat)
    requires Bare(a) == Bare(b) && e <= |a| + |page|
    ensures |a| == |b|
    ensures Bare(KeepOldest(page, a, e)) == Bare(KeepOldest(page, b, e))
    ensures Bare(KeepNewest(a, page, e)) == Bare(KeepNewest(b, page, e))
  {
    assert |Bare(a)| == |Bare(b)|;
    forall i | |page| <= i < |page| + |a| - e
      ensures Bare(KeepOldest(page, a, e))[i] == Bare(KeepOldest(page, b, e))[i]
    {
      assert Bare(a)[i - |page|] == Bare(b)[i - |page|];
    }
    forall i | 0 <= i < |page| + |a| - e
      ensures Bare(KeepNewest(a, page, e))[i] == Bare(KeepNewest(b, page, e))[i]
    {
      if i + e < |a| { assert Bare(a)[i + e] == Bare(b)[i + e]; }
    }
  }

  /**
   Apart from positions, a page load always takes the mirror to the new window, and the patched
   entries are right including positions.
   */
  lemma OlderModuloPosition(w: Window, shown: seq<Message>, page: seq<Message>, hasOlder: bool)
    requires Bare(shown) == Bare(w.messages)
    ensures |shown| == |w.messages|
    ensures Bare(OlderShown(w, shown, page, hasOlder)) == Bare(OlderLoaded(w, page, hasOlder).messages)
    ensures forall i | i in OlderPatches(|shown|, |page|, Evicted(|page| + |shown|))
                    && i < |OlderLoaded(w, page, hasOlder).messages| ::
              OlderShown(w, shown, page, hasOlder)[i] == OlderLoaded(w, page, hasOlder).messages[i]
  {
    assert |Bare(shown)| == |Bare(w.messages)|;
    var e := Evicted(|page| + |shown|);
    KeepModuloPosition(shown, w.messages, page, e);
    OverlayModuloPosition(KeepOldest(page, shown, e), KeepOldest(page, w.messages, e),
                          OlderLoaded(w, page, hasOlder).state.firstUnread, OlderPatches(|shown|, |page|, e));
  }

  lemma NewerModuloPosition(w: Window, shown: seq<Message>, page: seq<Message>, hasNewer: bool)
    requires Bare(shown) == Bare(w.messages)
    ensures |shown| == |w.messages|
    ensures Bare(NewerShown(w, shown, page, hasNewer)) == Bare(NewerLoaded(w, page, hasNewer).messages)
    ensures forall i | i in NewerPatches(|shown|, |page|, Evicted(|shown| + |page|))
                    && i < |NewerLoaded(w, page, hasNewer).messages| ::
              NewerShown(w, shown, page, hasNewer)[i] == NewerLoaded(w, page, hasNewer).messages[i]
  {
    assert |Bare(shown)| == |Bare(w.messages)|;
    var e := Evicted(|shown| + |page|);
    KeepModuloPosition(shown, w.messages, page, e);
    OverlayModuloPosition(KeepNewest(shown, page, e), KeepNewest(w.messages, page, e),
                          NewerLoaded(w, page, hasNewer).state.firstUnread, NewerPatches(|shown|, |page|, e));
  }

  // ---- Edits in place ----

  function ClearShown(w: Window, shown: seq<Message>): (r: seq<Message>)
    requires |shown| == |w.messages|
  {
    match w.state.firstUnread
    case None => shown
    case Some(u) => Overlay(shown, DividerCleared(w).messages, Span(SaturatingSub(u, 1), u + 1))
  }

  function UpdateShown(w: Window, shown: seq<Message>, m: Message): (r: seq<Message>)
    requires |shown| == |w.messages|
  {
    match Find(w.messages, m.id)
    case None => shown
    case Some(i) =>
      if w.messages[i] == m then shown
      else Overlay(shown, Updated(w, m).messages, Span(SaturatingSub(i, 1), i + 2))
  }

  function RemoveShown(w: Window, shown: seq<Message>, id: MessageId): (r: seq<Message>)
    requires |shown| == |w.messages|
  {
    match Find(w.messages, id)
    case None => shown
    case Some(i) => Overlay(Without(shown, i), Removed(w, id).messages, Span(SaturatingSub(i, 1), i + 1))
  }

  lemma ClearReplay(w: Window, shown: seq<Message>)
    requires |shown| == |w.messages|
    ensures Replay(Newest(shown), ClearChanges(w)) == Some(Newest(ClearShown(w, shown)))
  {
    if w.state.firstUnread.Some? {
      var u := w.state.firstUnread.value;
      ReplayPatches(shown, DividerCleared(w).messages, Span(SaturatingSub(u, 1), u + 1));
    }
  }

  lemma UpdateReplay(w: Window, shown: seq<Message>, m: Message)
    requires |shown| == |w.messages|
    ensures Replay(Newest(shown), UpdateChanges(w, m)) == Some(Newest(UpdateShown(w, shown, m)))
  {
    if Find(w.messages, m.id).Some? {
      var i := Find(w.messages, m.id).value;
      ReplayPatches(shown, Positioned(w.messages[i := m], w.state.firstUnread), Span(SaturatingSub(i, 1), i + 2));
    }
  }

  lemma RemoveReplay(w: Window, shown: seq<Message>, id: MessageId)
    requires |shown| == |w.messages|
    ensures Replay(Newest(shown), RemoveChanges(w, id)) == Some(Newest(RemoveShown(w, shown, id)))
  {
    if Find(w.messages, id).Some? {
      var i := Find(w.messages, id).value;
      DeleteOne(shown, i);
      ReplayTransition(shown, [Splice(NewestIndex(|shown|, i), [], 1)], [], Without(shown, i),
                       Removed(w, id).messages, Span(SaturatingSub(i, 1), i + 1));
    }
  }

  lemma ClearExact(w: Window)
    requires Consistent(w)
    ensures ClearShown(w, w.messages) == DividerCleared(w).messages
  {
    if w.state.firstUnread.Some? {
      var u := w.state.firstUnread.value;
      forall i | 0 <= i < |w.messages| && i != u && i + 1 != u
        ensures Positioned(w.messages, None)[i] == w.messages[i]
      {
        ClearLinks(w.messages, u, i);
        ClearLinks(w.messages, u, i + 1);
        SameCell(w.messages, None, i, w.messages, Some(u), i);
      }
    }
  }

  lemma UpdateCell(ms: seq<Message>, i: nat, m: Message, d: Option<nat>, k: nat)
    requires i < |ms| && k < |ms| && (k + 1 < i || i + 1 < k)
    requires ms[k].position == PositionAt(ms, k, d)
    ensures Positioned(ms[i := m], d)[k] == ms[k]
  {
    UpdateLinks(ms, i, m, d, k);
    UpdateLinks(ms, i, m, d, k + 1);
    SameCell(ms[i := m], d, k, ms, d, k);
  }

  lemma UpdateOverlay(ms: seq<Message>, i: nat, m: Message, d: Option<nat>)
    requires FullyPositioned(ms, d) && i < |ms|
    ensures var r := Positioned(ms[i := m], d); Overlay(ms, r, Span(SaturatingSub(i, 1), i + 2)) == r
  {
    var r := Positioned(ms[i := m], d);
    forall k | 0 <= k < |ms| && k !in Span(SaturatingSub(i, 1), i + 2) ensures r[k] == ms[k] {
      UpdateCell(ms, i, m, d, k);
    }
  }

  lemma UpdateExact(w: Window, m: Message)
    requires Consistent(w)
    ensures UpdateShown(w, w.messages, m) == Updated(w, m).messages
  {
    if Find(w.messages, m.id).Some? {
      UpdateOverlay(w.messages, Find(w.messages, m.id).value, m, w.state.firstUnread);
    }
  }

  lemma RemoveCell(ms: seq<Message>, i: nat, u: Option<nat>, k: nat)
    requires i < |ms| && (u.Some? ==> u.value < |ms|)
    requires k < |ms| - 1 && (k + 1 < i || i < k)
    requires var k0 := if k < i then k else k + 1; ms[k0].position == PositionAt(ms, k0, u)
    ensures Positioned(Without(ms, i), UnreadAfterRemoval(u, i, |ms| - 1))[k] == Without(ms, i)[k]
  {
    var k0 := if k < i then k else k + 1;
    var d := UnreadAfterRemoval(u, i, |ms| - 1);
    assert Linked(Without(ms, i), k, d) == Linked(ms, k0, u) by { RemoveLinks(ms, i, u, k); }
    assert Linked(Without(ms, i), k + 1, d) == Linked(ms, k0 + 1, u) by { RemoveLinks(ms, i, u, k + 1); }
    SameCell(Without(ms, i), d, k, ms, u, k0);
  }

  lemma RemoveOverlay(ms: seq<Message>, i: nat, u: Option<nat>)
    requires FullyPositioned(ms, u) && i < |ms| && (u.Some? ==> u.value < |ms|)
    ensures var r := Positioned(Without(ms, i), UnreadAfterRemoval(u, i, |ms| - 1));
            Overlay(Without(ms, i), r, Span(SaturatingSub(i, 1), i + 1)) == r
  {
    var r := Positioned(Without(ms, i), UnreadAfterRemoval(u, i, |ms| - 1));
    forall k | 0 <= k < |r| && k !in Span(SaturatingSub(i, 1), i + 1) ensures r[k] == Without(ms, i)[k] {
      RemoveCell(ms, i, u, k);
    }
  }

  lemma RemoveExact(w: Window, id: MessageId)
    requires Consistent(w)
    ensures RemoveShown(w, w.messages, id) == Removed(w, id).messages
  {
    if Find(w.messages, id).Some? {
      RemoveOverlay(w.messages, Find(w.messages, id).value, w.state.firstUnread);
    }
  }

  lemma ClearModuloPosition(w: Window, shown: seq<Message>)
    requires Bare(shown) == Bare(w.messages)
    ensures |shown| == |w.messages|
    ensures Bare(ClearShown(w, shown)) == Bare(DividerCleared(w).messages)
  {
    assert |Bare(shown)| == |Bare(w.messages)|;
    if w.state.firstUnread.Some? {
      var u := w.state.firstUnread.value;
      OverlayModuloPosition(shown, w.messages, None, Span(SaturatingSub(u, 1), u + 1));
    }
  }

  lemma UpdateModuloPosition(w: Window, shown: seq<Message>, m: Message)
    requires Bare(shown) == Bare(w.messages)
    ensures |shown| == |w.messages|
    ensures Bare(UpdateShown(w, shown, m)) == Bare(Updated(w, m).messages)
  {
    assert |Bare(shown)| == |Bare(w.messages)|;
    if Find(w.messages, m.id).Some? {
      var i := Find(w.messages, m.id).value;
      var edited := w.messages[i := m];
      var s := Span(SaturatingSub(i, 1), i + 2);
      forall k | 0 <= k < |shown| && k !in s ensures Bare(shown)[k] == Bare(edited)[k] {
        assert Bare(shown)[k] == Bare(w.messages)[k];
      }
      OverlayModuloPosition(shown, edited, w.state.firstUnread, s);
    }
  }

  lemma RemoveModuloPosition(w: Window, shown: seq<Message>, id: MessageId)
    requires Bare(shown) == Bare(w.messages)
    ensures |shown| == |w.messages|
    ensures Bare(RemoveShown(w, shown, id)) == Bare(Removed(w, id).messages)
  {
    assert |Bare(shown)| == |Bare(w.messages)|;
    if Find(w.messages, id).Some? {
      var i := Find(w.messages, id).value;
      var ms := Without(w.messages, i);
      forall k | 0 <= k < |ms| ensures Bare(Without(shown, i))[k] == Bare(ms)[k] {
        var k0 := if k < i then k else k + 1;
        assert Bare(shown)[k0] == Bare(w.messages)[k0];
      }
      OverlayModuloPosition(Without(shown, i), ms, UnreadAfterRemoval(w.state.firstUnread, i, |ms|),
                            Span(SaturatingSub(i, 1), i + 1));
    }
  }

  lemma OverlayModuloPosition(base: seq<Message>, ms: seq<Message>, d: Option<nat>, s: set<nat>)
    requires |base| == |ms|
    requires forall k | 0 <= k < |ms| && k !in s :: Bare(base)[k] == Bare(ms)[k]
    ensures Bare(Overlay(base, Positioned(ms, d), s)) == Bare(Positioned(ms, d))
  {
    var r := Overlay(base, Positioned(ms, d), s);
    forall k | 0 <= k < |ms| ensures Bare(r)[k] == Bare(Positioned(ms, d))[k] {
      if k !in s { assert Bare(base)[k] == Bare(ms)[k]; }
    }
  }
}
