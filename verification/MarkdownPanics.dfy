/**
 When the builder indexes an empty list. An implicit paragraph takes its range from its first and
 last element, so it panics exactly where a block should start and only empty texts stand.
 */
module MarkdownPanics {
  import opened Prelude
  import opened MarkdownEvents
  import opened MarkdownReading
  import opened MarkdownTrees
  import opened MarkdownGrammar
  import opened MarkdownAcceptance
  import M = Markdown

  // ---- One implicit paragraph ----

  /** Empty texts from `pos` on, at least one, up to an event that ends a paragraph. */
  predicate OnlyEmpty(es: seq<Ranged>, pos: nat) {
    exists k | pos < k < |es| :: EmptyTexts(es[pos..k]) && InlineAction(es[k].event) == Stop
  }

  lemma OnlyEmptyStarts(es: seq<Ranged>, pos: nat)
    requires OnlyEmpty(es, pos)
    ensures pos < |es| && es[pos].event == Text([])
  {
    var k :| pos < k < |es| && EmptyTexts(es[pos..k]) && InlineAction(es[k].event) == Stop;
    assert es[pos..k][0] == es[pos];
  }

  lemma {:induction false} InlineNeverPanics(env: Env, es: seq<Ranged>, pos: nat, depth: nat)
    requires pos < |es| && InlineAction(es[pos].event) != Stop && depth <= MAX_DEPTH
    ensures InlineAt(env, es, pos, depth) != Halt(IndexOutOfRange)
    decreases Fuel(depth), |es| - pos, 1
  {
    if InlineAction(es[pos].event).Descend? { InlinesNeverPanic(env, es, pos + 1, depth + 1); }
  }

  lemma {:induction false} RunNeverPanics(env: Env, es: seq<Ranged>, pos: nat, depth: nat)
    requires pos <= |es| && depth <= MAX_DEPTH
    ensures InlineRun(env, es, pos, depth) != Halt(IndexOutOfRange)
    decreases Fuel(depth), |es| - pos, 2
  {
    if pos < |es| && InlineAction(es[pos].event) != Stop {
      InlineNeverPanics(env, es, pos, depth);
      var r := InlineAt(env, es, pos, depth);
      if r.Done? { RunNeverPanics(env, es, r.next, depth); }
    }
  }

  lemma {:induction false} InlinesNeverPanic(env: Env, es: seq<Ranged>, pos: nat, depth: nat)
    requires pos <= |es|
    ensures InlinesAt(env, es, pos, depth) != Halt(IndexOutOfRange)
    decreases Fuel(depth), |es| - pos, 3
  {
    if depth <= MAX_DEPTH { RunNeverPanics(env, es, pos, depth); }
  }

  lemma EmptyRunIsNothing(env: Env, es: seq<Ranged>, pos: nat, k: nat, depth: nat)
    requires pos < k < |es| && EmptyTexts(es[pos..k]) && InlineAction(es[k].event) == Stop
    requires depth <= MAX_DEPTH && OrderedSearch(env.links)
    ensures InlinesAt(env, es, pos, depth) == Done([], k)
  {
    var ds := [TextD(es[pos..k])];
    assert WfI(ds[0], depth) && ds[1..] == [] && EventsIs(ds) == es[pos..k];
    RunAccepts(env, es, pos, k, ds, depth);
    ProseIsEmptyIff(env, ds, depth);
  }

  lemma NothingIsEmptyRun(env: Env, es: seq<Ranged>, pos: nat, k: nat, depth: nat)
    requires pos < |es| && InlineAction(es[pos].event) != Stop && OrderedSearch(env.links)
    requires InlinesAt(env, es, pos, depth) == Done([], k)
    ensures depth <= MAX_DEPTH && pos < k && EmptyTexts(es[pos..k])
  {
    var ds := InlinesRead(env, es, pos, depth, [], k);
    ProseIsEmptyIff(env, ds, depth);
  }

  /** The condition a caller can see in the events. */
  lemma ImplicitPanicsIff(env: Env, es: seq<Ranged>, pos: nat, depth: nat)
    requires pos < |es| && InlineAction(es[pos].event) != Stop && OrderedSearch(env.links)
    ensures ImplicitAt(env, es, pos, depth) == Halt(IndexOutOfRange) <==> depth + 1 <= MAX_DEPTH && OnlyEmpty(es, pos)
  {
    InlinesNeverPanic(env, es, pos, depth + 1);
    var r := InlinesAt(env, es, pos, depth + 1);
    if r.Done? && r.value == [] { NothingIsEmptyRun(env, es, pos, r.next, depth + 1); }
    if depth + 1 <= MAX_DEPTH && OnlyEmpty(es, pos) {
      var k :| pos < k < |es| && EmptyTexts(es[pos..k]) && InlineAction(es[k].event) == Stop;
      EmptyRunIsNothing(env, es, pos, k, depth + 1);
    }
  }

  // ---- How the builder gets to a place where a block should start ----

  /** What was opened and what was read on the way there. */
  datatype Path =
    | Here
    | Past(block: BlockD, rest: Path)
    | InQuote(open: Ranged, inner: Path)
    | InList(open: Ranged, items: seq<ItemD>, item: Ranged, inner: Path)
    | InHead(open: Ranged, row: Ranged, cells: seq<ItemD>, cell: Ranged, inner: Path)
    | InRow(open: Ranged, head: RowD, rows: seq<RowD>, row: Ranged, cells: seq<ItemD>, cell: Ranged, inner: Path)

  function EventsP(p: Path): (es: seq<Ranged>) {
    match p
    case Here => []
    case Past(block, rest) => EventsB(block) + EventsP(rest)
    case InQuote(open, inner) => [open] + EventsP(inner)
    case InList(open, items, item, inner) => [open] + (EventsItems(items) + ([item] + EventsP(inner)))
    case InHead(open, row, cells, cell, inner) => [open] + ([row] + (EventsItems(cells) + ([cell] + EventsP(inner))))
    case InRow(open, head, rows, row, cells, cell, inner) =>
      [open] + (EventsRow(head) + (EventsRows(rows) + ([row] + (EventsItems(cells) + ([cell] + EventsP(inner))))))
  }

  /** Whether the path starts with inline elements, or ends before anything. */
  predicate StartsInline(p: Path) { p.Here? || (p.Past? && p.block.ImplicitD?) }

  predicate WfP(p: Path, depth: nat) {
    match p
    case Here => depth + 1 <= MAX_DEPTH
    case Past(block, rest) => WfB(block, depth) && WfP(rest, depth) && (block.ImplicitD? ==> !StartsInline(rest))
    case InQuote(open, inner) => depth <= MAX_DEPTH && open.event == Start(BlockQuote) && WfP(inner, depth + 1)
    case InList(open, items, item, inner) =>
      && depth + 1 <= MAX_DEPTH && open.event.Start? && open.event.tag.List? && WfItems(items, Item, depth + 1)
      && item.event == Start(Item) && WfP(inner, depth + 2)
    case InHead(open, row, cells, cell, inner) =>
      && depth + 2 <= MAX_DEPTH && open.event == Start(Table) && row.event == Start(TableHead)
      && WfItems(cells, TableCell, depth + 2) && cell.event == Start(TableCell) && WfP(inner, depth + 3)
    case InRow(open, head, rows, row, cells, cell, inner) =>
      && depth + 2 <= MAX_DEPTH && open.event == Start(Table) && WfRow(head, TableHead, depth + 2)
      && WfRows(rows, depth + 2) && row.event == Start(TableRow)
      && WfItems(cells, TableCell, depth + 2) && cell.event == Start(TableCell) && WfP(inner, depth + 3)
  }

  /** The path leads from `a` to only empty texts at `at`. */
  predicate Leads(es: seq<Ranged>, a: nat, at: nat, p: Path, depth: nat) {
    WfP(p, depth) && Spans(es, a, at, EventsP(p)) && OnlyEmpty(es, at)
  }

  /** The first event of a path. */
  lemma PathStarts(es: seq<Ranged>, a: nat, at: nat, p: Path, depth: nat)
    requires Leads(es, a, at, p, depth)
    ensures a < |es| && !es[a].event.End? && (StartsInline(p) <==> InlineAction(es[a].event) != Stop)
  {
    OnlyEmptyStarts(es, at);
    match p
    case Here =>
    case Past(block, rest) =>
      FirstOfBlock(block, depth);
      assert es[a..at][0] == es[a];
    case _ => assert es[a..at][0] == es[a];
  }

  // ---- Longer paths ----

  lemma QuoteLeads(es: seq<Ranged>, a: nat, at: nat, inner: Path, depth: nat)
    requires a < |es| && es[a].event == Start(BlockQuote) && depth <= MAX_DEPTH && Leads(es, a + 1, at, inner, depth + 1)
    ensures Leads(es, a, at, InQuote(es[a], inner), depth)
  {
    SpansOne(es, a, at, es[a], EventsP(inner));
  }

  /** Complete items, the start of one more, and the path inside it. */
  predicate LeadsInItem(es: seq<Ranged>, a: nat, mid: nat, at: nat, items: seq<ItemD>, tag: Tag, inner: Path, depth: nat) {
    && depth <= MAX_DEPTH && WfItems(items, tag, depth) && Spans(es, a, mid, EventsItems(items))
    && mid < |es| && es[mid].event == Start(tag) && Leads(es, mid + 1, at, inner, depth + 1)
  }

  lemma ItemsSpan(es: seq<Ranged>, a: nat, mid: nat, at: nat, items: seq<ItemD>, inner: Path)
    requires Spans(es, a, mid, EventsItems(items)) && mid < |es| && Spans(es, mid + 1, at, EventsP(inner))
    ensures Spans(es, a, at, EventsItems(items) + ([es[mid]] + EventsP(inner)))
  {
    SpansOne(es, mid, at, es[mid], EventsP(inner));
    SpansJoin(es, a, mid, at, EventsItems(items), [es[mid]] + EventsP(inner));
  }

  lemma ListLeads(es: seq<Ranged>, a: nat, mid: nat, at: nat, items: seq<ItemD>, inner: Path, depth: nat)
    requires a < |es| && es[a].event.Start? && es[a].event.tag.List?
    requires LeadsInItem(es, a + 1, mid, at, items, Item, inner, depth + 1)
    ensures Leads(es, a, at, InList(es[a], items, es[mid], inner), depth)
  {
    ItemsSpan(es, a + 1, mid, at, items, inner);
    SpansOne(es, a, at, es[a], EventsItems(items) + ([es[mid]] + EventsP(inner)));
  }

  lemma HeadLeads(es: seq<Ranged>, a: nat, mid: nat, at: nat, cells: seq<ItemD>, inner: Path, depth: nat)
    requires a + 1 < |es| && es[a].event == Start(Table) && es[a + 1].event == Start(TableHead)
    requires LeadsInItem(es, a + 2, mid, at, cells, TableCell, inner, depth + 2)
    ensures Leads(es, a, at, InHead(es[a], es[a + 1], cells, es[mid], inner), depth)
  {
    var tail := EventsItems(cells) + ([es[mid]] + EventsP(inner));
    ItemsSpan(es, a + 2, mid, at, cells, inner);
    SpansOne(es, a + 1, at, es[a + 1], tail);
    SpansOne(es, a, at, es[a], [es[a + 1]] + tail);
  }

  /** Complete rows, the start of one more, and the path inside it. */
  predicate LeadsInRow(es: seq<Ranged>, a: nat, row: nat, mid: nat, at: nat, rows: seq<RowD>, cells: seq<ItemD>, inner: Path,
                       depth: nat) {
    && WfRows(rows, depth) && Spans(es, a, row, EventsRows(rows)) && row < |es| && es[row].event == Start(TableRow)
    && LeadsInItem(es, row + 1, mid, at, cells, TableCell, inner, depth)
  }

  lemma BodySpans(es: seq<Ranged>, a: nat, next: nat, row: nat, mid: nat, at: nat, head: RowD, rows: seq<RowD>,
                  cells: seq<ItemD>, inner: Path)
    requires a < |es| && Spans(es, a + 1, next, EventsRow(head)) && Spans(es, next, row, EventsRows(rows)) && row < |es|
    requires Spans(es, row + 1, mid, EventsItems(cells)) && mid < |es| && Spans(es, mid + 1, at, EventsP(inner))
    ensures Spans(es, a, at, EventsP(InRow(es[a], head, rows, es[row], cells, es[mid], inner)))
  {
    var tail := EventsItems(cells) + ([es[mid]] + EventsP(inner));
    ItemsSpan(es, row + 1, mid, at, cells, inner);
    SpansOne(es, row, at, es[row], tail);
    SpansJoin(es, next, row, at, EventsRows(rows), [es[row]] + tail);
    SpansJoin(es, a + 1, next, at, EventsRow(head), EventsRows(rows) + ([es[row]] + tail));
    SpansOne(es, a, at, es[a], EventsRow(head) + (EventsRows(rows) + ([es[row]] + tail)));
  }

  lemma BodyLeads(es: seq<Ranged>, a: nat, next: nat, row: nat, mid: nat, at: nat, head: RowD, rows: seq<RowD>,
                  cells: seq<ItemD>, inner: Path, depth: nat)
    requires a < |es| && es[a].event == Start(Table) && WfRow(head, TableHead, depth + 2)
    requires Spans(es, a + 1, next, EventsRow(head)) && LeadsInRow(es, next, row, mid, at, rows, cells, inner, depth + 2)
    ensures Leads(es, a, at, InRow(es[a], head, rows, es[row], cells, es[mid], inner), depth)
  {
    BodySpans(es, a, next, row, mid, at, head, rows, cells, inner);
  }

  // ---- A panic has a path ----

  lemma {:induction false} BlockPanics(env: Env, es: seq<Ranged>, pos: nat, depth: nat) returns (p: Path, at: nat)
    requires pos <= |es| && BlockAt(env, es, pos, depth) == Halt(IndexOutOfRange) && OrderedSearch(env.links)
    ensures Leads(es, pos, at, p, depth) && !p.Past?
    decreases Fuel(depth), |es| - pos, 1
  {
    InlinesNeverPanic(env, es, pos + 1, depth + 1);
    match OpeningOf(es[pos].event)
    case AList => p, at := ListPanics(env, es, pos, depth);
    case ATable => p, at := TablePanics(env, es, pos, depth);
    case AQuote => p, at := QuotePanics(env, es, pos, depth);
    case AnImplicit =>
      ImplicitPanicsIff(env, es, pos, depth);
      p, at := Here, pos;
  }

  lemma {:induction false} QuotePanics(env: Env, es: seq<Ranged>, pos: nat, depth: nat) returns (p: Path, at: nat)
    requires pos < |es| && es[pos].event == Start(BlockQuote) && depth <= MAX_DEPTH && OrderedSearch(env.links)
    requires QuoteAt(env, es, pos, depth) == Halt(IndexOutOfRange)
    ensures Leads(es, pos, at, p, depth) && !p.Past?
    decreases Fuel(depth), |es| - pos, 0
  {
    var inner;
    inner, at := UntilPanics(env, es, pos + 1, depth + 1, EndBlockQuote);
    QuoteLeads(es, pos, at, inner, depth);
    p := InQuote(es[pos], inner);
  }

  lemma {:induction false} UntilPanics(env: Env, es: seq<Ranged>, pos: nat, depth: nat, kind: Kind) returns (p: Path, at: nat)
    requires pos <= |es| && BlocksUntil(env, es, pos, depth, kind) == Halt(IndexOutOfRange) && OrderedSearch(env.links)
    ensures Leads(es, pos, at, p, depth)
    decreases Fuel(depth), |es| - pos, 2
  {
    var r := BlockAt(env, es, pos, depth);
    if r.Halt? {
      p, at := BlockPanics(env, es, pos, depth);
    } else {
      var rest;
      rest, at := UntilPanics(env, es, r.next, depth, kind);
      p := PastBlock(env, es, pos, at, depth, r.value, r.next, rest);
    }
  }

  lemma PastBlock(env: Env, es: seq<Ranged>, pos: nat, at: nat, depth: nat, v: M.Block, next: nat, rest: Path) returns (p: Path)
    requires pos <= |es| && BlockAt(env, es, pos, depth) == Done(v, next) && OrderedSearch(env.links)
    requires Leads(es, next, at, rest, depth)
    ensures Leads(es, pos, at, p, depth)
  {
    var d := BlockReads(env, es, pos, depth, v, next);
    PathStarts(es, next, at, rest, depth);
    SpansJoin(es, pos, next, at, EventsB(d), EventsP(rest));
    p := Past(d, rest);
  }

  lemma {:induction false} ItemsPanic(env: Env, es: seq<Ranged>, pos: nat, depth: nat, tag: Tag)
    returns (items: seq<ItemD>, mid: nat, inner: Path, at: nat)
    requires pos <= |es| && depth <= MAX_DEPTH && ItemsRun(env, es, pos, depth, tag) == Halt(IndexOutOfRange)
    requires OrderedSearch(env.links)
    ensures LeadsInItem(es, pos, mid, at, items, tag, inner, depth)
    decreases Fuel(depth), |es| - pos, 1
  {
    ItemsPanicIff(env, es, pos, depth, tag);
    var r := BlocksUntil(env, es, pos + 1, depth + 1, KindOf(tag));
    if r.Halt? {
      items, mid := [], pos;
      inner, at := UntilPanics(env, es, pos + 1, depth + 1, KindOf(tag));
    } else {
      var rest;
      rest, mid, inner, at := ItemsPanic(env, es, r.next, depth, tag);
      items := PastItem(env, es, pos, mid, depth, tag, r.value, r.next, rest);
    }
  }

  /** Items panic in the first one or after it. */
  lemma ItemsPanicIff(env: Env, es: seq<Ranged>, pos: nat, depth: nat, tag: Tag)
    requires pos <= |es| && depth <= MAX_DEPTH
    ensures ItemsRun(env, es, pos, depth, tag) == Halt(IndexOutOfRange) <==>
            && pos < |es| && es[pos].event == Start(tag)
            && var r := BlocksUntil(env, es, pos + 1, depth + 1, KindOf(tag));
               r == Halt(IndexOutOfRange) || (r.Done? && ItemsRun(env, es, r.next, depth, tag) == Halt(IndexOutOfRange))
  {
  }

  lemma PastItem(env: Env, es: seq<Ranged>, pos: nat, mid: nat, depth: nat, tag: Tag, v: seq<M.Block>, next: nat, rest: seq<ItemD>)
    returns (items: seq<ItemD>)
    requires pos < |es| && depth <= MAX_DEPTH && es[pos].event == Start(tag) && OrderedSearch(env.links)
    requires BlocksUntil(env, es, pos + 1, depth + 1, KindOf(tag)) == Done(v, next)
    requires WfItems(rest, tag, depth) && Spans(es, next, mid, EventsItems(rest))
    ensures WfItems(items, tag, depth) && Spans(es, pos, mid, EventsItems(items))
  {
    var d := ItemReads(env, es, pos, depth, tag, v, next);
    items := [d] + rest;
    assert items[1..] == rest;
    SpansJoin(es, pos, next, mid, EventsItem(d), EventsItems(rest));
  }

  lemma {:induction false} ListPanics(env: Env, es: seq<Ranged>, pos: nat, depth: nat) returns (p: Path, at: nat)
    requires pos < |es| && es[pos].event.Start? && es[pos].event.tag.List? && depth <= MAX_DEPTH && OrderedSearch(env.links)
    requires ListAt(env, es, pos, depth) == Halt(IndexOutOfRange)
    ensures Leads(es, pos, at, p, depth) && !p.Past?
    decreases Fuel(depth), |es| - pos, 0
  {
    var items, mid, inner;
    items, mid, inner, at := ItemsPanic(env, es, pos + 1, depth + 1, Item);
    ListLeads(es, pos, mid, at, items, inner, depth);
    p := InList(es[pos], items, es[mid], inner);
  }

  lemma RowHalts(env: Env, es: seq<Ranged>, pos: nat, depth: nat, tag: Tag)
    requires pos < |es| && RowAt(env, es, pos, depth, tag) == Halt(IndexOutOfRange)
    ensures depth <= MAX_DEPTH && ItemsRun(env, es, pos + 1, depth, TableCell) == Halt(IndexOutOfRange)
  {
    assert ItemsAt(env, es, pos + 1, depth, TableCell).Halt?;
  }

  lemma {:induction false} RowsPanic(env: Env, es: seq<Ranged>, pos: nat, depth: nat)
    returns (rows: seq<RowD>, row: nat, cells: seq<ItemD>, mid: nat, inner: Path, at: nat)
    requires pos <= |es| && RowsAt(env, es, pos, depth) == Halt(IndexOutOfRange) && OrderedSearch(env.links)
    ensures LeadsInRow(es, pos, row, mid, at, rows, cells, inner, depth)
    decreases Fuel(depth), |es| - pos, 3
  {
    RowsPanicIff(env, es, pos, depth);
    var r := RowAt(env, es, pos, depth, TableRow);
    if r.Halt? {
      rows, row := [], pos;
      RowHalts(env, es, pos, depth, TableRow);
      cells, mid, inner, at := ItemsPanic(env, es, pos + 1, depth, TableCell);
    } else {
      var rest;
      rest, row, cells, mid, inner, at := RowsPanic(env, es, r.next, depth);
      rows := PastRow(env, es, pos, row, depth, r.value, r.next, rest);
    }
  }

  /** Rows panic in the first one or after it. */
  lemma RowsPanicIff(env: Env, es: seq<Ranged>, pos: nat, depth: nat)
    requires pos <= |es|
    ensures RowsAt(env, es, pos, depth) == Halt(IndexOutOfRange) <==>
            && pos < |es| && es[pos].event == Start(TableRow)
            && var r := RowAt(env, es, pos, depth, TableRow);
               r == Halt(IndexOutOfRange) || (r.Done? && RowsAt(env, es, r.next, depth) == Halt(IndexOutOfRange))
  {
  }

  lemma PastRow(env: Env, es: seq<Ranged>, pos: nat, row: nat, depth: nat, v: seq<seq<M.Block>>, next: nat, rest: seq<RowD>)
    returns (rows: seq<RowD>)
    requires pos < |es| && es[pos].event == Start(TableRow) && RowAt(env, es, pos, depth, TableRow) == Done(v, next)
    requires WfRows(rest, depth) && Spans(es, next, row, EventsRows(rest)) && OrderedSearch(env.links)
    ensures WfRows(rows, depth) && Spans(es, pos, row, EventsRows(rows))
  {
    var d := RowReads(env, es, pos, depth, TableRow, v, next);
    rows := [d] + rest;
    assert rows[1..] == rest;
    SpansJoin(es, pos, next, row, EventsRow(d), EventsRows(rest));
  }

  lemma {:induction false} TablePanics(env: Env, es: seq<Ranged>, pos: nat, depth: nat) returns (p: Path, at: nat)
    requires pos < |es| && es[pos].event == Start(Table) && depth <= MAX_DEPTH && OrderedSearch(env.links)
    requires TableAt(env, es, pos, depth) == Halt(IndexOutOfRange)
    ensures Leads(es, pos, at, p, depth) && !p.Past?
    decreases Fuel(depth), |es| - pos, 0
  {
    var r := RowAt(env, es, pos + 1, depth + 2, TableHead);
    if r.Halt? {
      p, at := HeadPanics(env, es, pos, depth);
    } else {
      p, at := BodyPanics(env, es, pos, depth, r.value, r.next);
    }
  }

  lemma {:induction false} HeadPanics(env: Env, es: seq<Ranged>, pos: nat, depth: nat) returns (p: Path, at: nat)
    requires pos + 1 < |es| && es[pos].event == Start(Table) && es[pos + 1].event == Start(TableHead) && depth <= MAX_DEPTH
    requires RowAt(env, es, pos + 1, depth + 2, TableHead) == Halt(IndexOutOfRange) && OrderedSearch(env.links)
    ensures Leads(es, pos, at, p, depth) && !p.Past?
    decreases Fuel(depth), |es| - pos - 1, 4
  {
    RowHalts(env, es, pos + 1, depth + 2, TableHead);
    var cells, mid, inner;
    cells, mid, inner, at := ItemsPanic(env, es, pos + 2, depth + 2, TableCell);
    HeadLeads(es, pos, mid, at, cells, inner, depth);
    p := InHead(es[pos], es[pos + 1], cells, es[mid], inner);
  }

  lemma {:induction false} BodyPanics(env: Env, es: seq<Ranged>, pos: nat, depth: nat, v: seq<seq<M.Block>>, next: nat)
    returns (p: Path, at: nat)
    requires pos + 1 < |es| && es[pos].event == Start(Table) && es[pos + 1].event == Start(TableHead) && depth <= MAX_DEPTH
    requires RowAt(env, es, pos + 1, depth + 2, TableHead) == Done(v, next) && OrderedSearch(env.links)
    requires RowsAt(env, es, next, depth + 2) == Halt(IndexOutOfRange)
    ensures Leads(es, pos, at, p, depth) && !p.Past?
    decreases Fuel(depth), |es| - pos - 1, 4
  {
    var head := RowReads(env, es, pos + 1, depth + 2, TableHead, v, next);
    var rows, row, cells, mid, inner;
    rows, row, cells, mid, inner, at := RowsPanic(env, es, next, depth + 2);
    BodyLeads(es, pos, next, row, mid, at, head, rows, cells, inner, depth);
    p := InRow(es[pos], head, rows, es[row], cells, es[mid], inner);
  }

  lemma {:induction false} MessagePanics(env: Env, es: seq<Ranged>, pos: nat) returns (p: Path, at: nat)
    requires pos <= |es| && MessageAt(env, es, pos) == Halt(IndexOutOfRange) && OrderedSearch(env.links)
    ensures Leads(es, pos, at, p, 1)
    decreases |es| - pos
  {
    var r := BlockAt(env, es, pos, 1);
    if r.Halt? {
      p, at := BlockPanics(env, es, pos, 1);
    } else {
      var rest;
      rest, at := MessagePanics(env, es, r.next);
      p := PastBlock(env, es, pos, at, 1, r.value, r.next, rest);
    }
  }

  // ---- Taking paths apart ----

  lemma ItemsUnspan(es: seq<Ranged>, a: nat, at: nat, items: seq<ItemD>, item: Ranged, inner: Path) returns (mid: nat)
    requires Spans(es, a, at, EventsItems(items) + ([item] + EventsP(inner)))
    ensures Spans(es, a, mid, EventsItems(items)) && mid < |es| && es[mid] == item && Spans(es, mid + 1, at, EventsP(inner))
  {
    mid := SpansSplit(es, a, at, EventsItems(items), [item] + EventsP(inner));
    SpansOne(es, mid, at, item, EventsP(inner));
  }

  lemma ListParts(es: seq<Ranged>, a: nat, at: nat, p: Path, depth: nat) returns (mid: nat)
    requires Leads(es, a, at, p, depth) && p.InList?
    ensures a < |es| && es[a] == p.open && LeadsInItem(es, a + 1, mid, at, p.items, Item, p.inner, depth + 1)
  {
    SpansOne(es, a, at, p.open, EventsItems(p.items) + ([p.item] + EventsP(p.inner)));
    mid := ItemsUnspan(es, a + 1, at, p.items, p.item, p.inner);
  }

  lemma HeadParts(es: seq<Ranged>, a: nat, at: nat, p: Path, depth: nat) returns (mid: nat)
    requires Leads(es, a, at, p, depth) && p.InHead?
    ensures a + 1 < |es| && es[a] == p.open && es[a + 1] == p.row
    ensures LeadsInItem(es, a + 2, mid, at, p.cells, TableCell, p.inner, depth + 2)
  {
    var tail := EventsItems(p.cells) + ([p.cell] + EventsP(p.inner));
    SpansOne(es, a, at, p.open, [p.row] + tail);
    SpansOne(es, a + 1, at, p.row, tail);
    mid := ItemsUnspan(es, a + 2, at, p.cells, p.cell, p.inner);
  }

  lemma BodyParts(es: seq<Ranged>, a: nat, at: nat, p: Path, depth: nat) returns (next: nat, row: nat, mid: nat)
    requires Leads(es, a, at, p, depth) && p.InRow?
    ensures a < |es| && es[a] == p.open && Spans(es, a + 1, next, EventsRow(p.head))
    ensures LeadsInRow(es, next, row, mid, at, p.rows, p.cells, p.inner, depth + 2)
  {
    var tail := EventsItems(p.cells) + ([p.cell] + EventsP(p.inner));
    SpansOne(es, a, at, p.open, EventsRow(p.head) + (EventsRows(p.rows) + ([p.row] + tail)));
    next := SpansSplit(es, a + 1, at, EventsRow(p.head), EventsRows(p.rows) + ([p.row] + tail));
    row, mid := RowsUnspan(es, next, at, p.rows, p.row, p.cells, p.cell, p.inner);
  }

  lemma RowsUnspan(es: seq<Ranged>, a: nat, at: nat, rows: seq<RowD>, r: Ranged, cells: seq<ItemD>, cell: Ranged, inner: Path)
    returns (row: nat, mid: nat)
    requires Spans(es, a, at, EventsRows(rows) + ([r] + (EventsItems(cells) + ([cell] + EventsP(inner)))))
    ensures Spans(es, a, row, EventsRows(rows)) && row < |es| && es[row] == r
    ensures Spans(es, row + 1, mid, EventsItems(cells)) && mid < |es| && es[mid] == cell && Spans(es, mid + 1, at, EventsP(inner))
  {
    var tail := EventsItems(cells) + ([cell] + EventsP(inner));
    row := SpansSplit(es, a, at, EventsRows(rows), [r] + tail);
    SpansOne(es, row, at, r, tail);
    mid := ItemsUnspan(es, row + 1, at, cells, cell, inner);
  }

  // ---- A path leads to a panic ----

  lemma {:induction false} PathPanics(env: Env, es: seq<Ranged>, a: nat, at: nat, p: Path, depth: nat)
    requires Leads(es, a, at, p, depth) && !p.Past? && OrderedSearch(env.links)
    ensures a < |es| && BlockAt(env, es, a, depth) == Halt(IndexOutOfRange)
    decreases p, 0
  {
    match p
    case Here => HerePanics(env, es, a, depth);
    case InQuote(_, _) => PathPanicsQuote(env, es, a, at, p, depth);
    case InList(_, _, _, _) => PathPanicsList(env, es, a, at, p, depth);
    case InHead(_, _, _, _, _) => PathPanicsHead(env, es, a, at, p, depth);
    case InRow(_, _, _, _, _, _, _) => PathPanicsBody(env, es, a, at, p, depth);
  }

  lemma HerePanics(env: Env, es: seq<Ranged>, a: nat, depth: nat)
    requires OnlyEmpty(es, a) && depth + 1 <= MAX_DEPTH && OrderedSearch(env.links)
    ensures a < |es| && BlockAt(env, es, a, depth) == Halt(IndexOutOfRange)
  {
    OnlyEmptyStarts(es, a);
    ImplicitPanicsIff(env, es, a, depth);
  }

  lemma {:induction false} PathPanicsQuote(env: Env, es: seq<Ranged>, a: nat, at: nat, p: Path, depth: nat)
    requires Leads(es, a, at, p, depth) && p.InQuote? && OrderedSearch(env.links)
    ensures a < |es| && BlockAt(env, es, a, depth) == Halt(IndexOutOfRange)
    decreases p.inner, 5
  {
    SpansOne(es, a, at, p.open, EventsP(p.inner));
    PathPanicsUntil(env, es, a + 1, at, p.inner, depth + 1, EndBlockQuote);
    assert QuoteAt(env, es, a, depth) == Halt(IndexOutOfRange);
  }

  lemma {:induction false} PathPanicsList(env: Env, es: seq<Ranged>, a: nat, at: nat, p: Path, depth: nat)
    requires Leads(es, a, at, p, depth) && p.InList? && OrderedSearch(env.links)
    ensures a < |es| && BlockAt(env, es, a, depth) == Halt(IndexOutOfRange)
    decreases p.inner, 5
  {
    var mid := ListParts(es, a, at, p, depth);
    PathPanicsItems(env, es, a + 1, mid, at, p.items, Item, p.inner, depth + 1);
    ListHalts(env, es, a, depth);
  }

  lemma ListHalts(env: Env, es: seq<Ranged>, a: nat, depth: nat)
    requires a < |es| && es[a].event.Start? && es[a].event.tag.List? && depth + 1 <= MAX_DEPTH
    requires ItemsRun(env, es, a + 1, depth + 1, Item) == Halt(IndexOutOfRange)
    ensures BlockAt(env, es, a, depth) == Halt(IndexOutOfRange)
  {
    assert ListAt(env, es, a, depth) == Halt(IndexOutOfRange);
  }

  lemma {:induction false} PathPanicsUntil(env: Env, es: seq<Ranged>, a: nat, at: nat, p: Path, depth: nat, kind: Kind)
    requires Leads(es, a, at, p, depth) && OrderedSearch(env.links)
    ensures a < |es| && BlocksUntil(env, es, a, depth, kind) == Halt(IndexOutOfRange)
    decreases p, 1
  {
    PathStarts(es, a, at, p, depth);
    if p.Past? {
      var mid := LeadsPast(env, es, a, at, p, depth);
      PathPanicsUntil(env, es, mid, at, p.rest, depth, kind);
    } else {
      PathPanics(env, es, a, at, p, depth);
    }
  }

  lemma LeadsPast(env: Env, es: seq<Ranged>, a: nat, at: nat, p: Path, depth: nat) returns (mid: nat)
    requires Leads(es, a, at, p, depth) && p.Past? && OrderedSearch(env.links)
    ensures a < mid && Leads(es, mid, at, p.rest, depth) && BlockAt(env, es, a, depth) == Done(TreeB(env, p.block), mid)
  {
    mid := SpansSplit(es, a, at, EventsB(p.block), EventsP(p.rest));
    PathStarts(es, mid, at, p.rest, depth);
    BlockAccepts(env, es, a, mid, p.block, depth);
  }

  lemma {:induction false} PathPanicsItems(env: Env, es: seq<Ranged>, a: nat, mid: nat, at: nat, items: seq<ItemD>, tag: Tag,
                                           inner: Path, depth: nat)
    requires LeadsInItem(es, a, mid, at, items, tag, inner, depth)
    requires OrderedSearch(env.links)
    ensures ItemsRun(env, es, a, depth, tag) == Halt(IndexOutOfRange)
    decreases inner, 2, |items|
  {
    if items == [] {
      PathPanicsUntil(env, es, a + 1, at, inner, depth + 1, KindOf(tag));
    } else {
      var next := SpansSplit(es, a, mid, EventsItem(items[0]), EventsItems(items[1..]));
      ItemAccepts(env, es, a, next, items[0], tag, depth);
      PathPanicsItems(env, es, next, mid, at, items[1..], tag, inner, depth);
    }
    ItemsPanicIff(env, es, a, depth, tag);
  }

  lemma {:induction false} PathPanicsRow(env: Env, es: seq<Ranged>, row: nat, mid: nat, at: nat, tag: Tag, cells: seq<ItemD>,
                                         inner: Path, depth: nat)
    requires row < |es| && LeadsInItem(es, row + 1, mid, at, cells, TableCell, inner, depth) && OrderedSearch(env.links)
    ensures RowAt(env, es, row, depth, tag) == Halt(IndexOutOfRange)
    decreases inner, 3
  {
    PathPanicsItems(env, es, row + 1, mid, at, cells, TableCell, inner, depth);
  }

  lemma {:induction false} PathPanicsRows(env: Env, es: seq<Ranged>, a: nat, row: nat, mid: nat, at: nat, rows: seq<RowD>,
                                          cells: seq<ItemD>, inner: Path, depth: nat)
    requires LeadsInRow(es, a, row, mid, at, rows, cells, inner, depth) && OrderedSearch(env.links)
    ensures RowsAt(env, es, a, depth) == Halt(IndexOutOfRange)
    decreases inner, 4, |rows|
  {
    if rows == [] {
      PathPanicsRow(env, es, row, mid, at, TableRow, cells, inner, depth);
    } else {
      var next := SpansSplit(es, a, row, EventsRow(rows[0]), EventsRows(rows[1..]));
      RowAccepts(env, es, a, next, rows[0], TableRow, depth);
      PathPanicsRows(env, es, next, row, mid, at, rows[1..], cells, inner, depth);
    }
    RowsPanicIff(env, es, a, depth);
  }

  lemma {:induction false} PathPanicsHead(env: Env, es: seq<Ranged>, a: nat, at: nat, p: Path, depth: nat)
    requires Leads(es, a, at, p, depth) && p.InHead? && OrderedSearch(env.links)
    ensures a < |es| && BlockAt(env, es, a, depth) == Halt(IndexOutOfRange)
    decreases p.inner, 5
  {
    var mid := HeadParts(es, a, at, p, depth);
    PathPanicsRow(env, es, a + 1, mid, at, TableHead, p.cells, p.inner, depth + 2);
    TableHalts(env, es, a, depth);
  }

  lemma {:induction false} PathPanicsBody(env: Env, es: seq<Ranged>, a: nat, at: nat, p: Path, depth: nat)
    requires Leads(es, a, at, p, depth) && p.InRow? && OrderedSearch(env.links)
    ensures a < |es| && BlockAt(env, es, a, depth) == Halt(IndexOutOfRange)
    decreases p.inner, 5
  {
    var next, row, mid := BodyParts(es, a, at, p, depth);
    RowAccepts(env, es, a + 1, next, p.head, TableHead, depth + 2);
    PathPanicsRows(env, es, next, row, mid, at, p.rows, p.cells, p.inner, depth + 2);
    TableHalts(env, es, a, depth);
  }

  lemma TableHalts(env: Env, es: seq<Ranged>, a: nat, depth: nat)
    requires a + 1 < |es| && es[a].event == Start(Table) && es[a + 1].event == Start(TableHead) && depth + 1 <= MAX_DEPTH
    requires var r := RowAt(env, es, a + 1, depth + 2, TableHead);
             r == Halt(IndexOutOfRange) || (r.Done? && RowsAt(env, es, r.next, depth + 2) == Halt(IndexOutOfRange))
    ensures BlockAt(env, es, a, depth) == Halt(IndexOutOfRange)
  {
    assert TableAt(env, es, a, depth) == Halt(IndexOutOfRange);
  }

  lemma {:induction false} PathPanicsMessage(env: Env, es: seq<Ranged>, a: nat, at: nat, p: Path)
    requires Leads(es, a, at, p, 1) && OrderedSearch(env.links)
    ensures a < |es| && MessageAt(env, es, a) == Halt(IndexOutOfRange)
    decreases p
  {
    if p.Past? {
      var mid := LeadsPast(env, es, a, at, p, 1);
      PathPanicsMessage(env, es, mid, at, p.rest);
    } else {
      PathPanics(env, es, a, at, p, 1);
    }
  }

  // ---- Whole messages ----

  /** Whether a message panics is a matter of its events alone. */
  lemma MessagePanicsIff(env: Env, es: seq<Ranged>)
    requires OrderedSearch(env.links)
    ensures MessageAt(env, es, 0) == Halt(IndexOutOfRange) <==> exists p, at :: Leads(es, 0, at, p, 1)
  {
    if MessageAt(env, es, 0) == Halt(IndexOutOfRange) {
      var p, at := MessagePanics(env, es, 0);
    }
    if p, at :| Leads(es, 0, at, p, 1) {
      PathPanicsMessage(env, es, 0, at, p);
    }
  }

  predicate NonEmptyTexts(es: seq<Ranged>) { forall i | 0 <= i < |es| :: es[i].event != Text([]) }

  lemma NonEmptyTextsNeverPanic(env: Env, es: seq<Ranged>)
    requires OrderedSearch(env.links) && NonEmptyTexts(es)
    ensures MessageAt(env, es, 0) != Halt(IndexOutOfRange)
  {
    if MessageAt(env, es, 0) == Halt(IndexOutOfRange) {
      var p, at := MessagePanics(env, es, 0);
      OnlyEmptyStarts(es, at);
    }
  }

  /** A list with one item that is an empty text. */
  const EMPTY_ITEM: seq<Ranged> :=
    [Ranged(0, 2, Start(List(None))), Ranged(0, 2, Start(Item)), Ranged(2, 2, Text([])),
     Ranged(2, 2, End(EndItem)), Ranged(2, 2, End(EndList(false)))]

  lemma EmptyItemPanics(env: Env)
    requires OrderedSearch(env.links)
    ensures MessageAt(env, EMPTY_ITEM, 0) == Halt(IndexOutOfRange)
  {
    var es := EMPTY_ITEM;
    var p := InList(es[0], [], es[1], Here);
    assert EventsP(p) == es[0..2];
    assert EmptyTexts(es[2..3]) && InlineAction(es[3].event) == Stop;
    PathPanicsMessage(env, es, 0, 2, p);
  }
}
