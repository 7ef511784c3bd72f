/** The same for blocks and whole messages: accepted if and only if there is a derivation. */
module MarkdownAcceptance {
  import opened Prelude
  import opened MarkdownEvents
  import opened MarkdownReading
  import opened MarkdownTrees
  import opened MarkdownGrammar
  import M = Markdown

  // ---- When inline elements come to nothing ----

  lemma EmptyAppend(a: seq<Ranged>, b: seq<Ranged>)
    ensures EmptyTexts(a + b) <==> EmptyTexts(a) && EmptyTexts(b)
  {
    assert forall i | 0 <= i < |a| :: a[i] == (a + b)[i];
    assert forall i | 0 <= i < |b| :: b[i] == (a + b)[|a| + i];
  }

  lemma {:induction false} JoinedIsEmptyIff(texts: seq<Ranged>)
    requires AllText(texts)
    ensures Joined(texts) == [] <==> EmptyTexts(texts)
    decreases |texts|
  {
    if texts != [] {
      var n := |texts| - 1;
      JoinedIsEmptyIff(texts[..n]);
      assert texts == texts[..n] + [texts[n]];
      EmptyAppend(texts[..n], [texts[n]]);
      assert EmptyTexts([texts[n]]) <==> texts[n].event == Text([]) by { assert [texts[n]][0] == texts[n]; }
    }
  }

  lemma TextIsEmptyIff(env: Env, start: nat, end: nat, s: M.Str)
    requires OrderedSearch(env.links)
    ensures Links(env, start, end, s) == [] <==> s == []
  {
    assert M.Ordered(env.links(s), 0, |s|);
    M.SplitIsEmptyIff(start, end, s, env.links(s));
  }

  lemma ElementIsEmptyIff(env: Env, d: InlineD, depth: nat)
    requires WfI(d, depth) && OrderedSearch(env.links)
    ensures TreeI(env, d) == [] <==> EmptyTexts(EventsI(d))
  {
    match d
    case ContainerD(open, kids, close) => assert EventsI(d)[0] == open;
    case AtomD(e) => assert EventsI(d)[0] == e;
    case TextD(texts) =>
      TextIsEmptyIff(env, texts[0].start, texts[|texts| - 1].end, Joined(texts));
      JoinedIsEmptyIff(texts);
  }

  /** Inline elements come to nothing exactly when they were read from empty texts only. */
  lemma {:induction false} ProseIsEmptyIff(env: Env, ds: seq<InlineD>, depth: nat)
    requires WfIs(ds, depth) && OrderedSearch(env.links)
    ensures TreeIs(env, ds) == [] <==> EmptyTexts(EventsIs(ds))
    decreases |ds|
  {
    if ds != [] {
      ElementIsEmptyIff(env, ds[0], depth);
      ProseIsEmptyIff(env, ds[1..], depth);
      EmptyAppend(EventsI(ds[0]), EventsIs(ds[1..]));
    }
  }

  // ---- Everything accepted has a derivation ----

  predicate IsBlock(env: Env, es: seq<Ranged>, a: nat, b: nat, d: BlockD, depth: nat, v: M.Block) {
    a < b && WfB(d, depth) && Spans(es, a, b, EventsB(d)) && v == TreeB(env, d)
  }

  predicate AreBlocks(env: Env, es: seq<Ranged>, a: nat, b: nat, ds: seq<BlockD>, depth: nat, v: seq<M.Block>) {
    WfBs(ds, depth) && Spans(es, a, b, EventsBs(ds)) && v == TreeBs(env, ds)
  }

  predicate IsItem(env: Env, es: seq<Ranged>, a: nat, b: nat, d: ItemD, tag: Tag, depth: nat, v: seq<M.Block>) {
    a < b && WfItem(d, tag, depth) && Spans(es, a, b, EventsItem(d)) && v == TreeBs(env, d.blocks)
  }

  predicate AreItems(env: Env, es: seq<Ranged>, a: nat, b: nat, ds: seq<ItemD>, tag: Tag, depth: nat, v: seq<seq<M.Block>>) {
    WfItems(ds, tag, depth) && Spans(es, a, b, EventsItems(ds)) && v == TreeItems(env, ds)
  }

  predicate IsRow(env: Env, es: seq<Ranged>, a: nat, b: nat, d: RowD, tag: Tag, depth: nat, v: seq<seq<M.Block>>) {
    a < b && WfRow(d, tag, depth) && Spans(es, a, b, EventsRow(d)) && v == TreeItems(env, d.cells)
  }

  predicate AreRows(env: Env, es: seq<Ranged>, a: nat, b: nat, ds: seq<RowD>, depth: nat, v: seq<seq<seq<M.Block>>>) {
    WfRows(ds, depth) && Spans(es, a, b, EventsRows(ds)) && v == TreeRows(env, ds)
  }

  lemma ProseReads(env: Env, es: seq<Ranged>, pos: nat, depth: nat, v: M.Block, next: nat) returns (d: BlockD)
    requires pos < |es| && OpensProse(es[pos].event) && ProseAt(env, es, pos, depth) == Done(v, next)
    ensures IsBlock(env, es, pos, next, d, depth, v) && !d.ImplicitD?
  {
    var Done(prose, end) := InlinesAt(env, es, pos + 1, depth + 1);
    var ds := InlinesRead(env, es, pos + 1, depth + 1, prose, end);
    d := ProseD(es[pos], ds, es[end]);
    SpansBrackets(es, pos, next, es[pos], EventsIs(ds), es[end]);
  }

  lemma ImplicitReads(env: Env, es: seq<Ranged>, pos: nat, depth: nat, v: M.Block, next: nat) returns (d: BlockD)
    requires pos < |es| && InlineAction(es[pos].event) != Stop && ImplicitAt(env, es, pos, depth) == Done(v, next)
    requires OrderedSearch(env.links)
    ensures IsBlock(env, es, pos, next, d, depth, v) && next < |es| && InlineAction(es[next].event) == Stop
  {
    var Done(inner, end) := InlinesAt(env, es, pos, depth + 1);
    var ds := InlinesRead(env, es, pos, depth + 1, inner, end);
    ProseIsEmptyIff(env, ds, depth + 1);
    d := ImplicitD(ds);
  }

  lemma RawReads(env: Env, es: seq<Ranged>, pos: nat, depth: nat, v: M.Block, next: nat) returns (d: BlockD)
    requires pos < |es| && OpensRaw(es[pos].event) && RawAt(env, es, pos) == Done(v, next) && depth <= MAX_DEPTH
    ensures IsBlock(env, es, pos, next, d, depth, v) && !d.ImplicitD?
  {
    RawEndReads(es, pos + 1, es[pos].event.tag.HtmlBlock?);
    d := RawIsBlock(env, es, pos, next, depth, v);
  }

  lemma RawIsBlock(env: Env, es: seq<Ranged>, a: nat, b: nat, depth: nat, v: M.Block) returns (d: BlockD)
    requires a + 1 < b <= |es| && OpensRaw(es[a].event) && Closes(es[a], es[b - 1]) && depth <= MAX_DEPTH
    requires forall k | a + 1 <= k < b - 1 :: IsRaw(es[k].event, es[a].event.tag.HtmlBlock?)
    requires v == M.Block(es[a].start, es[b - 1].end, RawElement(env, es[a], es[a + 1..b - 1]))
    ensures IsBlock(env, es, a, b, d, depth, v) && !d.ImplicitD?
  {
    d := RawD(es[a], es[a + 1..b - 1], es[b - 1]);
    SpansBrackets(es, a, b, es[a], d.texts, es[b - 1]);
  }

  lemma {:induction false} BlockReads(env: Env, es: seq<Ranged>, pos: nat, depth: nat, v: M.Block, next: nat) returns (d: BlockD)
    requires pos <= |es| && BlockAt(env, es, pos, depth) == Done(v, next) && OrderedSearch(env.links)
    ensures IsBlock(env, es, pos, next, d, depth, v)
    ensures d.ImplicitD? ==> next < |es| && InlineAction(es[next].event) == Stop
    decreases Fuel(depth), |es| - pos, 1
  {
    match OpeningOf(es[pos].event)
    case AProse => d := ProseReads(env, es, pos, depth, v, next);
    case AList => d := ListReads(env, es, pos, depth, v, next);
    case ATable => d := TableReads(env, es, pos, depth, v, next);
    case AQuote => d := QuoteReads(env, es, pos, depth, v, next);
    case ARaw => d := RawReads(env, es, pos, depth, v, next);
    case ARule =>
      d := RuleD(es[pos]);
      SpansOne(es, pos, pos + 1, es[pos], []);
    case AnImplicit => d := ImplicitReads(env, es, pos, depth, v, next);
  }

  lemma {:induction false} QuoteReads(env: Env, es: seq<Ranged>, pos: nat, depth: nat, v: M.Block, next: nat) returns (d: BlockD)
    requires pos < |es| && es[pos].event == Start(BlockQuote) && depth <= MAX_DEPTH && OrderedSearch(env.links)
    requires QuoteAt(env, es, pos, depth) == Done(v, next)
    ensures IsBlock(env, es, pos, next, d, depth, v) && !d.ImplicitD?
    decreases Fuel(depth), |es| - pos, 0
  {
    var blocks := QuoteHolds(env, es, pos, depth, v, next);
    var ds := UntilReads(env, es, pos + 1, depth + 1, EndBlockQuote, blocks, next);
    d := QuoteIsBlock(env, es, pos, next, ds, depth, blocks, v);
  }

  lemma QuoteHolds(env: Env, es: seq<Ranged>, pos: nat, depth: nat, v: M.Block, next: nat) returns (blocks: seq<M.Block>)
    requires pos < |es| && es[pos].event == Start(BlockQuote) && depth <= MAX_DEPTH
    requires QuoteAt(env, es, pos, depth) == Done(v, next)
    ensures BlocksUntil(env, es, pos + 1, depth + 1, EndBlockQuote) == Done(blocks, next)
    ensures v == M.Block(es[pos].start, es[next - 1].end, M.Quote(blocks))
  {
    blocks := BlocksUntil(env, es, pos + 1, depth + 1, EndBlockQuote).value;
  }

  lemma QuoteIsBlock(env: Env, es: seq<Ranged>, a: nat, b: nat, ds: seq<BlockD>, depth: nat, blocks: seq<M.Block>, v: M.Block)
    returns (d: BlockD)
    requires a + 1 < b <= |es| && AreBlocks(env, es, a + 1, b - 1, ds, depth + 1, blocks) && depth <= MAX_DEPTH
    requires Brackets(es[a], es[b - 1], BlockQuote) && v == M.Block(es[a].start, es[b - 1].end, M.Quote(blocks))
    ensures IsBlock(env, es, a, b, d, depth, v) && !d.ImplicitD?
  {
    d := QuoteD(es[a], ds, es[b - 1]);
    SpansBrackets(es, a, b, es[a], EventsBs(ds), es[b - 1]);
  }

  lemma MoreBlocks(env: Env, es: seq<Ranged>, a: nat, b: nat, c: nat, d: BlockD, ds: seq<BlockD>, depth: nat, v: M.Block,
                   more: seq<M.Block>)
    requires IsBlock(env, es, a, b, d, depth, v) && AreBlocks(env, es, b, c, ds, depth, more)
    requires d.ImplicitD? ==> b < |es| && InlineAction(es[b].event) == Stop
    ensures AreBlocks(env, es, a, c, [d] + ds, depth, [v] + more)
  {
    assert ([d] + ds)[1..] == ds;
    SpansJoin(es, a, b, c, EventsB(d), EventsBs(ds));
    if ds != [] {
      FirstOfBlock(ds[0], depth);
      assert EventsBs(ds)[0] == EventsB(ds[0])[0];
    }
  }

  lemma {:induction false} UntilReads(env: Env, es: seq<Ranged>, pos: nat, depth: nat, kind: Kind, v: seq<M.Block>, next: nat)
    returns (ds: seq<BlockD>)
    requires pos <= |es| && BlocksUntil(env, es, pos, depth, kind) == Done(v, next) && OrderedSearch(env.links)
    ensures AreBlocks(env, es, pos, next - 1, ds, depth, v)
    decreases Fuel(depth), |es| - pos, 2
  {
    if es[pos].event == End(kind) {
      ds := [];
    } else {
      var Done(block, after) := BlockAt(env, es, pos, depth);
      var Done(more, _) := BlocksUntil(env, es, after, depth, kind);
      var d := BlockReads(env, es, pos, depth, block, after);
      var rest := UntilReads(env, es, after, depth, kind, more, next);
      MoreBlocks(env, es, pos, after, next - 1, d, rest, depth, block, more);
      ds := [d] + rest;
    }
  }

  lemma {:induction false} ItemReads(env: Env, es: seq<Ranged>, pos: nat, depth: nat, tag: Tag, v: seq<M.Block>, next: nat)
    returns (d: ItemD)
    requires pos < |es| && depth <= MAX_DEPTH && es[pos].event == Start(tag) && OrderedSearch(env.links)
    requires BlocksUntil(env, es, pos + 1, depth + 1, KindOf(tag)) == Done(v, next)
    ensures IsItem(env, es, pos, next, d, tag, depth, v)
    decreases Fuel(depth), |es| - pos, 0
  {
    var blocks := UntilReads(env, es, pos + 1, depth + 1, KindOf(tag), v, next);
    d := BlocksAreItem(env, es, pos, next, blocks, tag, depth, v);
  }

  lemma BlocksAreItem(env: Env, es: seq<Ranged>, a: nat, b: nat, ds: seq<BlockD>, tag: Tag, depth: nat, v: seq<M.Block>)
    returns (d: ItemD)
    requires a + 1 < b <= |es| && AreBlocks(env, es, a + 1, b - 1, ds, depth + 1, v) && Brackets(es[a], es[b - 1], tag)
    ensures IsItem(env, es, a, b, d, tag, depth, v)
  {
    d := ItemD(es[a], ds, es[b - 1]);
    SpansBrackets(es, a, b, es[a], EventsBs(ds), es[b - 1]);
  }

  lemma MoreItems(env: Env, es: seq<Ranged>, a: nat, b: nat, c: nat, d: ItemD, ds: seq<ItemD>, tag: Tag, depth: nat,
                  v: seq<M.Block>, more: seq<seq<M.Block>>)
    requires IsItem(env, es, a, b, d, tag, depth, v) && AreItems(env, es, b, c, ds, tag, depth, more)
    ensures AreItems(env, es, a, c, [d] + ds, tag, depth, [v] + more)
  {
    assert ([d] + ds)[1..] == ds;
    SpansJoin(es, a, b, c, EventsItem(d), EventsItems(ds));
  }

  lemma {:induction false} ItemsRead(env: Env, es: seq<Ranged>, pos: nat, depth: nat, tag: Tag, v: seq<seq<M.Block>>, end: nat)
    returns (ds: seq<ItemD>)
    requires pos <= |es| && depth <= MAX_DEPTH && ItemsRun(env, es, pos, depth, tag) == Done(v, end) && OrderedSearch(env.links)
    ensures AreItems(env, es, pos, end, ds, tag, depth, v)
    decreases Fuel(depth), |es| - pos, 1
  {
    if EndsItems(tag, es[pos].event) {
      ds := [];
    } else {
      var Done(item, next) := BlocksUntil(env, es, pos + 1, depth + 1, KindOf(tag));
      var Done(more, _) := ItemsRun(env, es, next, depth, tag);
      var d := ItemReads(env, es, pos, depth, tag, item, next);
      var rest := ItemsRead(env, es, next, depth, tag, more, end);
      MoreItems(env, es, pos, next, end, d, rest, tag, depth, item, more);
      ds := [d] + rest;
    }
  }

  lemma {:induction false} ListReads(env: Env, es: seq<Ranged>, pos: nat, depth: nat, v: M.Block, next: nat) returns (d: BlockD)
    requires pos < |es| && es[pos].event.Start? && es[pos].event.tag.List? && depth <= MAX_DEPTH && OrderedSearch(env.links)
    requires ListAt(env, es, pos, depth) == Done(v, next)
    ensures IsBlock(env, es, pos, next, d, depth, v) && !d.ImplicitD?
    decreases Fuel(depth), |es| - pos, 0
  {
    var Done(items, end) := ItemsAt(env, es, pos + 1, depth + 1, Item);
    var ds := ItemsRead(env, es, pos + 1, depth + 1, Item, items, end);
    d := ListD(es[pos], ds, es[end]);
    ListIsBlock(env, es, pos, end, ds, depth, items);
  }

  lemma ListIsBlock(env: Env, es: seq<Ranged>, a: nat, b: nat, ds: seq<ItemD>, depth: nat, items: seq<seq<M.Block>>)
    requires a < b < |es| && AreItems(env, es, a + 1, b, ds, Item, depth + 1, items) && depth + 1 <= MAX_DEPTH
    requires Closes(es[a], es[b]) && es[a].event.tag.List?
    ensures IsBlock(env, es, a, b + 1, ListD(es[a], ds, es[b]), depth,
                    M.Block(es[a].start, es[b].end, ListElement(es[a], items)))
  {
    SpansBrackets(es, a, b + 1, es[a], EventsItems(ds), es[b]);
  }

  lemma {:induction false} RowReads(env: Env, es: seq<Ranged>, pos: nat, depth: nat, tag: Tag, v: seq<seq<M.Block>>, next: nat)
    returns (d: RowD)
    requires pos < |es| && es[pos].event == Start(tag) && RowAt(env, es, pos, depth, tag) == Done(v, next) && OrderedSearch(env.links)
    ensures IsRow(env, es, pos, next, d, tag, depth, v)
    decreases Fuel(depth), |es| - pos, 2
  {
    var Done(cells, end) := ItemsAt(env, es, pos + 1, depth, TableCell);
    var ds := ItemsRead(env, es, pos + 1, depth, TableCell, cells, end);
    d := RowD(es[pos], ds, es[end]);
    CellsAreRow(env, es, pos, end, ds, tag, depth, cells);
  }

  lemma CellsAreRow(env: Env, es: seq<Ranged>, a: nat, b: nat, ds: seq<ItemD>, tag: Tag, depth: nat, cells: seq<seq<M.Block>>)
    requires a < b < |es| && AreItems(env, es, a + 1, b, ds, TableCell, depth, cells) && depth <= MAX_DEPTH
    requires Brackets(es[a], es[b], tag)
    ensures IsRow(env, es, a, b + 1, RowD(es[a], ds, es[b]), tag, depth, cells)
  {
    SpansBrackets(es, a, b + 1, es[a], EventsItems(ds), es[b]);
  }

  lemma MoreRows(env: Env, es: seq<Ranged>, a: nat, b: nat, c: nat, d: RowD, ds: seq<RowD>, depth: nat,
                 v: seq<seq<M.Block>>, more: seq<seq<seq<M.Block>>>)
    requires IsRow(env, es, a, b, d, TableRow, depth, v) && AreRows(env, es, b, c, ds, depth, more)
    ensures AreRows(env, es, a, c, [d] + ds, depth, [v] + more)
  {
    assert ([d] + ds)[1..] == ds;
    SpansJoin(es, a, b, c, EventsRow(d), EventsRows(ds));
  }

  lemma {:induction false} RowsRead(env: Env, es: seq<Ranged>, pos: nat, depth: nat, v: seq<seq<seq<M.Block>>>, end: nat)
    returns (ds: seq<RowD>)
    requires pos <= |es| && RowsAt(env, es, pos, depth) == Done(v, end) && OrderedSearch(env.links)
    ensures AreRows(env, es, pos, end, ds, depth, v)
    decreases Fuel(depth), |es| - pos, 3
  {
    if es[pos].event == End(EndTable) {
      ds := [];
    } else {
      var Done(row, next) := RowAt(env, es, pos, depth, TableRow);
      var Done(more, _) := RowsAt(env, es, next, depth);
      var d := RowReads(env, es, pos, depth, TableRow, row, next);
      var rest := RowsRead(env, es, next, depth, more, end);
      MoreRows(env, es, pos, next, end, d, rest, depth, row, more);
      ds := [d] + rest;
    }
  }

  lemma {:induction false} TableReads(env: Env, es: seq<Ranged>, pos: nat, depth: nat, v: M.Block, next: nat) returns (d: BlockD)
    requires pos < |es| && es[pos].event == Start(Table) && depth <= MAX_DEPTH && OrderedSearch(env.links)
    requires TableAt(env, es, pos, depth) == Done(v, next)
    ensures IsBlock(env, es, pos, next, d, depth, v) && !d.ImplicitD?
    decreases Fuel(depth), |es| - pos, 0
  {
    var head, mid, rows := TableHolds(env, es, pos, depth, v, next);
    var headD := RowReads(env, es, pos + 1, depth + 2, TableHead, head, mid);
    var rowDs := RowsRead(env, es, mid, depth + 2, rows, next - 1);
    d := TableIsBlock(env, es, pos, mid, next, headD, rowDs, depth, head, rows, v);
  }

  lemma TableHolds(env: Env, es: seq<Ranged>, pos: nat, depth: nat, v: M.Block, next: nat)
    returns (head: seq<seq<M.Block>>, mid: nat, rows: seq<seq<seq<M.Block>>>)
    requires pos < |es| && es[pos].event == Start(Table) && depth <= MAX_DEPTH
    requires TableAt(env, es, pos, depth) == Done(v, next)
    ensures depth + 1 <= MAX_DEPTH && pos + 1 < mid < next <= |es| && es[pos + 1].event == Start(TableHead)
    ensures RowAt(env, es, pos + 1, depth + 2, TableHead) == Done(head, mid)
    ensures RowsAt(env, es, mid, depth + 2) == Done(rows, next - 1) && es[next - 1].event == End(EndTable)
    ensures v == M.Block(es[pos].start, es[next - 1].end, M.Table(head, rows))
  {
    head, mid := RowAt(env, es, pos + 1, depth + 2, TableHead).value, RowAt(env, es, pos + 1, depth + 2, TableHead).next;
    rows := RowsAt(env, es, mid, depth + 2).value;
  }

  lemma TableIsBlock(env: Env, es: seq<Ranged>, a: nat, mid: nat, b: nat, headD: RowD, rowDs: seq<RowD>, depth: nat,
                     head: seq<seq<M.Block>>, rows: seq<seq<seq<M.Block>>>, v: M.Block) returns (d: BlockD)
    requires a + 1 < b <= |es| && Brackets(es[a], es[b - 1], Table) && depth + 1 <= MAX_DEPTH
    requires IsRow(env, es, a + 1, mid, headD, TableHead, depth + 2, head) && AreRows(env, es, mid, b - 1, rowDs, depth + 2, rows)
    requires v == M.Block(es[a].start, es[b - 1].end, M.Table(head, rows))
    ensures IsBlock(env, es, a, b, d, depth, v) && !d.ImplicitD?
  {
    d := TableD(es[a], headD, rowDs, es[b - 1]);
    TableSpans(es, a, mid, b, headD, rowDs);
  }

  lemma TableSpans(es: seq<Ranged>, a: nat, mid: nat, b: nat, head: RowD, rows: seq<RowD>)
    requires a + 1 < b <= |es| && Spans(es, a + 1, mid, EventsRow(head)) && Spans(es, mid, b - 1, EventsRows(rows))
    ensures Spans(es, a, b, EventsB(TableD(es[a], head, rows, es[b - 1])))
  {
    SpansJoin(es, a + 1, mid, b - 1, EventsRow(head), EventsRows(rows));
    SpansBrackets(es, a, b, es[a], EventsRow(head) + EventsRows(rows), es[b - 1]);
  }

  lemma {:induction false} MessageReads(env: Env, es: seq<Ranged>, pos: nat, v: seq<M.Block>) returns (ds: seq<BlockD>)
    requires pos <= |es| && MessageAt(env, es, pos) == Done(v, |es|) && OrderedSearch(env.links)
    ensures WfMessage(ds) && AreBlocks(env, es, pos, |es|, ds, 1, v) && (ds == [] <==> pos == |es|)
    decreases |es| - pos
  {
    if pos == |es| {
      ds := [];
    } else {
      var Done(block, next) := BlockAt(env, es, pos, 1);
      var Done(more, _) := MessageAt(env, es, next);
      var d := BlockReads(env, es, pos, 1, block, next);
      var rest := MessageReads(env, es, next, more);
      MoreBlocks(env, es, pos, next, |es|, d, rest, 1, block, more);
      ds := [d] + rest;
      assert rest != [] ==> ds[|ds| - 1] == rest[|rest| - 1];
    }
  }

  // ---- Every derivation is accepted ----

  lemma ProseAccepts(env: Env, es: seq<Ranged>, a: nat, b: nat, d: BlockD, depth: nat)
    requires WfB(d, depth) && d.ProseD? && Spans(es, a, b, EventsB(d)) && a < |es| && OpensProse(es[a].event)
    ensures ProseAt(env, es, a, depth) == Done(TreeB(env, d), b)
  {
    SpansBrackets(es, a, b, d.open, EventsIs(d.prose), d.close);
    RunAccepts(env, es, a + 1, b - 1, d.prose, depth + 1);
  }

  lemma ImplicitAccepts(env: Env, es: seq<Ranged>, a: nat, b: nat, d: BlockD, depth: nat)
    requires WfB(d, depth) && d.ImplicitD? && Spans(es, a, b, EventsB(d)) && OrderedSearch(env.links)
    requires b < |es| && InlineAction(es[b].event) == Stop && InlineAction(es[a].event) != Stop
    ensures ImplicitAt(env, es, a, depth) == Done(TreeB(env, d), b)
  {
    ProseIsEmptyIff(env, d.prose, depth + 1);
    RunAccepts(env, es, a, b, d.prose, depth + 1);
  }

  lemma RawAccepts(env: Env, es: seq<Ranged>, a: nat, b: nat, d: BlockD, depth: nat)
    requires WfB(d, depth) && d.RawD? && Spans(es, a, b, EventsB(d)) && a < |es| && OpensRaw(es[a].event)
    ensures RawAt(env, es, a) == Done(TreeB(env, d), b)
  {
    SpansBrackets(es, a, b, d.open, d.texts, d.close);
    assert forall k | a + 1 <= k < b - 1 :: es[k] == es[a + 1..b - 1][k - a - 1];
    RawEndIs(es, a + 1, b - 1, es[a].event.tag.HtmlBlock?);
  }

  /** An implicit paragraph is accepted only in front of an event that ends it. */
  predicate EndsWell(es: seq<Ranged>, d: BlockD, end: nat) {
    d.ImplicitD? ==> end < |es| && InlineAction(es[end].event) == Stop
  }

  lemma BlockStarts(es: seq<Ranged>, a: nat, b: nat, d: BlockD, depth: nat)
    requires WfB(d, depth) && Spans(es, a, b, EventsB(d))
    ensures a < b && FirstFits(d, es[a].event)
  {
    FirstOfBlock(d, depth);
    assert es[a..b][0] == es[a];
  }

  lemma {:induction false} BlockAccepts(env: Env, es: seq<Ranged>, a: nat, b: nat, d: BlockD, depth: nat)
    requires WfB(d, depth) && Spans(es, a, b, EventsB(d)) && EndsWell(es, d, b) && OrderedSearch(env.links)
    ensures a < b && !es[a].event.End? && BlockAt(env, es, a, depth) == Done(TreeB(env, d), b)
    decreases d, 1
  {
    BlockStarts(es, a, b, d, depth);
    match d
    case ProseD(_, _, _) => ProseAccepts(env, es, a, b, d, depth);
    case ImplicitD(_) => ImplicitAccepts(env, es, a, b, d, depth);
    case RawD(_, _, _) => RawAccepts(env, es, a, b, d, depth);
    case RuleD(_) =>
    case QuoteD(_, _, _) => QuoteAccepts(env, es, a, b, d, depth);
    case ListD(_, _, _) => ListAccepts(env, es, a, b, d, depth);
    case TableD(_, _, _, _) => TableAccepts(env, es, a, b, d, depth);
  }

  lemma {:induction false} QuoteAccepts(env: Env, es: seq<Ranged>, a: nat, b: nat, d: BlockD, depth: nat)
    requires WfB(d, depth) && d.QuoteD? && Spans(es, a, b, EventsB(d)) && OrderedSearch(env.links)
    requires a < |es| && es[a].event == Start(BlockQuote)
    ensures QuoteAt(env, es, a, depth) == Done(TreeB(env, d), b)
    decreases d, 0
  {
    SpansBrackets(es, a, b, d.open, EventsBs(d.blocks), d.close);
    UntilAccepts(env, es, a + 1, b - 1, d.blocks, depth + 1, EndBlockQuote);
  }

  lemma {:induction false} ListAccepts(env: Env, es: seq<Ranged>, a: nat, b: nat, d: BlockD, depth: nat)
    requires WfB(d, depth) && d.ListD? && Spans(es, a, b, EventsB(d)) && OrderedSearch(env.links)
    requires a < |es| && es[a].event.Start? && es[a].event.tag.List?
    ensures ListAt(env, es, a, depth) == Done(TreeB(env, d), b)
    decreases d, 0
  {
    SpansBrackets(es, a, b, d.open, EventsItems(d.items), d.close);
    ItemsAccept(env, es, a + 1, b - 1, d.items, Item, depth + 1);
  }

  lemma {:induction false} TableAccepts(env: Env, es: seq<Ranged>, a: nat, b: nat, d: BlockD, depth: nat)
    requires WfB(d, depth) && d.TableD? && Spans(es, a, b, EventsB(d)) && OrderedSearch(env.links)
    requires a < |es| && es[a].event == Start(Table)
    ensures TableAt(env, es, a, depth) == Done(TreeB(env, d), b)
    decreases d, 0
  {
    var mid := TableParts(es, a, b, d);
    RowAccepts(env, es, a + 1, mid, d.head, TableHead, depth + 2);
    RowsAccept(env, es, mid, b - 1, d.rows, depth + 2);
    TableFollows(env, es, a, mid, b, depth, TreeItems(env, d.head.cells), TreeRows(env, d.rows));
  }

  lemma TableParts(es: seq<Ranged>, a: nat, b: nat, d: BlockD) returns (mid: nat)
    requires d.TableD? && Spans(es, a, b, EventsB(d))
    ensures a + 1 < b && es[a] == d.open && es[b - 1] == d.close
    ensures Spans(es, a + 1, mid, EventsRow(d.head)) && Spans(es, mid, b - 1, EventsRows(d.rows))
  {
    SpansBrackets(es, a, b, d.open, EventsRow(d.head) + EventsRows(d.rows), d.close);
    mid := SpansSplit(es, a + 1, b - 1, EventsRow(d.head), EventsRows(d.rows));
  }

  lemma TableFollows(env: Env, es: seq<Ranged>, a: nat, mid: nat, b: nat, depth: nat, head: seq<seq<M.Block>>,
                     rows: seq<seq<seq<M.Block>>>)
    requires a + 1 < mid < b <= |es| && depth + 1 <= MAX_DEPTH && es[a].event == Start(Table)
    requires es[a + 1].event == Start(TableHead) && RowAt(env, es, a + 1, depth + 2, TableHead) == Done(head, mid)
    requires RowsAt(env, es, mid, depth + 2) == Done(rows, b - 1)
    ensures TableAt(env, es, a, depth) == Done(M.Block(es[a].start, es[b - 1].end, M.Table(head, rows)), b)
  {
  }

  /** What follows a block: the next one, or what ends them all. */
  lemma AfterBlock(es: seq<Ranged>, a: nat, b: nat, ds: seq<BlockD>, depth: nat)
    requires ds != [] && WfBs(ds, depth) && Spans(es, a, b, EventsBs(ds[1..]))
    requires |ds| == 1 ==> EndsWell(es, ds[0], a)
    ensures EndsWell(es, ds[0], a)
  {
    if |ds| > 1 {
      FirstOfBlock(ds[1], depth);
      assert ds[1..][0] == ds[1];
      assert es[a..b][0] == es[a];
    }
  }

  lemma {:induction false} UntilAccepts(env: Env, es: seq<Ranged>, a: nat, b: nat, ds: seq<BlockD>, depth: nat, kind: Kind)
    requires WfBs(ds, depth) && Spans(es, a, b, EventsBs(ds)) && b < |es| && es[b].event == End(kind)
    requires OrderedSearch(env.links)
    ensures BlocksUntil(env, es, a, depth, kind) == Done(TreeBs(env, ds), b + 1)
    decreases ds, 2
  {
    if ds != [] {
      var mid := SpansSplit(es, a, b, EventsB(ds[0]), EventsBs(ds[1..]));
      AfterBlock(es, mid, b, ds, depth);
      BlockAccepts(env, es, a, mid, ds[0], depth);
      UntilAccepts(env, es, mid, b, ds[1..], depth, kind);
    }
  }

  lemma {:induction false} ItemsAccept(env: Env, es: seq<Ranged>, a: nat, b: nat, ds: seq<ItemD>, tag: Tag, depth: nat)
    requires WfItems(ds, tag, depth) && Spans(es, a, b, EventsItems(ds)) && b < |es| && EndsItems(tag, es[b].event)
    requires depth <= MAX_DEPTH && OrderedSearch(env.links)
    ensures ItemsRun(env, es, a, depth, tag) == Done(TreeItems(env, ds), b)
    decreases ds, 2
  {
    if ds != [] {
      var mid := SpansSplit(es, a, b, EventsItem(ds[0]), EventsItems(ds[1..]));
      ItemAccepts(env, es, a, mid, ds[0], tag, depth);
      ItemsAccept(env, es, mid, b, ds[1..], tag, depth);
    }
  }

  lemma {:induction false} ItemAccepts(env: Env, es: seq<Ranged>, a: nat, b: nat, d: ItemD, tag: Tag, depth: nat)
    requires WfItem(d, tag, depth) && Spans(es, a, b, EventsItem(d)) && OrderedSearch(env.links)
    ensures a < b && es[a].event == Start(tag)
    ensures BlocksUntil(env, es, a + 1, depth + 1, KindOf(tag)) == Done(TreeBs(env, d.blocks), b)
    decreases d, 0
  {
    SpansBrackets(es, a, b, d.open, EventsBs(d.blocks), d.close);
    UntilAccepts(env, es, a + 1, b - 1, d.blocks, depth + 1, KindOf(tag));
  }

  lemma {:induction false} RowAccepts(env: Env, es: seq<Ranged>, a: nat, b: nat, d: RowD, tag: Tag, depth: nat)
    requires WfRow(d, tag, depth) && (tag == TableHead || tag == TableRow) && Spans(es, a, b, EventsRow(d))
    requires OrderedSearch(env.links)
    ensures a < b && es[a].event == Start(tag) && RowAt(env, es, a, depth, tag) == Done(TreeItems(env, d.cells), b)
    decreases d, 0
  {
    SpansBrackets(es, a, b, d.open, EventsItems(d.cells), d.close);
    ItemsAccept(env, es, a + 1, b - 1, d.cells, TableCell, depth);
  }

  lemma {:induction false} RowsAccept(env: Env, es: seq<Ranged>, a: nat, b: nat, ds: seq<RowD>, depth: nat)
    requires WfRows(ds, depth) && Spans(es, a, b, EventsRows(ds)) && b < |es| && es[b].event == End(EndTable)
    requires OrderedSearch(env.links)
    ensures RowsAt(env, es, a, depth) == Done(TreeRows(env, ds), b)
    decreases ds, 2
  {
    if ds != [] {
      var mid := SpansSplit(es, a, b, EventsRow(ds[0]), EventsRows(ds[1..]));
      RowAccepts(env, es, a, mid, ds[0], TableRow, depth);
      RowsAccept(env, es, mid, b, ds[1..], depth);
    }
  }

  lemma {:induction false} MessageAccepts(env: Env, es: seq<Ranged>, a: nat, ds: seq<BlockD>)
    requires WfMessage(ds) && Spans(es, a, |es|, EventsBs(ds)) && OrderedSearch(env.links)
    ensures MessageAt(env, es, a) == Done(TreeBs(env, ds), |es|)
    decreases ds
  {
    if ds != [] {
      var mid := SpansSplit(es, a, |es|, EventsB(ds[0]), EventsBs(ds[1..]));
      AfterBlock(es, mid, |es|, ds, 1);
      BlockAccepts(env, es, a, mid, ds[0], 1);
      MessageAccepts(env, es, mid, ds[1..]);
    }
  }

  // ---- Whole messages ----

  predicate Derives(env: Env, es: seq<Ranged>, ds: seq<BlockD>, v: seq<M.Block>) {
    WfMessage(ds) && EventsBs(ds) == es && v == TreeBs(env, ds)
  }

  /** The builder accepts exactly the streams that have a derivation, and builds exactly its tree. */
  lemma MessageAcceptedIff(env: Env, es: seq<Ranged>, v: seq<M.Block>)
    requires OrderedSearch(env.links)
    ensures MessageAt(env, es, 0) == Done(v, |es|) <==> exists ds :: Derives(env, es, ds, v)
  {
    assert es[0..|es|] == es;
    if MessageAt(env, es, 0) == Done(v, |es|) {
      var ds := MessageReads(env, es, 0, v);
      assert Derives(env, es, ds, v);
    }
    if ds :| Derives(env, es, ds, v) {
      MessageAccepts(env, es, 0, ds);
    }
  }

  /** No stream can be read in two ways that come to different trees. */
  lemma Unambiguous(env: Env, es: seq<Ranged>, ds: seq<BlockD>, ds': seq<BlockD>, v: seq<M.Block>, v': seq<M.Block>)
    requires Derives(env, es, ds, v) && Derives(env, es, ds', v') && OrderedSearch(env.links)
    ensures v == v'
  {
    MessageAcceptedIff(env, es, v);
    MessageAcceptedIff(env, es, v');
  }

  /** An accepted stream is properly nested, and its tree at most two levels taller than the limit. */
  lemma AcceptedIsNested(env: Env, es: seq<Ranged>, v: seq<M.Block>)
    requires MessageAt(env, es, 0) == Done(v, |es|) && OrderedSearch(env.links)
    ensures Nested(es, []) && FitsBs(v, MAX_DEPTH + 2)
  {
    assert es[0..|es|] == es;
    var ds := MessageReads(env, es, 0, v);
    NestedBs(ds, 1, []);
    BlocksFit(env, ds, 1);
  }
}
