/**
 The recursive-descent builder over a peekable event iterator. Each method moves the iterator and
 returns as its reading function says.
 */
module MarkdownParser {
  import opened Prelude
  import opened MarkdownEvents
  import opened MarkdownReading
  import opened MarkdownTrees
  import opened MarkdownGrammar
  import opened MarkdownAcceptance
  import opened MarkdownPanics
  import opened MarkdownTokens
  import opened MarkdownUnparse
  import M = Markdown

  class EventIter {
    const events: seq<Ranged>
    var pos: nat

    constructor (events: seq<Ranged>)
      ensures this.events == events && pos == 0
    {
      this.events, pos := events, 0;
    }

    predicate Valid()
      reads this
    {
      pos <= |events|
    }

    function Peek(): (e: Option<Ranged>)
      requires Valid()
      reads this
    {
      if pos < |events| then Some(events[pos]) else None
    }

    method Next() returns (e: Option<Ranged>)
      requires Valid()
      modifies this
      ensures Valid() && e == old(Peek())
      ensures pos == if e.Some? then old(pos) + 1 else old(pos)
    {
      e := Peek();
      if e.Some? { pos := pos + 1; }
    }
  }

  /** The outcome is the one of the reading function, and so is the position after a success. */
  predicate Agrees<T(==)>(r: Result<T, Error>, pos: nat, spec: Read<T>) {
    match spec
    case Halt(e) => r == Err(e)
    case Done(value, next) => r == Ok(value) && pos == next
  }

  lemma PrefixedTwice<T>(a: seq<T>, b: seq<T>, r: Read<seq<T>>)
    ensures Prefixed(a, Prefixed(b, r)) == Prefixed(a + b, r)
    ensures Prefixed([], r) == r
  {
    if r.Done? {
      assert a + (b + r.value) == (a + b) + r.value;
      assert [] + r.value == r.value;
    }
  }

  lemma PrefixedEnd<T>(a: seq<T>, n: nat)
    ensures Prefixed(a, Done([], n)) == Done(a, n)
  {
    assert a + [] == a;
  }

  // ---- Inline elements ----

  /** Consecutive text events are joined. */
  method JoinTexts(es: seq<Ranged>, first: nat) returns (next: nat, full: M.Str)
    requires first < |es| && es[first].event.Text?
    ensures next == TextEnd(es, first) && full == Joined(es[first..next])
  {
    next, full := first, [];
    ghost var end := TextEnd(es, first);
    while next < |es| && es[next].event.Text?
      invariant first <= next <= |es| && TextEnd(es, next) == end && full == Joined(es[first..next])
    {
      JoinedSnoc(es, first, next);
      full := full + es[next].event.text;
      next := next + 1;
    }
  }

  method AppendLinks(env: Env, start: nat, end: nat, s: M.Str, elements: seq<M.Inline>) returns (r: seq<M.Inline>)
    requires OrderedSearch(env.links)
    ensures r == elements + Links(env, start, end, s)
  {
    assert M.Ordered(env.links(s), 0, |s|);
    r := M.CollectLinks(start, end, s, env.links(s), elements);
  }

  method ParseText(it: EventIter, env: Env) returns (es: seq<M.Inline>)
    requires it.Valid() && it.Peek().Some? && it.Peek().value.event.Text? && OrderedSearch(env.links)
    modifies it
    ensures it.Valid() && es == TextAt(env, it.events, old(it.pos)) && it.pos == TextEnd(it.events, old(it.pos))
  {
    var first := it.pos;
    var next, full := JoinTexts(it.events, first);
    it.pos := next;
    es := AppendLinks(env, it.events[first].start, it.events[next - 1].end, full, []);
  }

  /** A tagged run of inline elements; an image keeps its target only. */
  method ParseContainer(it: EventIter, env: Env, depth: nat) returns (r: Result<seq<M.Inline>, Error>)
    requires it.Valid() && depth <= MAX_DEPTH && OrderedSearch(env.links)
    requires it.Peek().Some? && it.Peek().value.event.Start? && it.Peek().value.event.tag.Inlined?
    modifies it
    ensures it.Valid() && Agrees(r, it.pos, ContainerAt(env, it.events, old(it.pos), depth))
    decreases Fuel(depth), 0
  {
    var start := it.events[it.pos];
    it.pos := it.pos + 1;
    var children := ParseInlines(it, env, depth + 1);
    if children.Err? { return Err(children.error); }
    var end := it.Next();
    if end.value.event != End(KindOf(start.event.tag)) { return Err(ExpectedSpecificTag); }
    r := Ok([M.Inline(start.start, end.value.end, Wrap(start.event.tag.tag, children.value))]);
  }

  /** One turn of the loop, at an event that does not end it. */
  method ParseInline(it: EventIter, env: Env, depth: nat) returns (r: Result<seq<M.Inline>, Error>)
    requires it.Valid() && depth <= MAX_DEPTH && OrderedSearch(env.links)
    requires it.Peek().Some? && InlineAction(it.Peek().value.event) != Stop
    modifies it
    ensures it.Valid() && Agrees(r, it.pos, InlineAt(env, it.events, old(it.pos), depth))
    decreases Fuel(depth), 1
  {
    var event := it.events[it.pos];
    match InlineAction(event.event)
    case Fail(error) => r := Err(error);
    case Descend(_) => r := ParseContainer(it, env, depth);
    case Run =>
      var es := ParseText(it, env);
      r := Ok(es);
    case Atom =>
      it.pos := it.pos + 1;
      r := Ok([M.Inline(event.start, event.end, AtomElement(event.event))]);
  }

  method ParseInlines(it: EventIter, env: Env, depth: nat) returns (r: Result<seq<M.Inline>, Error>)
    requires it.Valid() && OrderedSearch(env.links)
    modifies it
    ensures it.Valid() && Agrees(r, it.pos, InlinesAt(env, it.events, old(it.pos), depth))
    decreases Fuel(depth), 2
  {
    if depth > MAX_DEPTH { return Err(DepthLimitReached); }
    var result := [];
    ghost var goal := InlineRun(env, it.events, it.pos, depth);
    PrefixedTwice([], [], goal);
    while it.pos < |it.events|
      invariant it.Valid()
      invariant goal == Prefixed(result, InlineRun(env, it.events, it.pos, depth))
      decreases |it.events| - it.pos
    {
      if InlineAction(it.events[it.pos].event) == Stop {
        PrefixedEnd(result, it.pos);
        return Ok(result);
      }
      var more := ParseInline(it, env, depth);
      if more.Err? { return Err(more.error); }
      PrefixedTwice(result, more.value, InlineRun(env, it.events, it.pos, depth));
      result := result + more.value;
    }
    return Err(ExpectedMoreEvents);
  }

  // ---- Blocks without blocks inside ----

  /** A paragraph or a heading, in its tags. */
  method ParseProse(it: EventIter, env: Env, depth: nat) returns (r: Result<M.Block, Error>)
    requires it.Valid() && it.Peek().Some? && OpensProse(it.Peek().value.event) && OrderedSearch(env.links)
    modifies it
    ensures it.Valid() && Agrees(r, it.pos, ProseAt(env, it.events, old(it.pos), depth))
  {
    var start := it.events[it.pos];
    it.pos := it.pos + 1;
    var prose := ParseInlines(it, env, depth + 1);
    if prose.Err? { return Err(prose.error); }
    var end := it.Next();
    if end.value.event != End(KindOf(start.event.tag)) { return Err(ExpectedSpecificTag); }
    r := Ok(M.Block(start.start, end.value.end, ProseElement(env, start, prose.value)));
  }

  /** Inline elements where a block is expected; an empty list of them is indexed all the same. */
  method ParseImplicit(it: EventIter, env: Env, depth: nat) returns (r: Result<M.Block, Error>)
    requires it.Valid() && it.Peek().Some? && InlineAction(it.Peek().value.event) != Stop && OrderedSearch(env.links)
    modifies it
    ensures it.Valid() && Agrees(r, it.pos, ImplicitAt(env, it.events, old(it.pos), depth))
    ensures r == Err(IndexOutOfRange) <==> depth + 1 <= MAX_DEPTH && OnlyEmpty(it.events, old(it.pos))
  {
    ImplicitPanicsIff(env, it.events, it.pos, depth);
    var inner := ParseInlines(it, env, depth + 1);
    if inner.Err? { return Err(inner.error); }
    var es := inner.value;
    if es == [] { return Err(IndexOutOfRange); }
    r := Ok(M.Block(es[0].start, es[|es| - 1].end, M.Paragraph(es)));
  }

  method ReadCode(es: seq<Ranged>, first: nat) returns (next: nat, value: seq<M.CodeLine>)
    requires first <= |es|
    ensures next == RawEnd(es, first, false) && value == CodeLines(es[first..next])
  {
    next, value := first, [];
    ghost var end := RawEnd(es, first, false);
    while next < |es| && es[next].event.Text?
      invariant first <= next <= |es| && RawEnd(es, next, false) == end
      invariant value == CodeLines(es[first..next])
    {
      CodeSnoc(es, first, next);
      value := value + [M.CodeLine(es[next].start, es[next].end, Chomp(es[next].event.text))];
      next := next + 1;
    }
  }

  method ReadHtml(env: Env, es: seq<Ranged>, first: nat) returns (next: nat, value: seq<M.Inline>)
    requires first <= |es| && OrderedSearch(env.links)
    ensures next == RawEnd(es, first, true) && value == HtmlText(env, es[first..next])
  {
    next, value := first, [];
    ghost var end := RawEnd(es, first, true);
    while next < |es| && (es[next].event.Text? || es[next].event.Html?)
      invariant first <= next <= |es| && RawEnd(es, next, true) == end && value == HtmlText(env, es[first..next])
    {
      HtmlSnoc(env, es, first, next);
      value := AppendLinks(env, es[next].start, es[next].end, es[next].event.text, value);
      next := next + 1;
    }
  }

  /** What is inside a code or HTML block, and where it ends. */
  method ReadRaw(env: Env, es: seq<Ranged>, first: nat) returns (last: nat, element: M.BlockElement)
    requires first < |es| && OpensRaw(es[first].event) && OrderedSearch(env.links)
    ensures last == RawEnd(es, first + 1, es[first].event.tag.HtmlBlock?)
    ensures element == RawElement(env, es[first], es[first + 1..last])
  {
    if es[first].event == Start(CodeBlock) {
      var value;
      last, value := ReadCode(es, first + 1);
      element := M.CodeBlock(value);
    } else {
      var value;
      last, value := ReadHtml(env, es, first + 1);
      element := M.Paragraph(value);
    }
  }

  /** A code or HTML block: nothing but text up to the end tag. */
  method ParseRaw(it: EventIter, env: Env) returns (r: Result<M.Block, Error>)
    requires it.Valid() && it.Peek().Some? && OpensRaw(it.Peek().value.event) && OrderedSearch(env.links)
    modifies it
    ensures it.Valid() && Agrees(r, it.pos, RawAt(env, it.events, old(it.pos)))
  {
    var start := it.events[it.pos];
    var last, element := ReadRaw(env, it.events, it.pos);
    it.pos := last;
    var end := it.Next();
    if end.None? { return Err(ExpectedMoreEvents); }
    if end.value.event != End(KindOf(start.event.tag)) { return Err(ExpectedSpecificTag); }
    r := Ok(M.Block(start.start, end.value.end, element));
  }

  // ---- Blocks that hold blocks ----

  method ParseUntil(it: EventIter, env: Env, depth: nat, kind: Kind) returns (r: Result<seq<M.Block>, Error>)
    requires it.Valid() && OrderedSearch(env.links)
    modifies it
    ensures it.Valid() && Agrees(r, it.pos, BlocksUntil(env, it.events, old(it.pos), depth, kind))
    decreases Fuel(depth), 6
  {
    var blocks := [];
    ghost var goal := BlocksUntil(env, it.events, it.pos, depth, kind);
    PrefixedTwice([], [], goal);
    while it.pos < |it.events|
      invariant it.Valid()
      invariant goal == Prefixed(blocks, BlocksUntil(env, it.events, it.pos, depth, kind))
      decreases |it.events| - it.pos
    {
      if it.events[it.pos].event == End(kind) {
        it.pos := it.pos + 1;
        PrefixedEnd(blocks, it.pos);
        return Ok(blocks);
      }
      var block := ParseBlock(it, env, depth);
      if block.Err? { return Err(block.error); }
      PrefixedTwice(blocks, [block.value], BlocksUntil(env, it.events, it.pos, depth, kind));
      blocks := blocks + [block.value];
    }
    return Err(ExpectedMoreEvents);
  }

  method ParseQuote(it: EventIter, env: Env, depth: nat) returns (r: Result<M.Block, Error>)
    requires it.Valid() && depth <= MAX_DEPTH && OrderedSearch(env.links)
    requires it.Peek().Some? && it.Peek().value.event == Start(BlockQuote)
    modifies it
    ensures it.Valid() && Agrees(r, it.pos, QuoteAt(env, it.events, old(it.pos), depth))
    decreases Fuel(depth), 4
  {
    var start := it.events[it.pos];
    it.pos := it.pos + 1;
    var blocks := ParseUntil(it, env, depth + 1, EndBlockQuote);
    if blocks.Err? { return Err(blocks.error); }
    r := Ok(M.Block(start.start, it.events[it.pos - 1].end, M.Quote(blocks.value)));
  }

  /** One list item or table cell; `depth` is that of the list or row that holds it. */
  method ParseItem(it: EventIter, env: Env, depth: nat, tag: Tag) returns (r: Result<seq<M.Block>, Error>)
    requires it.Valid() && it.Peek().Some? && depth <= MAX_DEPTH && OrderedSearch(env.links)
    modifies it
    ensures it.Valid() && Agrees(r, it.pos, BlocksUntil(env, it.events, old(it.pos) + 1, depth + 1, KindOf(tag)))
    decreases Fuel(depth), 0
  {
    it.pos := it.pos + 1;
    r := ParseUntil(it, env, depth + 1, KindOf(tag));
  }

  /** List items or table cells, up to the tag that ends them. */
  method ParseItems(it: EventIter, env: Env, depth: nat, tag: Tag) returns (r: Result<seq<seq<M.Block>>, Error>)
    requires it.Valid() && OrderedSearch(env.links)
    modifies it
    ensures it.Valid() && Agrees(r, it.pos, ItemsAt(env, it.events, old(it.pos), depth, tag))
    decreases Fuel(depth), 1
  {
    if depth > MAX_DEPTH { return Err(DepthLimitReached); }
    var items := [];
    ghost var goal := ItemsRun(env, it.events, it.pos, depth, tag);
    PrefixedTwice([], [], goal);
    while it.pos < |it.events|
      invariant it.Valid()
      invariant goal == Prefixed(items, ItemsRun(env, it.events, it.pos, depth, tag))
      decreases |it.events| - it.pos
    {
      var event := it.events[it.pos].event;
      if EndsItems(tag, event) {
        PrefixedEnd(items, it.pos);
        return Ok(items);
      }
      if event != Start(tag) { return Err(ExpectedSpecificTag); }
      var item := ParseItem(it, env, depth, tag);
      if item.Err? { return Err(item.error); }
      PrefixedTwice(items, [item.value], ItemsRun(env, it.events, it.pos, depth, tag));
      items := items + [item.value];
    }
    return Err(ExpectedMoreEvents);
  }

  method ParseList(it: EventIter, env: Env, depth: nat) returns (r: Result<M.Block, Error>)
    requires it.Valid() && depth <= MAX_DEPTH && OrderedSearch(env.links)
    requires it.Peek().Some? && it.Peek().value.event.Start? && it.Peek().value.event.tag.List?
    modifies it
    ensures it.Valid() && Agrees(r, it.pos, ListAt(env, it.events, old(it.pos), depth))
    decreases Fuel(depth), 4
  {
    var start := it.events[it.pos];
    it.pos := it.pos + 1;
    var items := ParseItems(it, env, depth + 1, Item);
    if items.Err? { return Err(items.error); }
    var end := it.Next();
    if end.value.event != End(KindOf(start.event.tag)) { return Err(ExpectedSpecificTag); }
    r := Ok(M.Block(start.start, end.value.end, ListElement(start, items.value)));
  }

  /** A table head or a table row, at its start tag; `depth` is that of its cells. */
  method ParseRow(it: EventIter, env: Env, depth: nat, tag: Tag) returns (r: Result<seq<seq<M.Block>>, Error>)
    requires it.Valid() && it.Peek().Some? && OrderedSearch(env.links)
    modifies it
    ensures it.Valid() && Agrees(r, it.pos, RowAt(env, it.events, old(it.pos), depth, tag))
    decreases Fuel(depth), 2
  {
    it.pos := it.pos + 1;
    r := ParseItems(it, env, depth, TableCell);
    if r.Err? { return; }
    var end := it.Next();
    if end.value.event != End(KindOf(tag)) { return Err(ExpectedSpecificTag); }
  }

  method ParseRows(it: EventIter, env: Env, depth: nat) returns (r: Result<seq<seq<seq<M.Block>>>, Error>)
    requires it.Valid() && OrderedSearch(env.links)
    modifies it
    ensures it.Valid() && Agrees(r, it.pos, RowsAt(env, it.events, old(it.pos), depth))
    decreases Fuel(depth), 3
  {
    var rows := [];
    ghost var goal := RowsAt(env, it.events, it.pos, depth);
    PrefixedTwice([], [], goal);
    while it.pos < |it.events|
      invariant it.Valid()
      invariant goal == Prefixed(rows, RowsAt(env, it.events, it.pos, depth))
      decreases |it.events| - it.pos
    {
      var event := it.events[it.pos].event;
      if event == End(EndTable) {
        PrefixedEnd(rows, it.pos);
        return Ok(rows);
      }
      if event != Start(TableRow) { return Err(ExpectedSpecificTag); }
      var row := ParseRow(it, env, depth, TableRow);
      if row.Err? { return Err(row.error); }
      PrefixedTwice(rows, [row.value], RowsAt(env, it.events, it.pos, depth));
      rows := rows + [row.value];
    }
    return Err(ExpectedMoreEvents);
  }

  method ParseTable(it: EventIter, env: Env, depth: nat) returns (r: Result<M.Block, Error>)
    requires it.Valid() && depth <= MAX_DEPTH && OrderedSearch(env.links)
    requires it.Peek().Some? && it.Peek().value.event == Start(Table)
    modifies it
    ensures it.Valid() && Agrees(r, it.pos, TableAt(env, it.events, old(it.pos), depth))
    decreases Fuel(depth), 4
  {
    var start := it.events[it.pos];
    it.pos := it.pos + 1;
    if depth + 1 > MAX_DEPTH { return Err(DepthLimitReached); }
    if it.pos == |it.events| || it.events[it.pos].event != Start(TableHead) { return Err(ExpectedSpecificTag); }
    var head := ParseRow(it, env, depth + 2, TableHead);
    if head.Err? { return Err(head.error); }
    var rows := ParseRows(it, env, depth + 2);
    if rows.Err? { return Err(rows.error); }
    var end := it.Next();
    r := Ok(M.Block(start.start, end.value.end, M.Table(head.value, rows.value)));
  }

  method ParseBlock(it: EventIter, env: Env, depth: nat) returns (r: Result<M.Block, Error>)
    requires it.Valid() && OrderedSearch(env.links)
    modifies it
    ensures it.Valid() && Agrees(r, it.pos, BlockAt(env, it.events, old(it.pos), depth))
    decreases Fuel(depth), 5
  {
    if depth > MAX_DEPTH { return Err(DepthLimitReached); }
    var peek := it.Peek();
    if peek.None? { return Err(ExpectedMoreEvents); }
    match OpeningOf(peek.value.event)
    case AProse => r := ParseProse(it, env, depth);
    case AList => r := ParseList(it, env, depth);
    case ATable => r := ParseTable(it, env, depth);
    case AQuote => r := ParseQuote(it, env, depth);
    case ARaw => r := ParseRaw(it, env);
    case ARule =>
      it.pos := it.pos + 1;
      r := Ok(M.Block(peek.value.start, peek.value.end, M.HorizontalRule));
    case AnImplicit => r := ParseImplicit(it, env, depth);
    case Refuses(error) => r := Err(error);
  }

  lemma MessageOutcome(env: Env, es: seq<Ranged>)
    requires OrderedSearch(env.links)
    ensures var m := MessageAt(env, es, 0);
            && (m.Done? <==> exists ds :: WfMessage(ds) && EventsBs(ds) == es)
            && (forall ds | WfMessage(ds) && EventsBs(ds) == es :: m == Done(TreeBs(env, ds), |es|))
            && (m.Done? ==> Nested(es, []) && FitsBs(m.value, MAX_DEPTH + 2))
            && (m.Done? ==> UnparseBs(m.value, MAX_DEPTH + 1) == Scan(env, es, 0, BLOCKS))
            && (m == Halt(IndexOutOfRange) <==> exists p, at :: Leads(es, 0, at, p, 1))
  {
    var m := MessageAt(env, es, 0);
    MessagePanicsIff(env, es);
    if m.Done? {
      MessageAcceptedIff(env, es, m.value);
      var ds :| Derives(env, es, ds, m.value);
      AcceptedIsNested(env, es, m.value);
      UnparseIsScan(env, es, m.value, MAX_DEPTH + 1);
    }
    forall ds | WfMessage(ds) && EventsBs(ds) == es
      ensures m == Done(TreeBs(env, ds), |es|)
    {
      assert Derives(env, es, ds, TreeBs(env, ds));
      MessageAcceptedIff(env, es, TreeBs(env, ds));
    }
  }

  /** Accepts exactly the streams that have a derivation, and panics exactly where only empty texts stand. */
  method ParseMessage(events: seq<Ranged>, env: Env) returns (r: Result<seq<M.Block>, Error>)
    requires OrderedSearch(env.links)
    ensures Agrees(r, |events|, MessageAt(env, events, 0))
    ensures r.Ok? <==> exists ds :: WfMessage(ds) && EventsBs(ds) == events
    ensures forall ds | WfMessage(ds) && EventsBs(ds) == events :: r == Ok(TreeBs(env, ds))
    ensures r.Ok? ==> Nested(events, []) && FitsBs(r.value, MAX_DEPTH + 2)
    ensures r.Ok? ==> UnparseBs(r.value, MAX_DEPTH + 1) == Scan(env, events, 0, BLOCKS)
    ensures r == Err(IndexOutOfRange) <==> exists p, at :: Leads(events, 0, at, p, 1)
  {
    var it := new EventIter(events);
    r := Ok([]);
    ghost var goal := MessageAt(env, events, 0);
    PrefixedTwice([], [], goal);
    while r.Ok? && it.pos < |it.events|
      invariant it.Valid() && it.events == events
      invariant match r
                case Ok(blocks) => goal == Prefixed(blocks, MessageAt(env, events, it.pos))
                case Err(e) => goal == Halt(e)
      decreases r.Ok?, |it.events| - it.pos
    {
      var block := ParseBlock(it, env, 1);
      match block
      case Err(e) => r := Err(e);
      case Ok(b) =>
        PrefixedTwice(r.value, [b], MessageAt(env, events, it.pos));
        r := Ok(r.value + [b]);
    }
    if r.Ok? { PrefixedEnd(r.value, it.pos); }
    MessageOutcome(env, events);
  }
}
