/**
 What the builder makes of an event stream, as functions of the position it reads from: a value and
 the position after it, or the error it stops with.
 */
module MarkdownReading {
  import opened Prelude
  import opened MarkdownEvents
  import M = Markdown

  datatype Read<+T> = Done(value: T, next: nat) | Halt(error: Error)

  /** What is left of the depth limit. */
  function Fuel(depth: nat): (n: nat) { if depth > MAX_DEPTH then 0 else MAX_DEPTH + 1 - depth }

  /** Where the run of text events from `pos` on ends. */
  function TextEnd(es: seq<Ranged>, pos: nat): (end: nat)
    requires pos <= |es|
    ensures pos <= end <= |es| && (end < |es| ==> !es[end].event.Text?)
    decreases |es| - pos
  {
    if pos < |es| && es[pos].event.Text? then TextEnd(es, pos + 1) else pos
  }

  predicate IsRaw(e: Event, html: bool) { e.Text? || (html && e.Html?) }

  /** Where the contents of a code or HTML block end. */
  function RawEnd(es: seq<Ranged>, pos: nat, html: bool): (end: nat)
    requires pos <= |es|
    ensures pos <= end <= |es|
    decreases |es| - pos
  {
    if pos < |es| && IsRaw(es[pos].event, html) then RawEnd(es, pos + 1, html) else pos
  }

  /** The value so far in front of what is read next. */
  function Prefixed<T>(front: seq<T>, r: Read<seq<T>>): (p: Read<seq<T>>) {
    match r
    case Halt(e) => Halt(e)
    case Done(value, next) => Done(front + value, next)
  }

  // ---- Inline elements ----

  function TextAt(env: Env, es: seq<Ranged>, pos: nat): (es': seq<M.Inline>)
    requires pos < |es| && es[pos].event.Text?
  {
    var end := TextEnd(es, pos);
    Links(env, es[pos].start, es[end - 1].end, Joined(es[pos..end]))
  }

  function AtomAt(e: Ranged): (es: seq<M.Inline>) { [M.Inline(e.start, e.end, AtomElement(e.event))] }

  function ContainerAt(env: Env, es: seq<Ranged>, pos: nat, depth: nat): (r: Read<seq<M.Inline>>)
    requires pos < |es| && es[pos].event.Start? && es[pos].event.tag.Inlined? && depth <= MAX_DEPTH
    ensures r.Done? ==> pos < r.next <= |es|
    decreases Fuel(depth), |es| - pos, 0
  {
    match InlinesAt(env, es, pos + 1, depth + 1)
    case Halt(e) => Halt(e)
    case Done(kids, end) =>
      if es[end].event != End(KindOf(es[pos].event.tag)) then Halt(ExpectedSpecificTag)
      else Done([M.Inline(es[pos].start, es[end].end, Wrap(es[pos].event.tag.tag, kids))], end + 1)
  }

  /** One element, at an event that does not end the run. */
  function InlineAt(env: Env, es: seq<Ranged>, pos: nat, depth: nat): (r: Read<seq<M.Inline>>)
    requires pos < |es| && InlineAction(es[pos].event) != Stop && depth <= MAX_DEPTH
    ensures r.Done? ==> pos < r.next <= |es|
    decreases Fuel(depth), |es| - pos, 1
  {
    match InlineAction(es[pos].event)
    case Fail(e) => Halt(e)
    case Run => Done(TextAt(env, es, pos), TextEnd(es, pos))
    case Atom => Done(AtomAt(es[pos]), pos + 1)
    case Descend(_) => ContainerAt(env, es, pos, depth)
  }

  function InlineRun(env: Env, es: seq<Ranged>, pos: nat, depth: nat): (r: Read<seq<M.Inline>>)
    requires pos <= |es| && depth <= MAX_DEPTH
    ensures r.Done? ==> pos <= r.next < |es| && InlineAction(es[r.next].event) == Stop
    decreases Fuel(depth), |es| - pos, 2
  {
    if pos == |es| then Halt(ExpectedMoreEvents)
    else if InlineAction(es[pos].event) == Stop then Done([], pos)
    else
      match InlineAt(env, es, pos, depth)
      case Halt(e) => Halt(e)
      case Done(more, next) => Prefixed(more, InlineRun(env, es, next, depth))
  }

  function InlinesAt(env: Env, es: seq<Ranged>, pos: nat, depth: nat): (r: Read<seq<M.Inline>>)
    requires pos <= |es|
    ensures r.Done? ==> pos <= r.next < |es| && InlineAction(es[r.next].event) == Stop
    decreases Fuel(depth), |es| - pos, 3
  {
    if depth > MAX_DEPTH then Halt(DepthLimitReached) else InlineRun(env, es, pos, depth)
  }

  // ---- Blocks without blocks inside ----

  predicate OpensProse(e: Event) { e.Start? && (e.tag.Paragraph? || e.tag.Heading?) }

  function ProseAt(env: Env, es: seq<Ranged>, pos: nat, depth: nat): (r: Read<M.Block>)
    requires pos < |es| && OpensProse(es[pos].event)
    ensures r.Done? ==> pos < r.next <= |es|
  {
    match InlinesAt(env, es, pos + 1, depth + 1)
    case Halt(e) => Halt(e)
    case Done(prose, end) =>
      if es[end].event != End(KindOf(es[pos].event.tag)) then Halt(ExpectedSpecificTag)
      else Done(M.Block(es[pos].start, es[end].end, ProseElement(env, es[pos], prose)), end + 1)
  }

  /** A paragraph without tags takes its range from its first and last element. */
  function ImplicitAt(env: Env, es: seq<Ranged>, pos: nat, depth: nat): (r: Read<M.Block>)
    requires pos < |es| && InlineAction(es[pos].event) != Stop
    ensures r.Done? ==> pos < r.next <= |es|
  {
    match InlinesAt(env, es, pos, depth + 1)
    case Halt(e) => Halt(e)
    case Done(inner, end) =>
      if inner == [] then Halt(IndexOutOfRange)
      else Done(M.Block(inner[0].start, inner[|inner| - 1].end, M.Paragraph(inner)), end)
  }

  predicate OpensRaw(e: Event) { e == Start(CodeBlock) || e == Start(HtmlBlock) }

  function RawAt(env: Env, es: seq<Ranged>, pos: nat): (r: Read<M.Block>)
    requires pos < |es| && OpensRaw(es[pos].event)
    ensures r.Done? ==> pos < r.next <= |es|
  {
    var end := RawEnd(es, pos + 1, es[pos].event.tag.HtmlBlock?);
    if end == |es| then Halt(ExpectedMoreEvents)
    else if es[end].event != End(KindOf(es[pos].event.tag)) then Halt(ExpectedSpecificTag)
    else Done(M.Block(es[pos].start, es[end].end, RawElement(env, es[pos], es[pos + 1..end])), end + 1)
  }

  // ---- Blocks that hold blocks ----

  function QuoteAt(env: Env, es: seq<Ranged>, pos: nat, depth: nat): (r: Read<M.Block>)
    requires pos < |es| && es[pos].event == Start(BlockQuote) && depth <= MAX_DEPTH
    ensures r.Done? ==> pos < r.next <= |es|
    decreases Fuel(depth), |es| - pos, 0
  {
    match BlocksUntil(env, es, pos + 1, depth + 1, EndBlockQuote)
    case Halt(e) => Halt(e)
    case Done(blocks, next) => Done(M.Block(es[pos].start, es[next - 1].end, M.Quote(blocks)), next)
  }

  /** Blocks up to and including the end tag of their container; `depth` is the blocks' own. */
  function BlocksUntil(env: Env, es: seq<Ranged>, pos: nat, depth: nat, kind: Kind): (r: Read<seq<M.Block>>)
    requires pos <= |es|
    ensures r.Done? ==> pos < r.next <= |es| && es[r.next - 1].event == End(kind)
    decreases Fuel(depth), |es| - pos, 2
  {
    if pos == |es| then Halt(ExpectedMoreEvents)
    else if es[pos].event == End(kind) then Done([], pos + 1)
    else
      match BlockAt(env, es, pos, depth)
      case Halt(e) => Halt(e)
      case Done(block, next) => Prefixed([block], BlocksUntil(env, es, next, depth, kind))
  }

  /** A list of items ends at any end tag, a row of cells only at the end of a table head or row. */
  predicate EndsItems(tag: Tag, e: Event) {
    if tag == Item then e.End? else e == End(EndTableHead) || e == End(EndTableRow)
  }

  function ItemsRun(env: Env, es: seq<Ranged>, pos: nat, depth: nat, tag: Tag): (r: Read<seq<seq<M.Block>>>)
    requires pos <= |es| && depth <= MAX_DEPTH
    ensures r.Done? ==> pos <= r.next < |es| && EndsItems(tag, es[r.next].event)
    decreases Fuel(depth), |es| - pos, 0
  {
    if pos == |es| then Halt(ExpectedMoreEvents)
    else if EndsItems(tag, es[pos].event) then Done([], pos)
    else if es[pos].event != Start(tag) then Halt(ExpectedSpecificTag)
    else
      match BlocksUntil(env, es, pos + 1, depth + 1, KindOf(tag))
      case Halt(e) => Halt(e)
      case Done(item, next) => Prefixed([item], ItemsRun(env, es, next, depth, tag))
  }

  function ItemsAt(env: Env, es: seq<Ranged>, pos: nat, depth: nat, tag: Tag): (r: Read<seq<seq<M.Block>>>)
    requires pos <= |es|
    ensures r.Done? ==> pos <= r.next < |es| && EndsItems(tag, es[r.next].event)
    decreases Fuel(depth), |es| - pos, 1
  {
    if depth > MAX_DEPTH then Halt(DepthLimitReached) else ItemsRun(env, es, pos, depth, tag)
  }

  function ListAt(env: Env, es: seq<Ranged>, pos: nat, depth: nat): (r: Read<M.Block>)
    requires pos < |es| && es[pos].event.Start? && es[pos].event.tag.List? && depth <= MAX_DEPTH
    ensures r.Done? ==> pos < r.next <= |es|
    decreases Fuel(depth), |es| - pos, 0
  {
    match ItemsAt(env, es, pos + 1, depth + 1, Item)
    case Halt(e) => Halt(e)
    case Done(items, end) =>
      if es[end].event != End(KindOf(es[pos].event.tag)) then Halt(ExpectedSpecificTag)
      else Done(M.Block(es[pos].start, es[end].end, ListElement(es[pos], items)), end + 1)
  }

  /** A table head or row, at its start tag; `depth` is that of its cells. */
  function RowAt(env: Env, es: seq<Ranged>, pos: nat, depth: nat, tag: Tag): (r: Read<seq<seq<M.Block>>>)
    requires pos < |es|
    ensures r.Done? ==> pos < r.next <= |es|
    decreases Fuel(depth), |es| - pos, 2
  {
    match ItemsAt(env, es, pos + 1, depth, TableCell)
    case Halt(e) => Halt(e)
    case Done(cells, end) => if es[end].event != End(KindOf(tag)) then Halt(ExpectedSpecificTag) else Done(cells, end + 1)
  }

  function RowsAt(env: Env, es: seq<Ranged>, pos: nat, depth: nat): (r: Read<seq<seq<seq<M.Block>>>>)
    requires pos <= |es|
    ensures r.Done? ==> pos <= r.next < |es| && es[r.next].event == End(EndTable)
    decreases Fuel(depth), |es| - pos, 3
  {
    if pos == |es| then Halt(ExpectedMoreEvents)
    else if es[pos].event == End(EndTable) then Done([], pos)
    else if es[pos].event != Start(TableRow) then Halt(ExpectedSpecificTag)
    else
      match RowAt(env, es, pos, depth, TableRow)
      case Halt(e) => Halt(e)
      case Done(row, next) => Prefixed([row], RowsAt(env, es, next, depth))
  }

  function TableAt(env: Env, es: seq<Ranged>, pos: nat, depth: nat): (r: Read<M.Block>)
    requires pos < |es| && es[pos].event == Start(Table) && depth <= MAX_DEPTH
    ensures r.Done? ==> pos < r.next <= |es|
    decreases Fuel(depth), |es| - pos, 0
  {
    if depth + 1 > MAX_DEPTH then Halt(DepthLimitReached)
    else if pos + 1 == |es| || es[pos + 1].event != Start(TableHead) then Halt(ExpectedSpecificTag)
    else
      match RowAt(env, es, pos + 1, depth + 2, TableHead)
      case Halt(e) => Halt(e)
      case Done(head, next) =>
        match RowsAt(env, es, next, depth + 2)
        case Halt(e) => Halt(e)
        case Done(rows, end) => Done(M.Block(es[pos].start, es[end].end, M.Table(head, rows)), end + 1)
  }

  datatype Opening = AProse | AList | ATable | AQuote | ARaw | ARule | AnImplicit | Refuses(error: Error)

  /** Which block an event opens. */
  function OpeningOf(e: Event): (o: Opening) {
    if OpensProse(e) then AProse
    else if e.Start? && e.tag.List? then AList
    else if e == Start(Table) then ATable
    else if e == Start(BlockQuote) then AQuote
    else if OpensRaw(e) then ARaw
    else if e == Rule then ARule
    else if e.Html? then Refuses(HtmlNotInBlock)
    else if e.End? then Refuses(ExpectedSpecificTag)
    else if InlineAction(e).Fail? then Refuses(InlineAction(e).error)
    else AnImplicit
  }

  function BlockAt(env: Env, es: seq<Ranged>, pos: nat, depth: nat): (r: Read<M.Block>)
    requires pos <= |es|
    ensures r.Done? ==> pos < r.next <= |es|
    decreases Fuel(depth), |es| - pos, 1
  {
    if depth > MAX_DEPTH then Halt(DepthLimitReached)
    else if pos == |es| then Halt(ExpectedMoreEvents)
    else
      match OpeningOf(es[pos].event)
      case AProse => ProseAt(env, es, pos, depth)
      case AList => ListAt(env, es, pos, depth)
      case ATable => TableAt(env, es, pos, depth)
      case AQuote => QuoteAt(env, es, pos, depth)
      case ARaw => RawAt(env, es, pos)
      case ARule => Done(M.Block(es[pos].start, es[pos].end, M.HorizontalRule), pos + 1)
      case AnImplicit => ImplicitAt(env, es, pos, depth)
      case Refuses(e) => Halt(e)
  }

  function MessageAt(env: Env, es: seq<Ranged>, pos: nat): (r: Read<seq<M.Block>>)
    requires pos <= |es|
    ensures r.Done? ==> r.next == |es|
    decreases |es| - pos
  {
    if pos == |es| then Done([], pos)
    else
      match BlockAt(env, es, pos, 1)
      case Halt(e) => Halt(e)
      case Done(block, next) => Prefixed([block], MessageAt(env, es, next))
  }

  // ---- One event more ----

  lemma JoinedStep(texts: seq<Ranged>)
    requires texts != [] && texts[|texts| - 1].event.Text?
    ensures Joined(texts) == Joined(texts[..|texts| - 1]) + texts[|texts| - 1].event.text
  {
  }

  lemma JoinedSnoc(es: seq<Ranged>, a: nat, b: nat)
    requires a <= b < |es| && es[b].event.Text?
    ensures Joined(es[a..b + 1]) == Joined(es[a..b]) + es[b].event.text
  {
    var texts := es[a..b + 1];
    assert texts[..|texts| - 1] == es[a..b] && texts[|texts| - 1] == es[b];
    JoinedStep(texts);
  }

  lemma CodeStep(texts: seq<Ranged>)
    requires texts != [] && texts[|texts| - 1].event.Text?
    ensures var e := texts[|texts| - 1];
            CodeLines(texts) == CodeLines(texts[..|texts| - 1]) + [M.CodeLine(e.start, e.end, Chomp(e.event.text))]
  {
  }

  lemma CodeSnoc(es: seq<Ranged>, a: nat, b: nat)
    requires a <= b < |es| && es[b].event.Text?
    ensures CodeLines(es[a..b + 1])
         == CodeLines(es[a..b]) + [M.CodeLine(es[b].start, es[b].end, Chomp(es[b].event.text))]
  {
    var texts := es[a..b + 1];
    assert texts[..|texts| - 1] == es[a..b] && texts[|texts| - 1] == es[b];
    CodeStep(texts);
  }

  lemma HtmlStep(env: Env, texts: seq<Ranged>)
    requires texts != [] && (texts[|texts| - 1].event.Text? || texts[|texts| - 1].event.Html?)
    ensures var e := texts[|texts| - 1];
            HtmlText(env, texts) == HtmlText(env, texts[..|texts| - 1]) + Links(env, e.start, e.end, e.event.text)
  {
  }

  lemma HtmlSnoc(env: Env, es: seq<Ranged>, a: nat, b: nat)
    requires a <= b < |es| && (es[b].event.Text? || es[b].event.Html?)
    ensures HtmlText(env, es[a..b + 1]) == HtmlText(env, es[a..b]) + Links(env, es[b].start, es[b].end, es[b].event.text)
  {
    var texts := es[a..b + 1];
    assert texts[..|texts| - 1] == es[a..b] && texts[|texts| - 1] == es[b];
    HtmlStep(env, texts);
  }
}
