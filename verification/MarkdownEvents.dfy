/**
 Parser events and derivations. A derivation says how a stretch of events was read; it fixes both the
 events it stands for and the tree they become, so "accepted" can be stated without the parser.
 */
module MarkdownEvents {
  import opened Prelude
  import M = Markdown

  const MAX_DEPTH: nat := 50

  datatype Error =
    | ExpectedMoreEvents
    | ExpectedSpecificTag
    | TableContentNotInTable
    | ListItemNotInList
    | MetadataBlocksNotSupported
    | FootnotesNotSupported
    | DefinitionListsNotSupported
    | HtmlNotInBlock
    | MathNotSupported
    | DepthLimitReached
    | IndexOutOfRange // the panic of indexing an empty list, not an error value

  /** Why some tags and events are refused wherever they occur. */
  datatype Refusal = Metadata | Footnotes | DefinitionLists | Math

  function Refuse(why: Refusal): (e: Error) {
    match why
    case Metadata => MetadataBlocksNotSupported
    case Footnotes => FootnotesNotSupported
    case DefinitionLists => DefinitionListsNotSupported
    case Math => MathNotSupported
  }

  datatype InlineTag = Emphasis | Strong | Strikethrough | LinkTo(dest: M.Str) | ImageAt(dest: M.Str)

  datatype Tag =
    | Inlined(tag: InlineTag)
    | Paragraph
    | Heading(level: nat)
    | List(number: Option<nat>)
    | Table
    | BlockQuote
    | CodeBlock
    | HtmlBlock
    | Item
    | TableHead
    | TableRow
    | TableCell
    | Unsupported(why: Refusal)

  datatype Kind =
    | EndEmphasis | EndStrong | EndStrikethrough | EndLink | EndImage
    | EndParagraph | EndHeading(level: nat) | EndList(ordered: bool) | EndTable | EndBlockQuote
    | EndCodeBlock | EndHtmlBlock | EndItem | EndTableHead | EndTableRow | EndTableCell | EndUnsupported

  function KindOf(tag: Tag): (k: Kind) {
    match tag
    case Inlined(Emphasis) => EndEmphasis
    case Inlined(Strong) => EndStrong
    case Inlined(Strikethrough) => EndStrikethrough
    case Inlined(LinkTo(_)) => EndLink
    case Inlined(ImageAt(_)) => EndImage
    case Paragraph => EndParagraph
    case Heading(level) => EndHeading(level)
    case List(number) => EndList(number.Some?)
    case Table => EndTable
    case BlockQuote => EndBlockQuote
    case CodeBlock => EndCodeBlock
    case HtmlBlock => EndHtmlBlock
    case Item => EndItem
    case TableHead => EndTableHead
    case TableRow => EndTableRow
    case TableCell => EndTableCell
    case Unsupported(_) => EndUnsupported
  }

  datatype Event =
    | Start(tag: Tag)
    | End(kind: Kind)
    | Text(text: M.Str)
    | Code(text: M.Str)
    | InlineHtml(text: M.Str)
    | Html(text: M.Str)
    | SoftBreak
    | HardBreak
    | Rule
    | TaskListMarker(checked: bool)
    | Refused(why: Refusal)

  datatype Ranged = Ranged(start: nat, end: nat, event: Event)

  // ---- What an inline parser does at an event ----

  datatype Action = Descend(tag: InlineTag) | Run | Atom | Stop | Fail(error: Error)

  function InlineAction(e: Event): (a: Action) {
    match e
    case Start(Inlined(tag)) => Descend(tag)
    case Start(TableHead) => Fail(TableContentNotInTable)
    case Start(TableRow) => Fail(TableContentNotInTable)
    case Start(TableCell) => Fail(TableContentNotInTable)
    case Start(Item) => Fail(ListItemNotInList)
    case Start(Unsupported(why)) => Fail(Refuse(why))
    case Start(_) => Stop
    case End(_) => Stop
    case Rule => Stop
    case Html(_) => Stop
    case Text(_) => Run
    case Refused(why) => Fail(Refuse(why))
    case _ => Atom
  }

  // ---- Derivations ----

  datatype InlineD =
    | ContainerD(open: Ranged, kids: seq<InlineD>, close: Ranged)
    | TextD(texts: seq<Ranged>)
    | AtomD(event: Ranged)

  datatype BlockD =
    | ProseD(open: Ranged, prose: seq<InlineD>, close: Ranged) // paragraph or heading
    | ImplicitD(prose: seq<InlineD>)
    | QuoteD(open: Ranged, blocks: seq<BlockD>, close: Ranged)
    | ListD(open: Ranged, items: seq<ItemD>, close: Ranged)
    | TableD(open: Ranged, head: RowD, rows: seq<RowD>, close: Ranged)
    | RawD(open: Ranged, texts: seq<Ranged>, close: Ranged) // code or HTML block
    | RuleD(event: Ranged)

  /** A list item or a table cell. */
  datatype ItemD = ItemD(open: Ranged, blocks: seq<BlockD>, close: Ranged)

  /** A table head or a table row. */
  datatype RowD = RowD(open: Ranged, cells: seq<ItemD>, close: Ranged)

  predicate Brackets(open: Ranged, close: Ranged, tag: Tag) {
    open.event == Start(tag) && close.event == End(KindOf(tag))
  }

  predicate Closes(open: Ranged, close: Ranged) {
    open.event.Start? && Brackets(open, close, open.event.tag)
  }

  predicate AllText(es: seq<Ranged>) { forall i | 0 <= i < |es| :: es[i].event.Text? }

  predicate AllRaw(es: seq<Ranged>) { forall i | 0 <= i < |es| :: es[i].event.Text? || es[i].event.Html? }

  predicate EmptyTexts(es: seq<Ranged>) { forall i | 0 <= i < |es| :: es[i].event == Text([]) }

  // ---- The events of a derivation ----

  function EventsI(d: InlineD): (es: seq<Ranged>)
    decreases d, 0
  {
    match d
    case ContainerD(open, kids, close) => [open] + EventsIs(kids) + [close]
    case TextD(texts) => texts
    case AtomD(e) => [e]
  }

  function EventsIs(ds: seq<InlineD>): (es: seq<Ranged>)
    decreases ds, 1
  {
    if ds == [] then [] else EventsI(ds[0]) + EventsIs(ds[1..])
  }

  function EventsB(d: BlockD): (es: seq<Ranged>)
    decreases d, 0
  {
    match d
    case ProseD(open, prose, close) => [open] + EventsIs(prose) + [close]
    case ImplicitD(prose) => EventsIs(prose)
    case QuoteD(open, blocks, close) => [open] + EventsBs(blocks) + [close]
    case ListD(open, items, close) => [open] + EventsItems(items) + [close]
    case TableD(open, head, rows, close) => [open] + (EventsRow(head) + EventsRows(rows)) + [close]
    case RawD(open, texts, close) => [open] + texts + [close]
    case RuleD(e) => [e]
  }

  function EventsBs(ds: seq<BlockD>): (es: seq<Ranged>)
    decreases ds, 1
  {
    if ds == [] then [] else EventsB(ds[0]) + EventsBs(ds[1..])
  }

  function EventsItem(d: ItemD): (es: seq<Ranged>)
    decreases d, 0
  {
    [d.open] + EventsBs(d.blocks) + [d.close]
  }

  function EventsItems(ds: seq<ItemD>): (es: seq<Ranged>)
    decreases ds, 1
  {
    if ds == [] then [] else EventsItem(ds[0]) + EventsItems(ds[1..])
  }

  function EventsRow(d: RowD): (es: seq<Ranged>)
    decreases d, 0
  {
    [d.open] + EventsItems(d.cells) + [d.close]
  }

  function EventsRows(ds: seq<RowD>): (es: seq<Ranged>)
    decreases ds, 1
  {
    if ds == [] then [] else EventsRow(ds[0]) + EventsRows(ds[1..])
  }

  // ---- Which derivations there are ----

  /** `depth` counts the containers around an element, as the builder does. */
  predicate WfI(d: InlineD, depth: nat)
    decreases d, 0
  {
    match d
    case ContainerD(open, kids, close) =>
      Closes(open, close) && open.event.tag.Inlined? && depth + 1 <= MAX_DEPTH && WfIs(kids, depth + 1)
    case TextD(texts) => texts != [] && AllText(texts)
    case AtomD(e) => InlineAction(e.event) == Atom
  }

  /** Neighbouring texts are one text. */
  predicate WfIs(ds: seq<InlineD>, depth: nat)
    decreases ds, 1
  {
    ds == [] ||
    (WfI(ds[0], depth) && WfIs(ds[1..], depth) && (|ds| > 1 && ds[0].TextD? ==> !ds[1].TextD?))
  }

  /** An implicit paragraph must come to something. */
  predicate WfB(d: BlockD, depth: nat)
    decreases d, 0
  {
    depth <= MAX_DEPTH &&
    match d
    case ProseD(open, prose, close) =>
      && Closes(open, close) && (open.event.tag.Paragraph? || open.event.tag.Heading?)
      && depth + 1 <= MAX_DEPTH && WfIs(prose, depth + 1)
    case ImplicitD(prose) => depth + 1 <= MAX_DEPTH && WfIs(prose, depth + 1) && !EmptyTexts(EventsIs(prose))
    case QuoteD(open, blocks, close) => Brackets(open, close, BlockQuote) && WfBs(blocks, depth + 1)
    case ListD(open, items, close) =>
      Closes(open, close) && open.event.tag.List? && depth + 1 <= MAX_DEPTH && WfItems(items, Item, depth + 1)
    case TableD(open, head, rows, close) =>
      && Brackets(open, close, Table) && depth + 1 <= MAX_DEPTH
      && WfRow(head, TableHead, depth + 2) && WfRows(rows, depth + 2)
    case RawD(open, texts, close) =>
      || (Brackets(open, close, CodeBlock) && AllText(texts))
      || (Brackets(open, close, HtmlBlock) && AllRaw(texts))
    case RuleD(e) => e.event == Rule
  }

  /** Neighbouring implicit paragraphs are one paragraph. */
  predicate WfBs(ds: seq<BlockD>, depth: nat)
    decreases ds, 1
  {
    ds == [] ||
    (WfB(ds[0], depth) && WfBs(ds[1..], depth) && (|ds| > 1 && ds[0].ImplicitD? ==> !ds[1].ImplicitD?))
  }

  /** `depth` is that of the list or row around the item. */
  predicate WfItem(d: ItemD, tag: Tag, depth: nat)
    decreases d, 0
  {
    Brackets(d.open, d.close, tag) && WfBs(d.blocks, depth + 1)
  }

  predicate WfItems(ds: seq<ItemD>, tag: Tag, depth: nat)
    decreases ds, 1
  {
    ds == [] || (WfItem(ds[0], tag, depth) && WfItems(ds[1..], tag, depth))
  }

  predicate WfRow(d: RowD, tag: Tag, depth: nat)
    decreases d, 0
  {
    Brackets(d.open, d.close, tag) && depth <= MAX_DEPTH && WfItems(d.cells, TableCell, depth)
  }

  predicate WfRows(ds: seq<RowD>, depth: nat)
    decreases ds, 1
  {
    ds == [] || (WfRow(ds[0], TableRow, depth) && WfRows(ds[1..], depth))
  }

  /** A message cannot end in an implicit paragraph, because nothing would end that. */
  predicate WfMessage(ds: seq<BlockD>) { WfBs(ds, 1) && (ds != [] ==> !ds[|ds| - 1].ImplicitD?) }

  // ---- The tree of a derivation ----

  ghost predicate OrderedSearch(f: M.Str -> seq<M.Match>) { forall s {:trigger f(s)} :: M.Ordered(f(s), 0, |s|) }

  /** The link search, and whether the source text of a range starts with a heading mark. */
  datatype Env = Env(links: M.Str -> seq<M.Match>, atx: (nat, nat) -> bool)

  function Links(env: Env, start: nat, end: nat, s: M.Str): (es: seq<M.Inline>) {
    if M.Ordered(env.links(s), 0, |s|) then M.Split(start, end, s, env.links(s), 0) else []
  }

  function Wrap(tag: InlineTag, kids: seq<M.Inline>): (e: M.InlineElement) {
    match tag
    case Emphasis => M.Italic(kids)
    case Strong => M.Bold(kids)
    case Strikethrough => M.Strikethrough(kids)
    case LinkTo(dest) => M.Link(dest, kids)
    case ImageAt(dest) => M.Image(dest)
  }

  function AtomElement(e: Event): (r: M.InlineElement) {
    match e
    case Code(s) => M.Code(s)
    case InlineHtml(s) => M.Text(s)
    case TaskListMarker(checked) => M.TaskListMarker(checked)
    case _ => M.Text([10])
  }

  function Joined(texts: seq<Ranged>): (s: M.Str) {
    if texts == [] then []
    else
      var e := texts[|texts| - 1].event;
      Joined(texts[..|texts| - 1]) + (if e.Text? then e.text else [])
  }

  function TreeI(env: Env, d: InlineD): (es: seq<M.Inline>)
    decreases d, 0
  {
    match d
    case ContainerD(open, kids, close) =>
      if open.event.Start? && open.event.tag.Inlined?
      then [M.Inline(open.start, close.end, Wrap(open.event.tag.tag, TreeIs(env, kids)))]
      else []
    case TextD(texts) =>
      if texts == [] then [] else Links(env, texts[0].start, texts[|texts| - 1].end, Joined(texts))
    case AtomD(e) => [M.Inline(e.start, e.end, AtomElement(e.event))]
  }

  function TreeIs(env: Env, ds: seq<InlineD>): (es: seq<M.Inline>)
    decreases ds, 1
  {
    if ds == [] then [] else TreeI(env, ds[0]) + TreeIs(env, ds[1..])
  }

  /** Without the newline that ends a line of code. */
  function Chomp(s: M.Str): (r: M.Str) { if s != [] && s[|s| - 1] == 10 then s[..|s| - 1] else s }

  function CodeLines(texts: seq<Ranged>): (ls: seq<M.CodeLine>) {
    if texts == [] then []
    else
      var e := texts[|texts| - 1];
      CodeLines(texts[..|texts| - 1]) + [M.CodeLine(e.start, e.end, Chomp(if e.event.Text? then e.event.text else []))]
  }

  function HtmlText(env: Env, texts: seq<Ranged>): (es: seq<M.Inline>) {
    if texts == [] then []
    else
      var e := texts[|texts| - 1];
      HtmlText(env, texts[..|texts| - 1]) +
      Links(env, e.start, e.end, if e.event.Text? || e.event.Html? then e.event.text else [])
  }

  /** Only `#` headings stay headings; underlined ones are shown as paragraphs. */
  function ProseElement(env: Env, open: Ranged, prose: seq<M.Inline>): (e: M.BlockElement) {
    if open.event.Start? && open.event.tag.Heading? && env.atx(open.start, open.end) then M.Heading(prose)
    else M.Paragraph(prose)
  }

  function ListElement(open: Ranged, items: seq<seq<M.Block>>): (e: M.BlockElement) {
    if open.event.Start? && open.event.tag.List? && open.event.tag.number.Some?
    then M.OrderedList(open.event.tag.number.value, items) else M.UnorderedList(items)
  }

  function RawElement(env: Env, open: Ranged, texts: seq<Ranged>): (e: M.BlockElement) {
    if open.event == Start(CodeBlock) then M.CodeBlock(CodeLines(texts)) else M.Paragraph(HtmlText(env, texts))
  }

  function TreeB(env: Env, d: BlockD): (b: M.Block)
    decreases d, 0
  {
    match d
    case ProseD(open, prose, close) => M.Block(open.start, close.end, ProseElement(env, open, TreeIs(env, prose)))
    case ImplicitD(prose) =>
      var inner := TreeIs(env, prose);
      if inner == [] then M.Block(0, 0, M.Paragraph([]))
      else M.Block(inner[0].start, inner[|inner| - 1].end, M.Paragraph(inner))
    case QuoteD(open, blocks, close) => M.Block(open.start, close.end, M.Quote(TreeBs(env, blocks)))
    case ListD(open, items, close) => M.Block(open.start, close.end, ListElement(open, TreeItems(env, items)))
    case TableD(open, head, rows, close) =>
      M.Block(open.start, close.end, M.Table(TreeItems(env, head.cells), TreeRows(env, rows)))
    case RawD(open, texts, close) => M.Block(open.start, close.end, RawElement(env, open, texts))
    case RuleD(e) => M.Block(e.start, e.end, M.HorizontalRule)
  }

  function TreeBs(env: Env, ds: seq<BlockD>): (bs: seq<M.Block>)
    decreases ds, 1
  {
    if ds == [] then [] else [TreeB(env, ds[0])] + TreeBs(env, ds[1..])
  }

  function TreeItems(env: Env, ds: seq<ItemD>): (bs: seq<seq<M.Block>>)
    decreases ds, 1
  {
    if ds == [] then [] else [TreeBs(env, ds[0].blocks)] + TreeItems(env, ds[1..])
  }

  function TreeRows(env: Env, ds: seq<RowD>): (bs: seq<seq<seq<M.Block>>>)
    decreases ds, 1
  {
    if ds == [] then [] else [TreeItems(env, ds[0].cells)] + TreeRows(env, ds[1..])
  }
}
