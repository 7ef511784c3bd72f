/**
 Two ways to write a message as a flat list of tokens: from its events, one after another and without
 building anything, and from its finished tree. That they agree is proved in `MarkdownUnparse`.
 */
module MarkdownTokens {
  import opened Prelude
  import opened MarkdownEvents
  import opened MarkdownReading
  import M = Markdown

  datatype Shape =
    | Slanted | Heavy | Struck | Linked | Pictured
    | Para | Titled | Quoted | Bulleted | Numbered | Tabled | Coded
    | Entry | Header | Row | Cell

  /** Paragraphs, items, rows and cells are entered and left; everything else opens and closes at a byte. */
  datatype Token =
    | Open(shape: Shape, start: nat)
    | Close(shape: Shape, end: nat)
    | Enter(shape: Shape)
    | Leave(shape: Shape)
    | Target(dest: M.Str)
    | Number(first: nat)
    | Chars(start: nat, end: nat, text: M.Str)
    | Snippet(start: nat, end: nat, text: M.Str)
    | Mark(start: nat, end: nat, checked: bool)
    | Line(start: nat, end: nat, text: M.Str)
    | Ruler(start: nat, end: nat)

  // ---- From the tree ----

  function Within(shape: Shape, start: nat, end: nat, inner: seq<Token>): (ts: seq<Token>) {
    [Open(shape, start)] + inner + [Close(shape, end)]
  }

  function UnparseI(e: M.Inline): (ts: seq<Token>)
    decreases e, 0
  {
    match e.element
    case Text(text) => [Chars(e.start, e.end, text)]
    case Code(text) => [Snippet(e.start, e.end, text)]
    case TaskListMarker(checked) => [Mark(e.start, e.end, checked)]
    case Image(dest) => Within(Pictured, e.start, e.end, [Target(dest)])
    case Link(dest, children) => Within(Linked, e.start, e.end, [Target(dest)] + UnparseIs(children))
    case Bold(children) => Within(Heavy, e.start, e.end, UnparseIs(children))
    case Italic(children) => Within(Slanted, e.start, e.end, UnparseIs(children))
    case Strikethrough(children) => Within(Struck, e.start, e.end, UnparseIs(children))
  }

  function UnparseIs(es: seq<M.Inline>): (ts: seq<Token>)
    decreases es, 1
  {
    if es == [] then [] else UnparseI(es[0]) + UnparseIs(es[1..])
  }

  function UnparseLines(ls: seq<M.CodeLine>): (ts: seq<Token>) {
    if ls == [] then [] else [Line(ls[0].start, ls[0].end, ls[0].value)] + UnparseLines(ls[1..])
  }

  /** The blocks down to `n` levels below. */
  function UnparseB(b: M.Block, n: nat): (ts: seq<Token>)
    decreases n, 0
  {
    if n == 0 then []
    else
      match b.element
      case Paragraph(content) => [Enter(Para)] + UnparseIs(content) + [Leave(Para)]
      case Heading(content) => Within(Titled, b.start, b.end, UnparseIs(content))
      case Quote(blocks) => Within(Quoted, b.start, b.end, UnparseBs(blocks, n - 1))
      case UnorderedList(items) => Within(Bulleted, b.start, b.end, UnparseItems(items, Entry, n - 1))
      case OrderedList(first, items) =>
        Within(Numbered, b.start, b.end, [Number(first)] + UnparseItems(items, Entry, n - 1))
      case Table(head, rows) =>
        Within(Tabled, b.start, b.end, UnparseRow(head, Header, n - 1) + UnparseRows(rows, n - 1))
      case HorizontalRule => [Ruler(b.start, b.end)]
      case CodeBlock(lines) => Within(Coded, b.start, b.end, UnparseLines(lines))
  }

  function UnparseBs(bs: seq<M.Block>, n: nat): (ts: seq<Token>)
    decreases n, 1, |bs|
  {
    if bs == [] then [] else UnparseB(bs[0], n) + UnparseBs(bs[1..], n)
  }

  function UnparseItem(item: seq<M.Block>, shape: Shape, n: nat): (ts: seq<Token>)
    decreases n, 2
  {
    [Enter(shape)] + UnparseBs(item, n) + [Leave(shape)]
  }

  function UnparseItems(items: seq<seq<M.Block>>, shape: Shape, n: nat): (ts: seq<Token>)
    decreases n, 3, |items|
  {
    if items == [] then [] else UnparseItem(items[0], shape, n) + UnparseItems(items[1..], shape, n)
  }

  function UnparseRow(cells: seq<seq<M.Block>>, shape: Shape, n: nat): (ts: seq<Token>)
    decreases n, 4
  {
    [Enter(shape)] + UnparseItems(cells, Cell, n) + [Leave(shape)]
  }

  function UnparseRows(rows: seq<seq<seq<M.Block>>>, n: nat): (ts: seq<Token>)
    decreases n, 5, |rows|
  {
    if rows == [] then [] else UnparseRow(rows[0], Row, n) + UnparseRows(rows[1..], n)
  }

  // ---- From the events ----

  datatype Place = Blocks | Loose | Tagged(title: bool) | Verbatim | Markup

  /** Where the scan is, and how many images are open around it: what describes an image is not shown. */
  datatype Mode = Mode(place: Place, hidden: nat)

  const BLOCKS := Mode(Blocks, 0)

  function Show(mode: Mode, ts: seq<Token>): (r: seq<Token>) { if mode.hidden > 0 then [] else ts }

  /** Events that stand in a paragraph. */
  predicate Flows(e: Event) {
    || e.Text? || e.Code? || e.InlineHtml? || e.SoftBreak? || e.HardBreak? || e.TaskListMarker?
    || (e.Start? && e.tag.Inlined?)
  }

  predicate EndsInline(k: Kind) {
    k.EndEmphasis? || k.EndStrong? || k.EndStrikethrough? || k.EndLink? || k.EndImage?
  }

  /** Events that end a paragraph without tags. */
  predicate Breaks(e: Event) { !Flows(e) && !(e.End? && EndsInline(e.kind)) }

  function Opened(env: Env, e: Ranged): (ts: seq<Token>)
    requires e.event.Start?
  {
    match e.event.tag
    case Inlined(Emphasis) => [Open(Slanted, e.start)]
    case Inlined(Strong) => [Open(Heavy, e.start)]
    case Inlined(Strikethrough) => [Open(Struck, e.start)]
    case Inlined(LinkTo(dest)) => [Open(Linked, e.start), Target(dest)]
    case Inlined(ImageAt(dest)) => [Open(Pictured, e.start), Target(dest)]
    case Paragraph => [Enter(Para)]
    case Heading(_) => if env.atx(e.start, e.end) then [Open(Titled, e.start)] else [Enter(Para)]
    case List(None) => [Open(Bulleted, e.start)]
    case List(Some(first)) => [Open(Numbered, e.start), Number(first)]
    case Table => [Open(Tabled, e.start)]
    case BlockQuote => [Open(Quoted, e.start)]
    case CodeBlock => [Open(Coded, e.start)]
    case HtmlBlock => [Enter(Para)]
    case Item => [Enter(Entry)]
    case TableHead => [Enter(Header)]
    case TableRow => [Enter(Row)]
    case TableCell => [Enter(Cell)]
    case Unsupported(_) => []
  }

  function Inside(env: Env, e: Ranged, mode: Mode): (m: Mode)
    requires e.event.Start?
  {
    match e.event.tag
    case Inlined(ImageAt(_)) => mode.(hidden := mode.hidden + 1)
    case Inlined(_) => mode
    case Paragraph => Mode(Tagged(false), 0)
    case Heading(_) => Mode(Tagged(env.atx(e.start, e.end)), 0)
    case CodeBlock => Mode(Verbatim, 0)
    case HtmlBlock => Mode(Markup, 0)
    case _ => BLOCKS
  }

  function Closed(e: Ranged, mode: Mode): (ts: seq<Token>)
    requires e.event.End?
  {
    match e.event.kind
    case EndEmphasis => [Close(Slanted, e.end)]
    case EndStrong => [Close(Heavy, e.end)]
    case EndStrikethrough => [Close(Struck, e.end)]
    case EndLink => [Close(Linked, e.end)]
    case EndImage => [Close(Pictured, e.end)]
    case EndParagraph => [Leave(Para)]
    case EndHeading(_) => if mode.place == Tagged(true) then [Close(Titled, e.end)] else [Leave(Para)]
    case EndList(ordered) => [Close(if ordered then Numbered else Bulleted, e.end)]
    case EndTable => [Close(Tabled, e.end)]
    case EndBlockQuote => [Close(Quoted, e.end)]
    case EndCodeBlock => [Close(Coded, e.end)]
    case EndHtmlBlock => [Leave(Para)]
    case EndItem => [Leave(Entry)]
    case EndTableHead => [Leave(Header)]
    case EndTableRow => [Leave(Row)]
    case EndTableCell => [Leave(Cell)]
    case EndUnsupported => []
  }

  function Outside(e: Ranged, mode: Mode): (m: Mode)
    requires e.event.End?
  {
    match e.event.kind
    case EndImage => mode.(hidden := SaturatingSub(mode.hidden, 1))
    case k => if EndsInline(k) then mode else BLOCKS
  }

  function Single(e: Ranged): (ts: seq<Token>) {
    match e.event
    case Code(text) => [Snippet(e.start, e.end, text)]
    case InlineHtml(text) => [Chars(e.start, e.end, text)]
    case TaskListMarker(checked) => [Mark(e.start, e.end, checked)]
    case SoftBreak => [Chars(e.start, e.end, [10])]
    case HardBreak => [Chars(e.start, e.end, [10])]
    case Rule => [Ruler(e.start, e.end)]
    case _ => []
  }

  function Plain(start: nat, end: nat, s: M.Str): (ts: seq<Token>) { if s == [] then [] else [Chars(start, end, s)] }

  /** The text before a match, and the match as a link to itself. */
  function PieceTokens(start: nat, s: M.Str, m: M.Match, last: nat): (ts: seq<Token>)
    requires last <= m.start <= m.end <= |s|
  {
    var (lo, hi, t) := (start + m.start, start + m.end, s[m.start..m.end]);
    Plain(start + last, lo, s[last..m.start]) + Within(Linked, lo, hi, [Target(t), Chars(lo, hi, t)])
  }

  function Pieces(start: nat, end: nat, s: M.Str, ms: seq<M.Match>, last: nat): (ts: seq<Token>)
    requires last <= |s| && M.Ordered(ms, last, |s|)
    decreases |ms|
  {
    if ms == [] then Plain(start + last, end, s[last..])
    else PieceTokens(start, s, ms[0], last) + Pieces(start, end, s, ms[1..], ms[0].end)
  }

  function Linkified(env: Env, start: nat, end: nat, s: M.Str): (ts: seq<Token>) {
    if M.Ordered(env.links(s), 0, |s|) then Pieces(start, end, s, env.links(s), 0) else []
  }

  /** The text of the events from `a` to `b`. */
  function Letters(es: seq<Ranged>, a: nat, b: nat): (s: M.Str)
    requires a <= b <= |es|
    decreases b - a
  {
    if a == b then [] else (if es[a].event.Text? then es[a].event.text else []) + Letters(es, a + 1, b)
  }

  datatype Step = Step(out: seq<Token>, next: nat, mode: Mode)

  /** Whether an event begins or ends a paragraph without tags. */
  function Turn(mode: Mode, e: Event): (n: nat) {
    if (mode.place == Blocks && Flows(e)) || (mode.place == Loose && Breaks(e)) then 1 else 0
  }

  function StepAt(env: Env, es: seq<Ranged>, pos: nat, mode: Mode): (r: Step)
    requires pos < |es|
    ensures pos <= r.next <= |es| && (r.next == pos ==> Turn(r.mode, es[pos].event) < Turn(mode, es[pos].event))
  {
    var e := es[pos];
    if mode.place == Blocks && Flows(e.event) then Step([Enter(Para)], pos, Mode(Loose, 0))
    else if mode.place == Loose && Breaks(e.event) then Step([Leave(Para)], pos, BLOCKS)
    else if mode.place == Verbatim && e.event.Text? then Step([Line(e.start, e.end, Chomp(e.event.text))], pos + 1, mode)
    else if mode.place == Markup && (e.event.Text? || e.event.Html?) then
      Step(Linkified(env, e.start, e.end, e.event.text), pos + 1, mode)
    else
      match e.event
      case Start(_) => Step(Show(mode, Opened(env, e)), pos + 1, Inside(env, e, mode))
      case End(_) => Step(Show(Outside(e, mode), Closed(e, mode)), pos + 1, Outside(e, mode))
      case Text(_) =>
        var end := TextEnd(es, pos);
        Step(Show(mode, Linkified(env, e.start, es[end - 1].end, Letters(es, pos, end))), end, mode)
      case _ => Step(Show(mode, Single(e)), pos + 1, mode)
  }

  /** The tokens of the events from `pos` on. */
  function Scan(env: Env, es: seq<Ranged>, pos: nat, mode: Mode): (ts: seq<Token>)
    requires pos <= |es|
    decreases |es| - pos, if pos < |es| then Turn(mode, es[pos].event) else 0
  {
    if pos == |es| then []
    else
      var s := StepAt(env, es, pos, mode);
      s.out + Scan(env, es, s.next, s.mode)
  }
}
