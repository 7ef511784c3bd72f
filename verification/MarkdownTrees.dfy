/** What every derivation guarantees: properly nested events, and trees no taller than the depth limit allows. */
module MarkdownTrees {
  import opened Prelude
  import opened MarkdownEvents
  import M = Markdown

  // ---- Nesting ----

  /** Runs the events over a stack of open tags; `None` if an end does not match the innermost start. */
  function Unwind(es: seq<Ranged>, open: seq<Kind>): (r: Option<seq<Kind>>)
    decreases |es|
  {
    if es == [] then Some(open)
    else
      match es[0].event
      case Start(tag) => Unwind(es[1..], [KindOf(tag)] + open)
      case End(kind) => if open != [] && open[0] == kind then Unwind(es[1..], open[1..]) else None
      case _ => Unwind(es[1..], open)
  }

  /** Every end closes the innermost open start, whatever was open before. */
  predicate Nested(es: seq<Ranged>, open: seq<Kind>) { Unwind(es, open) == Some(open) }

  lemma {:induction false} NestedAppend(a: seq<Ranged>, b: seq<Ranged>, open: seq<Kind>, mid: seq<Kind>)
    requires Unwind(a, open) == Some(mid)
    ensures Unwind(a + b, open) == Unwind(b, mid)
    decreases |a|
  {
    if a == [] {
      assert a + b == b;
    } else {
      assert (a + b)[1..] == a[1..] + b;
      match a[0].event
      case Start(tag) => NestedAppend(a[1..], b, [KindOf(tag)] + open, mid);
      case End(kind) => NestedAppend(a[1..], b, open[1..], mid);
      case _ => NestedAppend(a[1..], b, open, mid);
    }
  }

  lemma NestedBrackets(open: Ranged, inner: seq<Ranged>, close: Ranged, tag: Tag, st: seq<Kind>)
    requires Brackets(open, close, tag) && Nested(inner, [KindOf(tag)] + st)
    ensures Nested([open] + inner + [close], st)
  {
    var deep := [KindOf(tag)] + st;
    assert deep[1..] == st;
    assert Unwind([open], st) == Some(deep) by { assert [open][1..] == []; }
    assert Unwind([close], deep) == Some(st) by { assert [close][1..] == []; }
    NestedAppend([open], inner, st, deep);
    NestedAppend([open] + inner, [close], st, deep);
  }

  lemma {:induction false} NestedFlat(es: seq<Ranged>, st: seq<Kind>)
    requires forall i | 0 <= i < |es| :: !es[i].event.Start? && !es[i].event.End?
    ensures Nested(es, st)
    decreases |es|
  {
    if es != [] { NestedFlat(es[1..], st); }
  }

  lemma {:induction false} NestedI(d: InlineD, depth: nat, st: seq<Kind>)
    requires WfI(d, depth)
    ensures Nested(EventsI(d), st)
    decreases d, 0
  {
    match d
    case ContainerD(open, kids, close) =>
      NestedIs(kids, depth + 1, [KindOf(open.event.tag)] + st);
      NestedBrackets(open, EventsIs(kids), close, open.event.tag, st);
    case TextD(texts) => NestedFlat(texts, st);
    case AtomD(e) => NestedFlat([e], st);
  }

  lemma {:induction false} NestedIs(ds: seq<InlineD>, depth: nat, st: seq<Kind>)
    requires WfIs(ds, depth)
    ensures Nested(EventsIs(ds), st)
    decreases ds, 1
  {
    if ds != [] {
      NestedI(ds[0], depth, st);
      NestedIs(ds[1..], depth, st);
      NestedAppend(EventsI(ds[0]), EventsIs(ds[1..]), st, st);
    }
  }

  lemma {:induction false} NestedB(d: BlockD, depth: nat, st: seq<Kind>)
    requires WfB(d, depth)
    ensures Nested(EventsB(d), st)
    decreases d, 0
  {
    match d
    case ProseD(open, prose, close) =>
      NestedIs(prose, depth + 1, [KindOf(open.event.tag)] + st);
      NestedBrackets(open, EventsIs(prose), close, open.event.tag, st);
    case ImplicitD(prose) => NestedIs(prose, depth + 1, st);
    case QuoteD(open, blocks, close) =>
      NestedBs(blocks, depth + 1, [EndBlockQuote] + st);
      NestedBrackets(open, EventsBs(blocks), close, BlockQuote, st);
    case ListD(open, items, close) =>
      NestedItems(items, Item, depth + 1, [KindOf(open.event.tag)] + st);
      NestedBrackets(open, EventsItems(items), close, open.event.tag, st);
    case TableD(open, head, rows, close) =>
      NestedRow(head, TableHead, depth + 2, [EndTable] + st);
      NestedRows(rows, depth + 2, [EndTable] + st);
      NestedAppend(EventsRow(head), EventsRows(rows), [EndTable] + st, [EndTable] + st);
      NestedBrackets(open, EventsRow(head) + EventsRows(rows), close, Table, st);
    case RawD(open, texts, close) =>
      NestedFlat(texts, [KindOf(open.event.tag)] + st);
      NestedBrackets(open, texts, close, open.event.tag, st);
    case RuleD(e) => NestedFlat([e], st);
  }

  lemma {:induction false} NestedBs(ds: seq<BlockD>, depth: nat, st: seq<Kind>)
    requires WfBs(ds, depth)
    ensures Nested(EventsBs(ds), st)
    decreases ds, 1
  {
    if ds != [] {
      NestedB(ds[0], depth, st);
      NestedBs(ds[1..], depth, st);
      NestedAppend(EventsB(ds[0]), EventsBs(ds[1..]), st, st);
    }
  }

  lemma {:induction false} NestedItem(d: ItemD, tag: Tag, depth: nat, st: seq<Kind>)
    requires WfItem(d, tag, depth)
    ensures Nested(EventsItem(d), st)
    decreases d, 0
  {
    NestedBs(d.blocks, depth + 1, [KindOf(tag)] + st);
    NestedBrackets(d.open, EventsBs(d.blocks), d.close, tag, st);
  }

  lemma {:induction false} NestedItems(ds: seq<ItemD>, tag: Tag, depth: nat, st: seq<Kind>)
    requires WfItems(ds, tag, depth)
    ensures Nested(EventsItems(ds), st)
    decreases ds, 1
  {
    if ds != [] {
      NestedItem(ds[0], tag, depth, st);
      NestedItems(ds[1..], tag, depth, st);
      NestedAppend(EventsItem(ds[0]), EventsItems(ds[1..]), st, st);
    }
  }

  lemma {:induction false} NestedRow(d: RowD, tag: Tag, depth: nat, st: seq<Kind>)
    requires WfRow(d, tag, depth)
    ensures Nested(EventsRow(d), st)
    decreases d, 0
  {
    NestedItems(d.cells, TableCell, depth, [KindOf(tag)] + st);
    NestedBrackets(d.open, EventsItems(d.cells), d.close, tag, st);
  }

  lemma {:induction false} NestedRows(ds: seq<RowD>, depth: nat, st: seq<Kind>)
    requires WfRows(ds, depth)
    ensures Nested(EventsRows(ds), st)
    decreases ds, 1
  {
    if ds != [] {
      NestedRow(ds[0], TableRow, depth, st);
      NestedRows(ds[1..], depth, st);
      NestedAppend(EventsRow(ds[0]), EventsRows(ds[1..]), st, st);
    }
  }

  // ---- Height ----

  function Children(e: M.InlineElement): (es: seq<M.Inline>) {
    match e
    case Link(_, children) => children
    case Bold(children) => children
    case Italic(children) => children
    case Strikethrough(children) => children
    case _ => []
  }

  /** The element is at most `n` levels tall. */
  predicate FitsI(e: M.Inline, n: nat)
    decreases n
  {
    n > 0 && forall i | 0 <= i < |Children(e.element)| :: FitsI(Children(e.element)[i], n - 1)
  }

  predicate FitsIs(es: seq<M.Inline>, n: nat) { forall i | 0 <= i < |es| :: FitsI(es[i], n) }

  predicate FitsB(b: M.Block, n: nat)
    decreases n, 0
  {
    n > 0 &&
    match b.element
    case Paragraph(content) => FitsIs(content, n - 1)
    case Heading(content) => FitsIs(content, n - 1)
    case Quote(blocks) => FitsBs(blocks, n - 1)
    case UnorderedList(items) => FitsItems(items, n - 1)
    case OrderedList(_, items) => FitsItems(items, n - 1)
    case Table(head, rows) => FitsItems(head, n - 1) && forall i | 0 <= i < |rows| :: FitsItems(rows[i], n - 1)
    case HorizontalRule => true
    case CodeBlock(_) => true
  }

  predicate FitsBs(bs: seq<M.Block>, n: nat)
    decreases n, 1
  {
    forall i | 0 <= i < |bs| :: FitsB(bs[i], n)
  }

  predicate FitsItems(items: seq<seq<M.Block>>, n: nat)
    decreases n, 2
  {
    forall i | 0 <= i < |items| :: FitsBs(items[i], n)
  }

  lemma {:induction false} TallerI(e: M.Inline, n: nat)
    requires FitsI(e, n)
    ensures FitsI(e, n + 1)
    decreases n
  {
    forall i | 0 <= i < |Children(e.element)|
      ensures FitsI(Children(e.element)[i], n)
    {
      TallerI(Children(e.element)[i], n - 1);
    }
  }

  lemma TallerIs(es: seq<M.Inline>, n: nat)
    requires FitsIs(es, n)
    ensures FitsIs(es, n + 1)
  {
    forall i | 0 <= i < |es| ensures FitsI(es[i], n + 1) { TallerI(es[i], n); }
  }

  lemma {:induction false} TallerB(b: M.Block, n: nat)
    requires FitsB(b, n)
    ensures FitsB(b, n + 1)
    decreases n, 0
  {
    match b.element
    case Paragraph(content) => TallerIs(content, n - 1);
    case Heading(content) => TallerIs(content, n - 1);
    case Quote(blocks) => TallerBs(blocks, n - 1);
    case UnorderedList(items) => TallerItems(items, n - 1);
    case OrderedList(_, items) => TallerItems(items, n - 1);
    case Table(head, rows) =>
      TallerItems(head, n - 1);
      forall i | 0 <= i < |rows| ensures FitsItems(rows[i], n) { TallerItems(rows[i], n - 1); }
    case _ =>
  }

  lemma {:induction false} TallerBs(bs: seq<M.Block>, n: nat)
    requires FitsBs(bs, n)
    ensures FitsBs(bs, n + 1)
    decreases n, 1
  {
    forall i | 0 <= i < |bs| ensures FitsB(bs[i], n + 1) { TallerB(bs[i], n); }
  }

  lemma {:induction false} TallerItems(items: seq<seq<M.Block>>, n: nat)
    requires FitsItems(items, n)
    ensures FitsItems(items, n + 1)
    decreases n, 2
  {
    forall i | 0 <= i < |items| ensures FitsBs(items[i], n + 1) { TallerBs(items[i], n); }
  }

  /** A split adds links with their text: two levels. */
  lemma {:induction false} SplitFits(start: nat, end: nat, str: M.Str, ms: seq<M.Match>, last: nat, n: nat)
    requires last <= |str| && M.Ordered(ms, last, |str|) && n >= 2
    ensures FitsIs(M.Split(start, end, str, ms, last), n)
    decreases |ms|
  {
    if ms != [] {
      SplitFits(start, end, str, ms[1..], ms[0].end, n);
      assert FitsI(M.LinkNode(start, str, ms[0]), n);
    }
  }

  lemma LinksFit(env: Env, start: nat, end: nat, s: M.Str, n: nat)
    requires n >= 2
    ensures FitsIs(Links(env, start, end, s), n)
  {
    if M.Ordered(env.links(s), 0, |s|) { SplitFits(start, end, s, env.links(s), 0, n); }
  }

  /** The levels a node at some depth may still add. */
  function Room(depth: nat): (n: nat) { if depth > MAX_DEPTH + 3 then 0 else MAX_DEPTH + 3 - depth }

  lemma FitsAppend(es: seq<M.Inline>, fs: seq<M.Inline>, n: nat)
    requires FitsIs(es, n) && FitsIs(fs, n)
    ensures FitsIs(es + fs, n)
  {
  }

  lemma WrapFits(start: nat, end: nat, tag: InlineTag, kids: seq<M.Inline>, n: nat)
    requires FitsIs(kids, n)
    ensures FitsI(M.Inline(start, end, Wrap(tag, kids)), n + 1)
  {
  }

  lemma {:induction false} InlineFits(env: Env, d: InlineD, depth: nat)
    requires WfI(d, depth) && depth <= MAX_DEPTH
    ensures FitsIs(TreeI(env, d), Room(depth))
    decreases d, 0
  {
    match d
    case ContainerD(open, kids, close) =>
      InlinesFit(env, kids, depth + 1);
      WrapFits(open.start, close.end, open.event.tag.tag, TreeIs(env, kids), Room(depth + 1));
    case TextD(texts) => LinksFit(env, texts[0].start, texts[|texts| - 1].end, Joined(texts), Room(depth));
    case AtomD(e) =>
  }

  lemma {:induction false} InlinesFit(env: Env, ds: seq<InlineD>, depth: nat)
    requires WfIs(ds, depth) && depth <= MAX_DEPTH
    ensures FitsIs(TreeIs(env, ds), Room(depth))
    decreases ds, 1
  {
    if ds != [] {
      InlineFits(env, ds[0], depth);
      InlinesFit(env, ds[1..], depth);
      FitsAppend(TreeI(env, ds[0]), TreeIs(env, ds[1..]), Room(depth));
    }
  }

  lemma {:induction false} HtmlFits(env: Env, texts: seq<Ranged>, n: nat)
    requires n >= 2
    ensures FitsIs(HtmlText(env, texts), n)
  {
    if texts != [] {
      var e := texts[|texts| - 1];
      var s := if e.event.Text? || e.event.Html? then e.event.text else [];
      HtmlFits(env, texts[..|texts| - 1], n);
      LinksFit(env, e.start, e.end, s, n);
      FitsAppend(HtmlText(env, texts[..|texts| - 1]), Links(env, e.start, e.end, s), n);
    }
  }

  /** The tree of a block is at most as tall as the depth limit leaves room for. */
  lemma {:induction false} BlockFits(env: Env, d: BlockD, depth: nat)
    requires WfB(d, depth)
    ensures FitsB(TreeB(env, d), Room(depth))
    decreases d, 0
  {
    match d
    case ProseD(open, prose, close) => InlinesFit(env, prose, depth + 1);
    case ImplicitD(prose) => InlinesFit(env, prose, depth + 1);
    case QuoteD(open, blocks, close) => BlocksFit(env, blocks, depth + 1);
    case ListD(open, items, close) =>
      ItemsFit(env, items, Item, depth + 1);
      TallerItems(TreeItems(env, items), Room(depth + 2));
    case TableD(open, head, rows, close) =>
      RowFits(env, head, TableHead, depth + 2);
      RowsFit(env, rows, depth + 2);
    case RawD(open, texts, close) => HtmlFits(env, texts, Room(depth) - 1);
    case RuleD(e) =>
  }

  lemma {:induction false} BlocksFit(env: Env, ds: seq<BlockD>, depth: nat)
    requires WfBs(ds, depth)
    ensures FitsBs(TreeBs(env, ds), Room(depth))
    decreases ds, 1
  {
    if ds != [] {
      BlockFits(env, ds[0], depth);
      BlocksFit(env, ds[1..], depth);
    }
  }

  lemma {:induction false} ItemsFit(env: Env, ds: seq<ItemD>, tag: Tag, depth: nat)
    requires WfItems(ds, tag, depth)
    ensures FitsItems(TreeItems(env, ds), Room(depth + 1))
    decreases ds, 1
  {
    if ds != [] {
      BlocksFit(env, ds[0].blocks, depth + 1);
      ItemsFit(env, ds[1..], tag, depth);
    }
  }

  lemma {:induction false} RowFits(env: Env, d: RowD, tag: Tag, depth: nat)
    requires WfRow(d, tag, depth) && depth > 0
    ensures FitsItems(TreeItems(env, d.cells), Room(depth - 1))
    decreases d, 0
  {
    ItemsFit(env, d.cells, TableCell, depth);
    TallerItems(TreeItems(env, d.cells), Room(depth + 1));
    TallerItems(TreeItems(env, d.cells), Room(depth));
  }

  lemma {:induction false} RowsFit(env: Env, ds: seq<RowD>, depth: nat)
    requires WfRows(ds, depth) && depth > 0
    ensures forall i | 0 <= i < |TreeRows(env, ds)| :: FitsItems(TreeRows(env, ds)[i], Room(depth - 1))
    decreases ds, 1
  {
    if ds != [] {
      RowFits(env, ds[0], TableRow, depth);
      RowsFit(env, ds[1..], depth);
    }
  }
}
