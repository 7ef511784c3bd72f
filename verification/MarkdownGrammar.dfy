/**
 The builder accepts exactly what has a derivation, and then builds exactly that derivation's tree.
 */
module MarkdownGrammar {
  import opened Prelude
  import opened MarkdownEvents
  import opened MarkdownReading
  import opened MarkdownTrees
  import M = Markdown

  // ---- Where texts end ----

  lemma {:induction false} TextEndIs(es: seq<Ranged>, a: nat, b: nat)
    requires a <= b <= |es| && AllText(es[a..b]) && (b < |es| ==> !es[b].event.Text?)
    ensures TextEnd(es, a) == b
    decreases b - a
  {
    if a < b {
      assert es[a..b][0] == es[a] && es[a..b][1..] == es[a + 1..b];
      TextEndIs(es, a + 1, b);
    }
  }

  lemma {:induction false} RawEndIs(es: seq<Ranged>, a: nat, b: nat, html: bool)
    requires a <= b < |es| && (forall k | a <= k < b :: IsRaw(es[k].event, html)) && !IsRaw(es[b].event, html)
    ensures RawEnd(es, a, html) == b
    decreases b - a
  {
    if a < b { RawEndIs(es, a + 1, b, html); }
  }

  lemma {:induction false} RawEndReads(es: seq<Ranged>, a: nat, html: bool)
    requires a <= |es|
    ensures forall k | a <= k < RawEnd(es, a, html) :: IsRaw(es[k].event, html)
    decreases |es| - a
  {
    if a < |es| && IsRaw(es[a].event, html) { RawEndReads(es, a + 1, html); }
  }

  // ---- First events ----

  /** A run of inline elements starts with text exactly if its first element is a text. */
  lemma FirstOfInlines(ds: seq<InlineD>, depth: nat)
    requires WfIs(ds, depth) && ds != []
    ensures var es := EventsIs(ds);
            es != [] && (ds[0].TextD? <==> es[0].event.Text?) && InlineAction(es[0].event) != Stop && !InlineAction(es[0].event).Fail?
  {
    match ds[0]
    case ContainerD(open, kids, close) => assert EventsI(ds[0])[0] == open;
    case TextD(texts) => assert EventsI(ds[0])[0] == texts[0];
    case AtomD(e) => assert EventsI(ds[0])[0] == e;
  }

  predicate FirstFits(d: BlockD, e: Event) {
    && !e.End?
    && (d.ImplicitD? <==> InlineAction(e) != Stop)
    && OpeningOf(e) == match d
                       case ProseD(_, _, _) => AProse
                       case ImplicitD(_) => AnImplicit
                       case QuoteD(_, _, _) => AQuote
                       case ListD(_, _, _) => AList
                       case TableD(_, _, _, _) => ATable
                       case RawD(_, _, _) => ARaw
                       case RuleD(_) => ARule
  }

  /** The event a block other than an implicit paragraph opens with. */
  function Opener(d: BlockD): (e: Ranged)
    requires !d.ImplicitD?
  {
    match d
    case ProseD(open, _, _) => open
    case QuoteD(open, _, _) => open
    case ListD(open, _, _) => open
    case TableD(open, _, _, _) => open
    case RawD(open, _, _) => open
    case RuleD(e) => e
  }

  lemma OpenerIsFirst(d: BlockD)
    requires !d.ImplicitD?
    ensures EventsB(d) != [] && EventsB(d)[0] == Opener(d)
  {
  }

  lemma OpenerFits(d: BlockD, depth: nat)
    requires WfB(d, depth) && !d.ImplicitD?
    ensures FirstFits(d, Opener(d).event)
  {
  }

  /** The first event of a block tells which block it is. */
  lemma FirstOfBlock(d: BlockD, depth: nat)
    requires WfB(d, depth)
    ensures EventsB(d) != [] && FirstFits(d, EventsB(d)[0].event)
  {
    if d.ImplicitD? {
      FirstOfInlines(d.prose, depth + 1);
    } else {
      OpenerIsFirst(d);
      OpenerFits(d, depth);
    }
  }

  // ---- Everything accepted has a derivation: inline elements ----

  /** `value` is the tree of derivation `d`, which stands for the events from `a` to `b`. */
  predicate IsInline(env: Env, es: seq<Ranged>, a: nat, b: nat, d: InlineD, depth: nat, value: seq<M.Inline>) {
    a < b && WfI(d, depth) && Spans(es, a, b, EventsI(d)) && value == TreeI(env, d)
  }

  predicate AreInlines(env: Env, es: seq<Ranged>, a: nat, b: nat, ds: seq<InlineD>, depth: nat, value: seq<M.Inline>) {
    WfIs(ds, depth) && Spans(es, a, b, EventsIs(ds)) && value == TreeIs(env, ds)
  }

  lemma {:induction false} TextEndReads(es: seq<Ranged>, a: nat)
    requires a <= |es|
    ensures forall k | a <= k < TextEnd(es, a) :: es[k].event.Text?
    decreases |es| - a
  {
    if a < |es| && es[a].event.Text? { TextEndReads(es, a + 1); }
  }

  lemma TextTree(env: Env, es: seq<Ranged>, a: nat, b: nat, texts: seq<Ranged>)
    requires a < b <= |es| && texts == es[a..b]
    ensures TreeI(env, TextD(texts)) == Links(env, es[a].start, es[b - 1].end, Joined(texts))
  {
    assert texts[0] == es[a] && texts[|texts| - 1] == es[b - 1];
  }

  lemma TextIsInline(env: Env, es: seq<Ranged>, a: nat, b: nat, depth: nat)
    requires a < |es| && es[a].event.Text? && b == TextEnd(es, a)
    ensures IsInline(env, es, a, b, TextD(es[a..b]), depth, TextAt(env, es, a))
  {
    TextEndReads(es, a);
    TextTree(env, es, a, b, es[a..b]);
    assert WfI(TextD(es[a..b]), depth);
  }

  lemma ContainerIsInline(env: Env, es: seq<Ranged>, a: nat, b: nat, ds: seq<InlineD>, depth: nat, kids: seq<M.Inline>)
    requires a < b < |es| && AreInlines(env, es, a + 1, b, ds, depth + 1, kids) && depth + 1 <= MAX_DEPTH
    requires Closes(es[a], es[b]) && es[a].event.tag.Inlined?
    ensures IsInline(env, es, a, b + 1, ContainerD(es[a], ds, es[b]), depth,
                     [M.Inline(es[a].start, es[b].end, Wrap(es[a].event.tag.tag, kids))])
  {
    SpansBrackets(es, a, b + 1, es[a], EventsIs(ds), es[b]);
  }

  lemma {:induction false} InlineReads(env: Env, es: seq<Ranged>, pos: nat, depth: nat, v: seq<M.Inline>, next: nat)
    returns (d: InlineD)
    requires pos < |es| && InlineAction(es[pos].event) != Stop && depth <= MAX_DEPTH
    requires InlineAt(env, es, pos, depth) == Done(v, next)
    ensures IsInline(env, es, pos, next, d, depth, v) && (d.TextD? ==> next == |es| || !es[next].event.Text?)
    decreases Fuel(depth), |es| - pos, 1
  {
    match InlineAction(es[pos].event)
    case Run =>
      TextIsInline(env, es, pos, next, depth);
      d := TextD(es[pos..next]);
    case Atom =>
      SpansOne(es, pos, pos + 1, es[pos], []);
      d := AtomD(es[pos]);
    case Descend(_) =>
      var Done(kids, end) := InlinesAt(env, es, pos + 1, depth + 1);
      var ds := InlinesRead(env, es, pos + 1, depth + 1, kids, end);
      ContainerIsInline(env, es, pos, end, ds, depth, kids);
      d := ContainerD(es[pos], ds, es[end]);
  }

  lemma MoreInlines(env: Env, es: seq<Ranged>, a: nat, b: nat, c: nat, d: InlineD, ds: seq<InlineD>, depth: nat,
                    v: seq<M.Inline>, more: seq<M.Inline>)
    requires IsInline(env, es, a, b, d, depth, v) && AreInlines(env, es, b, c, ds, depth, more)
    requires d.TextD? && ds != [] ==> !ds[0].TextD?
    ensures AreInlines(env, es, a, c, [d] + ds, depth, v + more)
  {
    assert ([d] + ds)[1..] == ds;
    SpansJoin(es, a, b, c, EventsI(d), EventsIs(ds));
  }

  lemma {:induction false} RunReads(env: Env, es: seq<Ranged>, pos: nat, depth: nat, v: seq<M.Inline>, end: nat)
    returns (ds: seq<InlineD>)
    requires pos <= |es| && depth <= MAX_DEPTH && InlineRun(env, es, pos, depth) == Done(v, end)
    ensures AreInlines(env, es, pos, end, ds, depth, v)
    decreases Fuel(depth), |es| - pos, 2
  {
    if InlineAction(es[pos].event) == Stop {
      ds := [];
    } else {
      var Done(first, next) := InlineAt(env, es, pos, depth);
      var Done(more, _) := InlineRun(env, es, next, depth);
      var d := InlineReads(env, es, pos, depth, first, next);
      var rest := RunReads(env, es, next, depth, more, end);
      if rest != [] { FirstOfInlines(rest, depth); }
      MoreInlines(env, es, pos, next, end, d, rest, depth, first, more);
      ds := [d] + rest;
    }
  }

  lemma {:induction false} InlinesRead(env: Env, es: seq<Ranged>, pos: nat, depth: nat, v: seq<M.Inline>, end: nat)
    returns (ds: seq<InlineD>)
    requires pos <= |es| && InlinesAt(env, es, pos, depth) == Done(v, end)
    ensures depth <= MAX_DEPTH && AreInlines(env, es, pos, end, ds, depth, v)
    decreases Fuel(depth), |es| - pos, 3
  {
    ds := RunReads(env, es, pos, depth, v, end);
  }

  // ---- Every derivation is accepted: inline elements ----

  lemma TextAccepts(env: Env, es: seq<Ranged>, a: nat, b: nat, texts: seq<Ranged>, depth: nat)
    requires texts != [] && AllText(texts) && Spans(es, a, b, texts) && depth <= MAX_DEPTH
    requires b == |es| || !es[b].event.Text?
    ensures es[a].event.Text? && InlineAt(env, es, a, depth) == Done(TreeI(env, TextD(texts)), b)
  {
    assert es[a..b][0] == es[a];
    TextEndIs(es, a, b);
    TextTree(env, es, a, b, texts);
  }

  lemma AtomAccepts(env: Env, es: seq<Ranged>, a: nat, b: nat, e: Ranged, depth: nat)
    requires InlineAction(e.event) == Atom && Spans(es, a, b, [e]) && depth <= MAX_DEPTH
    ensures es[a] == e && InlineAt(env, es, a, depth) == Done(TreeI(env, AtomD(e)), b)
  {
    assert es[a..b][0] == es[a];
  }

  lemma ContainerAccepts(env: Env, es: seq<Ranged>, a: nat, b: nat, kids: seq<InlineD>, depth: nat)
    requires a + 1 < b <= |es| && Closes(es[a], es[b - 1]) && es[a].event.tag.Inlined? && depth <= MAX_DEPTH
    requires InlinesAt(env, es, a + 1, depth + 1) == Done(TreeIs(env, kids), b - 1)
    ensures InlineAt(env, es, a, depth) == Done(TreeI(env, ContainerD(es[a], kids, es[b - 1])), b)
  {
  }

  lemma {:induction false} InlineAccepts(env: Env, es: seq<Ranged>, a: nat, b: nat, d: InlineD, depth: nat)
    requires WfI(d, depth) && depth <= MAX_DEPTH && Spans(es, a, b, EventsI(d))
    requires d.TextD? ==> b == |es| || !es[b].event.Text?
    ensures a < b && InlineAction(es[a].event) != Stop && InlineAt(env, es, a, depth) == Done(TreeI(env, d), b)
    decreases d, 0
  {
    match d
    case TextD(texts) => TextAccepts(env, es, a, b, texts, depth);
    case AtomD(e) => AtomAccepts(env, es, a, b, e, depth);
    case ContainerD(open, kids, close) =>
      SpansBrackets(es, a, b, open, EventsIs(kids), close);
      RunAccepts(env, es, a + 1, b - 1, kids, depth + 1);
      ContainerAccepts(env, es, a, b, kids, depth);
  }

  lemma {:induction false} RunAccepts(env: Env, es: seq<Ranged>, a: nat, b: nat, ds: seq<InlineD>, depth: nat)
    requires WfIs(ds, depth) && depth <= MAX_DEPTH && Spans(es, a, b, EventsIs(ds))
    requires b < |es| && InlineAction(es[b].event) == Stop
    ensures InlinesAt(env, es, a, depth) == Done(TreeIs(env, ds), b)
    decreases ds, 1
  {
    if ds != [] {
      var next := SpansSplit(es, a, b, EventsI(ds[0]), EventsIs(ds[1..]));
      AfterText(es, next, b, ds[1..], depth);
      InlineAccepts(env, es, a, next, ds[0], depth);
      RunAccepts(env, es, next, b, ds[1..], depth);
      RunStep(env, es, a, next, depth);
    }
  }

  lemma RunStep(env: Env, es: seq<Ranged>, a: nat, next: nat, depth: nat)
    requires a < |es| && InlineAction(es[a].event) != Stop && depth <= MAX_DEPTH
    requires InlineAt(env, es, a, depth).Done? && InlineAt(env, es, a, depth).next == next
    ensures InlinesAt(env, es, a, depth) == Prefixed(InlineAt(env, es, a, depth).value, InlinesAt(env, es, next, depth))
  {
  }

  /** What follows an element of a run. */
  lemma AfterText(es: seq<Ranged>, a: nat, b: nat, rest: seq<InlineD>, depth: nat)
    requires WfIs(rest, depth) && Spans(es, a, b, EventsIs(rest)) && b < |es| && InlineAction(es[b].event) == Stop
    ensures a < |es| && (rest == [] || !rest[0].TextD? ==> !es[a].event.Text?)
  {
    if rest != [] {
      FirstOfInlines(rest, depth);
      assert es[a..b][0] == es[a];
    }
  }
}
