/** The tree of an accepted message holds exactly its tags, targets, numbers, marks and texts, in order. */
module MarkdownUnparse {
  import opened Prelude
  import opened MarkdownEvents
  import opened MarkdownReading
  import opened MarkdownGrammar
  import opened MarkdownAcceptance
  import opened MarkdownTokens
  import M = Markdown

  // ---- Stretches of a scan ----

  /** What is left to scan at a position and in a mode, known only by its steps. */
  type Scanner = (nat, Mode) -> seq<Token>

  ghost predicate IsScan(env: Env, es: seq<Ranged>, f: Scanner) {
    forall pos: nat, mode {:trigger StepAt(env, es, pos, mode)} | pos < |es| ::
      var s := StepAt(env, es, pos, mode); f(pos, mode) == s.out + f(s.next, s.mode)
  }

  /** The scan goes from `a` to `b`, and from one mode to the other, with these tokens. */
  predicate Runs(f: Scanner, a: nat, m: Mode, b: nat, n: Mode, ts: seq<Token>) { f(a, m) == ts + f(b, n) }

  lemma Stays(f: Scanner, a: nat, m: Mode)
    ensures Runs(f, a, m, a, m, [])
  {
    assert [] + f(a, m) == f(a, m);
  }

  lemma Then(f: Scanner, a: nat, m: Mode, b: nat, n: Mode, c: nat, k: Mode, s: seq<Token>, t: seq<Token>)
    requires Runs(f, a, m, b, n, s) && Runs(f, b, n, c, k, t)
    ensures Runs(f, a, m, c, k, s + t)
  {
    var rest := f(c, k);
    assert s + (t + rest) == (s + t) + rest;
  }

  lemma OneStep(f: Scanner, env: Env, es: seq<Ranged>, a: nat, m: Mode)
    requires IsScan(env, es, f) && a < |es|
    ensures var s := StepAt(env, es, a, m); Runs(f, a, m, s.next, s.mode, s.out)
  {
  }

  lemma Opens(f: Scanner, env: Env, es: seq<Ranged>, a: nat, m: Mode)
    requires IsScan(env, es, f)
    requires a < |es| && es[a].event.Start? && Turn(m, es[a].event) == 0
    ensures Runs(f, a, m, a + 1, Inside(env, es[a], m), Show(m, Opened(env, es[a])))
  {
    OneStep(f, env, es, a, m);
  }

  lemma Ends(f: Scanner, env: Env, es: seq<Ranged>, a: nat, m: Mode)
    requires IsScan(env, es, f)
    requires a < |es| && es[a].event.End? && Turn(m, es[a].event) == 0
    ensures Runs(f, a, m, a + 1, Outside(es[a], m), Show(Outside(es[a], m), Closed(es[a], m)))
  {
    OneStep(f, env, es, a, m);
  }

  /** A start tag, what is inside, and its end tag. */
  lemma Bracketed(f: Scanner, env: Env, es: seq<Ranged>, a: nat, b: nat, m: Mode, inner: seq<Token>)
    requires IsScan(env, es, f)
    requires a + 1 < b <= |es| && es[a].event.Start? && es[b - 1].event.End?
    requires Turn(m, es[a].event) == 0 && Turn(Inside(env, es[a], m), es[b - 1].event) == 0
    requires Outside(es[b - 1], Inside(env, es[a], m)) == m
    requires Runs(f, a + 1, Inside(env, es[a], m), b - 1, Inside(env, es[a], m), inner)
    ensures Runs(f, a, m, b, m, Show(m, Opened(env, es[a])) + inner + Show(m, Closed(es[b - 1], Inside(env, es[a], m))))
  {
    var k := Inside(env, es[a], m);
    Opens(f, env, es, a, m);
    Ends(f, env, es, b - 1, k);
    Then(f, a, m, a + 1, k, b - 1, k, Show(m, Opened(env, es[a])), inner);
    Then(f, a, m, b - 1, k, b, m, Show(m, Opened(env, es[a])) + inner, Show(m, Closed(es[b - 1], k)));
  }

  /** The same for the tags of a block. */
  lemma Boxed(f: Scanner, env: Env, es: seq<Ranged>, a: nat, b: nat, tag: Tag, inner: seq<Token>, ts: seq<Token>)
    requires IsScan(env, es, f)
    requires a + 1 < b <= |es| && Brackets(es[a], es[b - 1], tag) && !tag.Inlined? && !tag.Unsupported?
    requires Runs(f, a + 1, Inside(env, es[a], BLOCKS), b - 1, Inside(env, es[a], BLOCKS), inner)
    requires ts == InTags(env, es[a], inner, es[b - 1])
    ensures Runs(f, a, BLOCKS, b, BLOCKS, ts)
  {
    Bracketed(f, env, es, a, b, BLOCKS, inner);
  }

  function InTags(env: Env, open: Ranged, inner: seq<Token>, close: Ranged): (ts: seq<Token>)
    requires open.event.Start? && close.event.End?
  {
    Opened(env, open) + inner + Closed(close, Inside(env, open, BLOCKS))
  }

  // ---- Texts and their links ----

  lemma {:induction false} UnparseAppend(a: seq<M.Inline>, b: seq<M.Inline>)
    ensures UnparseIs(a + b) == UnparseIs(a) + UnparseIs(b)
    decreases |a|
  {
    if a == [] {
      assert a + b == b;
    } else {
      assert (a + b)[1..] == a[1..] + b;
      UnparseAppend(a[1..], b);
    }
  }

  lemma UnparseOne(e: M.Inline)
    ensures UnparseIs([e]) == UnparseI(e)
  {
    assert [e][1..] == [];
  }

  lemma TextTokens(start: nat, end: nat, s: M.Str)
    requires s != []
    ensures UnparseIs([M.Inline(start, end, M.Text(s))]) == Plain(start, end, s)
  {
    UnparseOne(M.Inline(start, end, M.Text(s)));
  }

  lemma LinkTokens(start: nat, s: M.Str, m: M.Match)
    requires m.start <= m.end <= |s|
    ensures var (lo, hi, t) := (start + m.start, start + m.end, s[m.start..m.end]);
            UnparseIs([M.LinkNode(start, s, m)]) == Within(Linked, lo, hi, [Target(t), Chars(lo, hi, t)])
  {
    var (lo, hi, t) := (start + m.start, start + m.end, s[m.start..m.end]);
    UnparseOne(M.LinkNode(start, s, m));
    UnparseOne(M.Inline(lo, hi, M.Text(t)));
    assert [Target(t)] + [Chars(lo, hi, t)] == [Target(t), Chars(lo, hi, t)];
  }

  lemma GapTokens(start: nat, s: M.Str, last: nat, until: nat)
    requires last <= until <= |s|
    ensures UnparseIs(M.Gap(start, s, last, until)) == Plain(start + last, start + until, s[last..until])
  {
    if last < until { TextTokens(start + last, start + until, s[last..until]); }
  }

  lemma UnparseThree(whole: seq<M.Inline>, a: seq<M.Inline>, b: seq<M.Inline>, c: seq<M.Inline>)
    requires whole == a + b + c
    ensures UnparseIs(whole) == UnparseIs(a) + UnparseIs(b) + UnparseIs(c)
  {
    UnparseAppend(a + b, c);
    UnparseAppend(a, b);
  }

  lemma {:induction false} SplitStarts(start: nat, s: M.Str, m: M.Match, last: nat, whole: seq<M.Inline>,
                                       rest: seq<M.Inline>)
    requires last <= m.start <= m.end <= |s|
    requires whole == M.Gap(start, s, last, m.start) + [M.LinkNode(start, s, m)] + rest
    ensures UnparseIs(whole) == PieceTokens(start, s, m, last) + UnparseIs(rest)
  {
    UnparseThree(whole, M.Gap(start, s, last, m.start), [M.LinkNode(start, s, m)], rest);
    GapTokens(start, s, last, m.start);
    LinkTokens(start, s, m);
  }

  lemma {:induction false} SplitTokens(start: nat, end: nat, s: M.Str, ms: seq<M.Match>, last: nat)
    requires last <= |s| && M.Ordered(ms, last, |s|)
    ensures UnparseIs(M.Split(start, end, s, ms, last)) == Pieces(start, end, s, ms, last)
    decreases |ms|
  {
    if ms != [] {
      SplitTokens(start, end, s, ms[1..], ms[0].end);
      SplitStarts(start, s, ms[0], last, M.Split(start, end, s, ms, last), M.Split(start, end, s, ms[1..], ms[0].end));
    } else if last < |s| {
      TextTokens(start + last, end, s[last..]);
    }
  }

  lemma LinksTokens(env: Env, start: nat, end: nat, s: M.Str)
    ensures UnparseIs(Links(env, start, end, s)) == Linkified(env, start, end, s)
  {
    if M.Ordered(env.links(s), 0, |s|) { SplitTokens(start, end, s, env.links(s), 0); }
  }

  lemma {:induction false} LettersSnoc(es: seq<Ranged>, a: nat, b: nat)
    requires a <= b < |es| && es[b].event.Text?
    ensures Letters(es, a, b + 1) == Letters(es, a, b) + es[b].event.text
    decreases b - a
  {
    if a == b {
      assert Letters(es, b + 1, b + 1) == [];
    } else {
      LettersSnoc(es, a + 1, b);
    }
  }

  lemma {:induction false} JoinedIsLetters(es: seq<Ranged>, a: nat, b: nat)
    requires a <= b <= |es| && forall k | a <= k < b :: es[k].event.Text?
    ensures Joined(es[a..b]) == Letters(es, a, b)
    decreases b
  {
    if a < b {
      JoinedIsLetters(es, a, b - 1);
      LettersSnoc(es, a, b - 1);
      JoinedSnoc(es, a, b - 1);
    }
  }

  /** What is left of a line of code: all of it but at most one newline. */
  lemma ChompIs(s: M.Str)
    ensures s == Chomp(s) || s == Chomp(s) + [10]
    ensures Chomp(s) == s <==> s == [] || s[|s| - 1] != 10
  {
    if s != [] { assert s == s[..|s| - 1] + [s[|s| - 1]]; }
  }

  // ---- Inline elements ----

  predicate InProse(m: Mode) { m.place.Loose? || m.place.Tagged? }

  lemma FlowsIff(e: Event)
    ensures Flows(e) <==> InlineAction(e) != Stop && !InlineAction(e).Fail?
  {
  }

  lemma TextStep(f: Scanner, env: Env, es: seq<Ranged>, a: nat, b: nat, m: Mode)
    requires IsScan(env, es, f)
    requires a < |es| && es[a].event.Text? && b == TextEnd(es, a) && InProse(m)
    ensures Runs(f, a, m, b, m, Show(m, Linkified(env, es[a].start, es[b - 1].end, Letters(es, a, b))))
  {
    OneStep(f, env, es, a, m);
  }

  lemma TextRuns(f: Scanner, env: Env, es: seq<Ranged>, a: nat, b: nat, texts: seq<Ranged>, m: Mode)
    requires IsScan(env, es, f)
    requires texts != [] && AllText(texts) && Spans(es, a, b, texts) && (b == |es| || !es[b].event.Text?) && InProse(m)
    ensures Runs(f, a, m, b, m, Show(m, UnparseIs(TreeI(env, TextD(texts)))))
  {
    TextEndIs(es, a, b);
    TextEndReads(es, a);
    assert es[a] == texts[0];
    TextStep(f, env, es, a, b, m);
    JoinedIsLetters(es, a, b);
    TextTree(env, es, a, b, texts);
    LinksTokens(env, es[a].start, es[b - 1].end, Joined(texts));
  }

  lemma AtomTokens(env: Env, e: Ranged)
    requires InlineAction(e.event) == Atom
    ensures UnparseIs(TreeI(env, AtomD(e))) == Single(e)
  {
    UnparseOne(M.Inline(e.start, e.end, AtomElement(e.event)));
  }

  lemma AtomRuns(f: Scanner, env: Env, es: seq<Ranged>, a: nat, b: nat, e: Ranged, m: Mode)
    requires IsScan(env, es, f)
    requires InlineAction(e.event) == Atom && Spans(es, a, b, [e]) && InProse(m)
    ensures Runs(f, a, m, b, m, Show(m, UnparseIs(TreeI(env, AtomD(e)))))
  {
    assert es[a..b][0] == es[a];
    AtomTokens(env, e);
    OneStep(f, env, es, a, m);
  }

  lemma MovesOne(a: Token, b: Token, rest: seq<Token>)
    ensures [a, b] + rest == [a] + ([b] + rest)
  {
  }

  lemma WrapTokens(env: Env, open: Ranged, kids: seq<M.Inline>, close: Ranged, m: Mode)
    requires Closes(open, close) && open.event.tag.Inlined?
    ensures UnparseI(M.Inline(open.start, close.end, Wrap(open.event.tag.tag, kids)))
         == Opened(env, open) + (if open.event.tag.tag.ImageAt? then [] else UnparseIs(kids)) + Closed(close, m)
  {
    match open.event.tag.tag
    case LinkTo(dest) => MovesOne(Open(Linked, open.start), Target(dest), UnparseIs(kids));
    case ImageAt(dest) => MovesOne(Open(Pictured, open.start), Target(dest), []);
    case _ =>
  }

  lemma ContainerTokens(env: Env, open: Ranged, kids: seq<M.Inline>, close: Ranged, m: Mode)
    requires Closes(open, close) && open.event.tag.Inlined?
    ensures var k := Inside(env, open, m);
            && Show(m, Opened(env, open)) + Show(k, UnparseIs(kids)) + Show(m, Closed(close, k))
               == Show(m, UnparseI(M.Inline(open.start, close.end, Wrap(open.event.tag.tag, kids))))
            && Outside(close, k) == m
  {
    WrapTokens(env, open, kids, close, Inside(env, open, m));
  }

  lemma {:induction false} InlineRuns(f: Scanner, env: Env, es: seq<Ranged>, a: nat, b: nat, d: InlineD, depth: nat,
                                      m: Mode)
    requires IsScan(env, es, f)
    requires WfI(d, depth) && Spans(es, a, b, EventsI(d)) && InProse(m)
    requires d.TextD? ==> b == |es| || !es[b].event.Text?
    ensures Runs(f, a, m, b, m, Show(m, UnparseIs(TreeI(env, d))))
    decreases d, 0
  {
    match d
    case TextD(texts) => TextRuns(f, env, es, a, b, texts, m);
    case AtomD(e) => AtomRuns(f, env, es, a, b, e, m);
    case ContainerD(open, kids, close) =>
      SpansBrackets(es, a, b, open, EventsIs(kids), close);
      var k := Inside(env, open, m);
      InlinesRun(f, env, es, a + 1, b - 1, kids, depth + 1, k);
      ContainerTokens(env, open, TreeIs(env, kids), close, m);
      Bracketed(f, env, es, a, b, m, Show(k, UnparseIs(TreeIs(env, kids))));
      UnparseOne(TreeI(env, d)[0]);
  }

  lemma ShowAppend(m: Mode, s: seq<Token>, t: seq<Token>)
    ensures Show(m, s) + Show(m, t) == Show(m, s + t)
  {
  }

  lemma {:induction false} InlinesRun(f: Scanner, env: Env, es: seq<Ranged>, a: nat, b: nat, ds: seq<InlineD>,
                                      depth: nat, m: Mode)
    requires IsScan(env, es, f)
    requires WfIs(ds, depth) && Spans(es, a, b, EventsIs(ds)) && InProse(m)
    requires b < |es| && InlineAction(es[b].event) == Stop
    ensures Runs(f, a, m, b, m, Show(m, UnparseIs(TreeIs(env, ds))))
    decreases ds, 1
  {
    if ds == [] {
      Stays(f, a, m);
    } else {
      var next := SpansSplit(es, a, b, EventsI(ds[0]), EventsIs(ds[1..]));
      var first, rest := TreeI(env, ds[0]), TreeIs(env, ds[1..]);
      AfterText(es, next, b, ds[1..], depth);
      InlineRuns(f, env, es, a, next, ds[0], depth, m);
      InlinesRun(f, env, es, next, b, ds[1..], depth, m);
      Then(f, a, m, next, m, b, m, Show(m, UnparseIs(first)), Show(m, UnparseIs(rest)));
      ShowAppend(m, UnparseIs(first), UnparseIs(rest));
      UnparseAppend(first, rest);
    }
  }

  // ---- Code and HTML ----

  lemma {:induction false} LinesAppend(a: seq<M.CodeLine>, b: seq<M.CodeLine>)
    ensures UnparseLines(a + b) == UnparseLines(a) + UnparseLines(b)
  {
    if a == [] {
      assert a + b == b;
    } else {
      assert (a + b)[1..] == a[1..] + b;
      LinesAppend(a[1..], b);
    }
  }

  function LineOf(e: Ranged): (l: M.CodeLine) {
    M.CodeLine(e.start, e.end, Chomp(if e.event.Text? then e.event.text else []))
  }

  function LineTokens(texts: seq<Ranged>): (ts: seq<Token>) {
    if texts == [] then [] else LineTokens(texts[..|texts| - 1]) + UnparseLines([LineOf(texts[|texts| - 1])])
  }

  lemma {:induction false} CodeTokens(texts: seq<Ranged>)
    ensures UnparseLines(CodeLines(texts)) == LineTokens(texts)
  {
    if texts != [] {
      CodeTokens(texts[..|texts| - 1]);
      LinesAppend(CodeLines(texts[..|texts| - 1]), [LineOf(texts[|texts| - 1])]);
    }
  }

  lemma LineStep(f: Scanner, env: Env, es: seq<Ranged>, a: nat)
    requires IsScan(env, es, f) && a < |es| && es[a].event.Text?
    ensures Runs(f, a, Mode(Verbatim, 0), a + 1, Mode(Verbatim, 0), UnparseLines([LineOf(es[a])]))
  {
    OneStep(f, env, es, a, Mode(Verbatim, 0));
    assert [LineOf(es[a])][1..] == [];
  }

  /** The last event of a stretch, and those before it. */
  lemma SpansButLast<T>(xs: seq<T>, a: nat, b: nat, s: seq<T>)
    requires Spans(xs, a, b, s) && s != []
    ensures a < b && xs[b - 1] == s[|s| - 1] && Spans(xs, a, b - 1, s[..|s| - 1])
  {
    assert s == s[..|s| - 1] + [s[|s| - 1]];
    SpansLast(xs, a, b, s[..|s| - 1], s[|s| - 1]);
  }

  lemma {:induction false} CodeRuns(f: Scanner, env: Env, es: seq<Ranged>, a: nat, b: nat, texts: seq<Ranged>)
    requires IsScan(env, es, f) && Spans(es, a, b, texts) && AllText(texts)
    ensures Runs(f, a, Mode(Verbatim, 0), b, Mode(Verbatim, 0), LineTokens(texts))
    decreases |texts|
  {
    var m := Mode(Verbatim, 0);
    if texts == [] {
      Stays(f, a, m);
    } else {
      var before, e := texts[..|texts| - 1], texts[|texts| - 1];
      SpansButLast(es, a, b, texts);
      CodeRuns(f, env, es, a, b - 1, before);
      LineStep(f, env, es, b - 1);
      Then(f, a, m, b - 1, m, b, m, LineTokens(before), UnparseLines([LineOf(e)]));
    }
  }

  function LinksOf(env: Env, e: Ranged): (es: seq<M.Inline>) {
    Links(env, e.start, e.end, if e.event.Text? || e.event.Html? then e.event.text else [])
  }

  function MarkupTokens(env: Env, texts: seq<Ranged>): (ts: seq<Token>) {
    if texts == [] then [] else MarkupTokens(env, texts[..|texts| - 1]) + UnparseIs(LinksOf(env, texts[|texts| - 1]))
  }

  lemma {:induction false} HtmlTokens(env: Env, texts: seq<Ranged>)
    ensures UnparseIs(HtmlText(env, texts)) == MarkupTokens(env, texts)
  {
    if texts != [] {
      HtmlTokens(env, texts[..|texts| - 1]);
      UnparseAppend(HtmlText(env, texts[..|texts| - 1]), LinksOf(env, texts[|texts| - 1]));
    }
  }

  lemma MarkupStep(f: Scanner, env: Env, es: seq<Ranged>, a: nat)
    requires IsScan(env, es, f) && a < |es| && (es[a].event.Text? || es[a].event.Html?)
    ensures Runs(f, a, Mode(Markup, 0), a + 1, Mode(Markup, 0), UnparseIs(LinksOf(env, es[a])))
  {
    OneStep(f, env, es, a, Mode(Markup, 0));
    LinksTokens(env, es[a].start, es[a].end, es[a].event.text);
  }

  lemma {:induction false} HtmlRuns(f: Scanner, env: Env, es: seq<Ranged>, a: nat, b: nat, texts: seq<Ranged>)
    requires IsScan(env, es, f) && Spans(es, a, b, texts) && AllRaw(texts)
    ensures Runs(f, a, Mode(Markup, 0), b, Mode(Markup, 0), MarkupTokens(env, texts))
    decreases |texts|
  {
    var m := Mode(Markup, 0);
    if texts == [] {
      Stays(f, a, m);
    } else {
      var before, e := texts[..|texts| - 1], texts[|texts| - 1];
      SpansButLast(es, a, b, texts);
      HtmlRuns(f, env, es, a, b - 1, before);
      MarkupStep(f, env, es, b - 1);
      Then(f, a, m, b - 1, m, b, m, MarkupTokens(env, before), UnparseIs(LinksOf(env, e)));
    }
  }

  // ---- Blocks ----

  /** A paragraph without tags is followed by an event that ends it. */
  predicate BrokenOff(es: seq<Ranged>, d: BlockD, end: nat) {
    d.ImplicitD? ==> end < |es| && InlineAction(es[end].event) == Stop && Breaks(es[end].event)
  }

  /** Enough levels for blocks at this depth. */
  predicate Ample(n: nat, depth: nat) { n + depth >= MAX_DEPTH + 2 }

  lemma ProseTokens(env: Env, open: Ranged, prose: seq<M.Inline>, close: Ranged, n: nat)
    requires Closes(open, close) && (open.event.tag.Paragraph? || open.event.tag.Heading?) && n > 0
    ensures UnparseB(M.Block(open.start, close.end, ProseElement(env, open, prose)), n)
         == InTags(env, open, UnparseIs(prose), close)
  {
  }

  lemma ProseRuns(f: Scanner, env: Env, es: seq<Ranged>, a: nat, b: nat, d: BlockD, depth: nat, n: nat)
    requires IsScan(env, es, f)
    requires WfB(d, depth) && d.ProseD? && Spans(es, a, b, EventsB(d)) && Ample(n, depth)
    ensures Runs(f, a, BLOCKS, b, BLOCKS, UnparseB(TreeB(env, d), n))
  {
    SpansBrackets(es, a, b, d.open, EventsIs(d.prose), d.close);
    var k := Inside(env, d.open, BLOCKS);
    InlinesRun(f, env, es, a + 1, b - 1, d.prose, depth + 1, k);
    ProseTokens(env, d.open, TreeIs(env, d.prose), d.close, n);
    Boxed(f, env, es, a, b, d.open.event.tag, UnparseIs(TreeIs(env, d.prose)), UnparseB(TreeB(env, d), n));
  }

  lemma ImplicitRuns(f: Scanner, env: Env, es: seq<Ranged>, a: nat, b: nat, d: BlockD, depth: nat, n: nat)
    requires IsScan(env, es, f)
    requires WfB(d, depth) && d.ImplicitD? && Spans(es, a, b, EventsB(d)) && BrokenOff(es, d, b) && Ample(n, depth)
    requires a < |es| && Flows(es[a].event) && OrderedSearch(env.links)
    ensures Runs(f, a, BLOCKS, b, BLOCKS, UnparseB(TreeB(env, d), n))
  {
    var m, inner := Mode(Loose, 0), TreeIs(env, d.prose);
    ProseIsEmptyIff(env, d.prose, depth + 1);
    OneStep(f, env, es, a, BLOCKS);
    InlinesRun(f, env, es, a, b, d.prose, depth + 1, m);
    OneStep(f, env, es, b, m);
    Then(f, a, BLOCKS, a, m, b, m, [Enter(Para)], UnparseIs(inner));
    Then(f, a, BLOCKS, b, m, b, BLOCKS, [Enter(Para)] + UnparseIs(inner), [Leave(Para)]);
  }

  lemma CodeInside(f: Scanner, env: Env, es: seq<Ranged>, a: nat, b: nat, texts: seq<Ranged>)
    requires IsScan(env, es, f) && Spans(es, a, b, texts) && AllText(texts)
    ensures Runs(f, a, Mode(Verbatim, 0), b, Mode(Verbatim, 0), UnparseLines(CodeLines(texts)))
  {
    CodeRuns(f, env, es, a, b, texts);
    CodeTokens(texts);
  }

  lemma HtmlInside(f: Scanner, env: Env, es: seq<Ranged>, a: nat, b: nat, texts: seq<Ranged>)
    requires IsScan(env, es, f) && Spans(es, a, b, texts) && AllRaw(texts)
    ensures Runs(f, a, Mode(Markup, 0), b, Mode(Markup, 0), UnparseIs(HtmlText(env, texts)))
  {
    HtmlRuns(f, env, es, a, b, texts);
    HtmlTokens(env, texts);
  }

  lemma CodeBoxed(f: Scanner, env: Env, es: seq<Ranged>, a: nat, b: nat, lines: seq<M.CodeLine>, n: nat)
    requires IsScan(env, es, f) && n > 0 && a + 1 < b <= |es| && Brackets(es[a], es[b - 1], CodeBlock)
    requires Runs(f, a + 1, Mode(Verbatim, 0), b - 1, Mode(Verbatim, 0), UnparseLines(lines))
    ensures Runs(f, a, BLOCKS, b, BLOCKS, UnparseB(M.Block(es[a].start, es[b - 1].end, M.CodeBlock(lines)), n))
  {
    Boxed(f, env, es, a, b, CodeBlock, UnparseLines(lines),
          UnparseB(M.Block(es[a].start, es[b - 1].end, M.CodeBlock(lines)), n));
  }

  lemma HtmlBoxed(f: Scanner, env: Env, es: seq<Ranged>, a: nat, b: nat, content: seq<M.Inline>, n: nat)
    requires IsScan(env, es, f) && n > 0 && a + 1 < b <= |es| && Brackets(es[a], es[b - 1], HtmlBlock)
    requires Runs(f, a + 1, Mode(Markup, 0), b - 1, Mode(Markup, 0), UnparseIs(content))
    ensures Runs(f, a, BLOCKS, b, BLOCKS, UnparseB(M.Block(es[a].start, es[b - 1].end, M.Paragraph(content)), n))
  {
    Boxed(f, env, es, a, b, HtmlBlock, UnparseIs(content),
          UnparseB(M.Block(es[a].start, es[b - 1].end, M.Paragraph(content)), n));
  }

  lemma RawBoxed(f: Scanner, env: Env, es: seq<Ranged>, a: nat, b: nat, texts: seq<Ranged>, n: nat)
    requires IsScan(env, es, f) && n > 0 && a + 1 < b <= |es| && Spans(es, a + 1, b - 1, texts)
    requires || (Brackets(es[a], es[b - 1], CodeBlock) && AllText(texts))
             || (Brackets(es[a], es[b - 1], HtmlBlock) && AllRaw(texts))
    ensures Runs(f, a, BLOCKS, b, BLOCKS, UnparseB(M.Block(es[a].start, es[b - 1].end, RawElement(env, es[a], texts)), n))
  {
    if es[a].event == Start(CodeBlock) {
      CodeInside(f, env, es, a + 1, b - 1, texts);
      CodeBoxed(f, env, es, a, b, CodeLines(texts), n);
    } else {
      HtmlInside(f, env, es, a + 1, b - 1, texts);
      HtmlBoxed(f, env, es, a, b, HtmlText(env, texts), n);
    }
  }

  lemma RawRuns(f: Scanner, env: Env, es: seq<Ranged>, a: nat, b: nat, d: BlockD, depth: nat, n: nat)
    requires IsScan(env, es, f)
    requires WfB(d, depth) && d.RawD? && Spans(es, a, b, EventsB(d)) && Ample(n, depth)
    ensures Runs(f, a, BLOCKS, b, BLOCKS, UnparseB(TreeB(env, d), n))
  {
    SpansBrackets(es, a, b, d.open, d.texts, d.close);
    RawBoxed(f, env, es, a, b, d.texts, n);
  }

  lemma RuleRuns(f: Scanner, env: Env, es: seq<Ranged>, a: nat, b: nat, d: BlockD, n: nat)
    requires IsScan(env, es, f)
    requires d.RuleD? && d.event.event == Rule && Spans(es, a, b, EventsB(d)) && n > 0
    ensures Runs(f, a, BLOCKS, b, BLOCKS, UnparseB(TreeB(env, d), n))
  {
    assert es[a..b][0] == es[a];
    OneStep(f, env, es, a, BLOCKS);
  }

  lemma {:induction false} QuoteRuns(f: Scanner, env: Env, es: seq<Ranged>, a: nat, b: nat, d: BlockD, depth: nat,
                                     n: nat)
    requires IsScan(env, es, f)
    requires WfB(d, depth) && d.QuoteD? && Spans(es, a, b, EventsB(d)) && Ample(n, depth) && OrderedSearch(env.links)
    ensures Runs(f, a, BLOCKS, b, BLOCKS, UnparseB(TreeB(env, d), n))
    decreases d, 0
  {
    SpansBrackets(es, a, b, d.open, EventsBs(d.blocks), d.close);
    BlocksRun(f, env, es, a + 1, b - 1, d.blocks, depth + 1, n - 1);
    Boxed(f, env, es, a, b, BlockQuote, UnparseBs(TreeBs(env, d.blocks), n - 1), UnparseB(TreeB(env, d), n));
  }

  lemma ListTokens(env: Env, open: Ranged, items: seq<seq<M.Block>>, close: Ranged, n: nat)
    requires Closes(open, close) && open.event.tag.List? && n > 0
    ensures UnparseB(M.Block(open.start, close.end, ListElement(open, items)), n)
         == InTags(env, open, UnparseItems(items, Entry, n - 1), close)
  {
    match open.event.tag.number
    case None =>
    case Some(first) => MovesOne(Open(Numbered, open.start), Number(first), UnparseItems(items, Entry, n - 1));
  }

  lemma {:induction false} ListRuns(f: Scanner, env: Env, es: seq<Ranged>, a: nat, b: nat, d: BlockD, depth: nat,
                                    n: nat)
    requires IsScan(env, es, f)
    requires WfB(d, depth) && d.ListD? && Spans(es, a, b, EventsB(d)) && Ample(n, depth) && OrderedSearch(env.links)
    ensures Runs(f, a, BLOCKS, b, BLOCKS, UnparseB(TreeB(env, d), n))
    decreases d, 0
  {
    SpansBrackets(es, a, b, d.open, EventsItems(d.items), d.close);
    EntriesRun(f, env, es, a + 1, b - 1, d.items, Item, depth + 1, n - 1);
    var items := TreeItems(env, d.items);
    ListTokens(env, d.open, items, d.close, n);
    Boxed(f, env, es, a, b, d.open.event.tag, UnparseItems(items, Entry, n - 1), UnparseB(TreeB(env, d), n));
  }

  lemma TableTokens(env: Env, open: Ranged, head: seq<seq<M.Block>>, rows: seq<seq<seq<M.Block>>>, close: Ranged,
                    n: nat)
    requires Brackets(open, close, Table) && n > 0
    ensures UnparseB(M.Block(open.start, close.end, M.Table(head, rows)), n)
         == InTags(env, open, UnparseRow(head, Header, n - 1) + UnparseRows(rows, n - 1), close)
  {
  }

  lemma {:induction false} TableRuns(f: Scanner, env: Env, es: seq<Ranged>, a: nat, b: nat, d: BlockD, depth: nat,
                                     n: nat)
    requires IsScan(env, es, f)
    requires WfB(d, depth) && d.TableD? && Spans(es, a, b, EventsB(d)) && Ample(n, depth) && OrderedSearch(env.links)
    ensures Runs(f, a, BLOCKS, b, BLOCKS, UnparseB(TreeB(env, d), n))
    decreases d, 0
  {
    var mid := TableParts(es, a, b, d);
    var head, rows := TreeItems(env, d.head.cells), TreeRows(env, d.rows);
    RowRuns(f, env, es, a + 1, mid, d.head, TableHead, depth + 2, n - 1);
    RowsRun(f, env, es, mid, b - 1, d.rows, depth + 2, n - 1);
    TableTokens(env, d.open, head, rows, d.close, n);
    TableBoxed(f, env, es, a, mid, b, UnparseRow(head, Header, n - 1), UnparseRows(rows, n - 1), UnparseB(TreeB(env, d), n));
  }

  lemma TableBoxed(f: Scanner, env: Env, es: seq<Ranged>, a: nat, mid: nat, b: nat, head: seq<Token>,
                   rows: seq<Token>, ts: seq<Token>)
    requires IsScan(env, es, f)
    requires a + 1 < b <= |es| && Brackets(es[a], es[b - 1], Table) && ts == InTags(env, es[a], head + rows, es[b - 1])
    requires Runs(f, a + 1, BLOCKS, mid, BLOCKS, head) && Runs(f, mid, BLOCKS, b - 1, BLOCKS, rows)
    ensures Runs(f, a, BLOCKS, b, BLOCKS, ts)
  {
    Then(f, a + 1, BLOCKS, mid, BLOCKS, b - 1, BLOCKS, head, rows);
    Boxed(f, env, es, a, b, Table, head + rows, ts);
  }

  lemma {:induction false} BlockRuns(f: Scanner, env: Env, es: seq<Ranged>, a: nat, b: nat, d: BlockD, depth: nat,
                                     n: nat)
    requires IsScan(env, es, f)
    requires WfB(d, depth) && Spans(es, a, b, EventsB(d)) && BrokenOff(es, d, b) && Ample(n, depth)
    requires OrderedSearch(env.links)
    ensures Runs(f, a, BLOCKS, b, BLOCKS, UnparseB(TreeB(env, d), n))
    decreases d, 1
  {
    match d
    case ProseD(_, _, _) => ProseRuns(f, env, es, a, b, d, depth, n);
    case ImplicitD(_) =>
      BlockStarts(es, a, b, d, depth);
      FlowsIff(es[a].event);
      ImplicitRuns(f, env, es, a, b, d, depth, n);
    case RawD(_, _, _) => RawRuns(f, env, es, a, b, d, depth, n);
    case RuleD(_) => RuleRuns(f, env, es, a, b, d, n);
    case QuoteD(_, _, _) => QuoteRuns(f, env, es, a, b, d, depth, n);
    case ListD(_, _, _) => ListRuns(f, env, es, a, b, d, depth, n);
    case TableD(_, _, _, _) => TableRuns(f, env, es, a, b, d, depth, n);
  }

  lemma BreaksAtBlock(d: BlockD, e: Event)
    requires FirstFits(d, e) && !d.ImplicitD?
    ensures Breaks(e)
  {
  }

  /** What follows a block: the next one, or what ends them all. */
  lemma AfterThis(es: seq<Ranged>, a: nat, b: nat, ds: seq<BlockD>, depth: nat)
    requires ds != [] && WfBs(ds, depth) && Spans(es, a, b, EventsBs(ds[1..]))
    requires |ds| == 1 ==> BrokenOff(es, ds[0], a)
    ensures BrokenOff(es, ds[0], a)
  {
    AfterBlock(es, a, b, ds, depth);
    if |ds| > 1 && ds[0].ImplicitD? {
      FirstOfBlock(ds[1], depth);
      assert ds[1..][0] == ds[1];
      assert es[a..b][0] == es[a];
      BreaksAtBlock(ds[1], es[a].event);
    }
  }

  predicate EndsBlocks(es: seq<Ranged>, ds: seq<BlockD>, end: nat) {
    (ds != [] ==> !ds[|ds| - 1].ImplicitD?) || (end < |es| && es[end].event.End? && !EndsInline(es[end].event.kind))
  }

  lemma {:induction false} BlocksRun(f: Scanner, env: Env, es: seq<Ranged>, a: nat, b: nat, ds: seq<BlockD>,
                                     depth: nat, n: nat)
    requires IsScan(env, es, f)
    requires WfBs(ds, depth) && Spans(es, a, b, EventsBs(ds)) && EndsBlocks(es, ds, b) && Ample(n, depth)
    requires OrderedSearch(env.links)
    ensures Runs(f, a, BLOCKS, b, BLOCKS, UnparseBs(TreeBs(env, ds), n))
    decreases ds, 2
  {
    if ds == [] {
      Stays(f, a, BLOCKS);
    } else {
      var mid := SpansSplit(es, a, b, EventsB(ds[0]), EventsBs(ds[1..]));
      AfterThis(es, mid, b, ds, depth);
      BlockRuns(f, env, es, a, mid, ds[0], depth, n);
      BlocksRun(f, env, es, mid, b, ds[1..], depth, n);
      var first, rest := TreeB(env, ds[0]), TreeBs(env, ds[1..]);
      Then(f, a, BLOCKS, mid, BLOCKS, b, BLOCKS, UnparseB(first, n), UnparseBs(rest, n));
      assert ([first] + rest)[1..] == rest;
    }
  }

  function ShapeOf(tag: Tag): (s: Shape) {
    match tag
    case Item => Entry
    case TableHead => Header
    case TableRow => Row
    case _ => Cell
  }

  lemma {:induction false} EntryRuns(f: Scanner, env: Env, es: seq<Ranged>, a: nat, b: nat, d: ItemD, tag: Tag,
                                    depth: nat, n: nat)
    requires IsScan(env, es, f)
    requires WfItem(d, tag, depth) && Spans(es, a, b, EventsItem(d)) && (tag == Item || tag == TableCell)
    requires Ample(n, depth + 1) && OrderedSearch(env.links)
    ensures Runs(f, a, BLOCKS, b, BLOCKS, UnparseItem(TreeBs(env, d.blocks), ShapeOf(tag), n))
    decreases d, 0
  {
    SpansBrackets(es, a, b, d.open, EventsBs(d.blocks), d.close);
    BlocksRun(f, env, es, a + 1, b - 1, d.blocks, depth + 1, n);
    var item := TreeBs(env, d.blocks);
    Boxed(f, env, es, a, b, tag, UnparseBs(item, n), UnparseItem(item, ShapeOf(tag), n));
  }

  lemma {:induction false} EntriesRun(f: Scanner, env: Env, es: seq<Ranged>, a: nat, b: nat, ds: seq<ItemD>, tag: Tag,
                                    depth: nat, n: nat)
    requires IsScan(env, es, f)
    requires WfItems(ds, tag, depth) && Spans(es, a, b, EventsItems(ds)) && (tag == Item || tag == TableCell)
    requires Ample(n, depth + 1) && OrderedSearch(env.links)
    ensures Runs(f, a, BLOCKS, b, BLOCKS, UnparseItems(TreeItems(env, ds), ShapeOf(tag), n))
    decreases ds, 2
  {
    if ds == [] {
      Stays(f, a, BLOCKS);
    } else {
      var mid := SpansSplit(es, a, b, EventsItem(ds[0]), EventsItems(ds[1..]));
      EntryRuns(f, env, es, a, mid, ds[0], tag, depth, n);
      EntriesRun(f, env, es, mid, b, ds[1..], tag, depth, n);
      var first, rest := TreeBs(env, ds[0].blocks), TreeItems(env, ds[1..]);
      Then(f, a, BLOCKS, mid, BLOCKS, b, BLOCKS,
           UnparseItem(first, ShapeOf(tag), n), UnparseItems(rest, ShapeOf(tag), n));
      assert ([first] + rest)[1..] == rest;
    }
  }

  lemma {:induction false} RowRuns(f: Scanner, env: Env, es: seq<Ranged>, a: nat, b: nat, d: RowD, tag: Tag,
                                   depth: nat, n: nat)
    requires IsScan(env, es, f)
    requires WfRow(d, tag, depth) && Spans(es, a, b, EventsRow(d)) && (tag == TableHead || tag == TableRow)
    requires Ample(n, depth + 1) && OrderedSearch(env.links)
    ensures Runs(f, a, BLOCKS, b, BLOCKS, UnparseRow(TreeItems(env, d.cells), ShapeOf(tag), n))
    decreases d, 0
  {
    SpansBrackets(es, a, b, d.open, EventsItems(d.cells), d.close);
    EntriesRun(f, env, es, a + 1, b - 1, d.cells, TableCell, depth, n);
    var cells := TreeItems(env, d.cells);
    Boxed(f, env, es, a, b, tag, UnparseItems(cells, Cell, n), UnparseRow(cells, ShapeOf(tag), n));
  }

  lemma {:induction false} RowsRun(f: Scanner, env: Env, es: seq<Ranged>, a: nat, b: nat, ds: seq<RowD>, depth: nat,
                                   n: nat)
    requires IsScan(env, es, f)
    requires WfRows(ds, depth) && Spans(es, a, b, EventsRows(ds)) && Ample(n, depth + 1) && OrderedSearch(env.links)
    ensures Runs(f, a, BLOCKS, b, BLOCKS, UnparseRows(TreeRows(env, ds), n))
    decreases ds, 2
  {
    if ds == [] {
      Stays(f, a, BLOCKS);
    } else {
      var mid := SpansSplit(es, a, b, EventsRow(ds[0]), EventsRows(ds[1..]));
      RowRuns(f, env, es, a, mid, ds[0], TableRow, depth, n);
      RowsRun(f, env, es, mid, b, ds[1..], depth, n);
      var first, rest := TreeItems(env, ds[0].cells), TreeRows(env, ds[1..]);
      Then(f, a, BLOCKS, mid, BLOCKS, b, BLOCKS, UnparseRow(first, Row, n), UnparseRows(rest, n));
      assert ([first] + rest)[1..] == rest;
    }
  }

  /** A block in tags ranges from its first event to its last. */
  lemma BlockRange(env: Env, d: BlockD, depth: nat)
    requires WfB(d, depth) && !d.ImplicitD?
    ensures var es, b := EventsB(d), TreeB(env, d); es != [] && b.start == es[0].start && b.end == es[|es| - 1].end
  {
    OpenerIsFirst(d);
  }

  /** One without tags ranges from its first element to its last. */
  lemma ImplicitRange(env: Env, d: BlockD, depth: nat)
    requires WfB(d, depth) && d.ImplicitD? && OrderedSearch(env.links)
    ensures var inner, b := TreeIs(env, d.prose), TreeB(env, d);
            inner != [] && b.start == inner[0].start && b.end == inner[|inner| - 1].end
  {
    ProseIsEmptyIff(env, d.prose, depth + 1);
  }

  // ---- Whole messages ----

  /** The tree, written out to any height that reaches its leaves, is the flat scan of its events. */
  lemma UnparseIsScan(env: Env, es: seq<Ranged>, v: seq<M.Block>, n: nat)
    requires MessageAt(env, es, 0) == Done(v, |es|) && OrderedSearch(env.links) && n > MAX_DEPTH
    ensures UnparseBs(v, n) == Scan(env, es, 0, BLOCKS)
  {
    MessageAcceptedIff(env, es, v);
    var ds :| Derives(env, es, ds, v);
    assert es[0..|es|] == es;
    var f := (pos: nat, mode: Mode) => if pos <= |es| then Scan(env, es, pos, mode) else [];
    BlocksRun(f, env, es, 0, |es|, ds, 1, n);
    assert f(|es|, BLOCKS) == [] && UnparseBs(v, n) + [] == UnparseBs(v, n);
  }
}
