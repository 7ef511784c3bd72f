/** Markdown trees as they are shown, and the splitting of text at the links found in it. */
module Markdown {
  import opened Prelude

  /** UTF-8 bytes; positions count bytes. */
  type Str = seq<nat>

  datatype Inline = Inline(start: nat, end: nat, element: InlineElement)

  datatype InlineElement =
    | Text(text: Str)
    | Code(text: Str)
    | Link(dest: Str, children: seq<Inline>)
    | Bold(children: seq<Inline>)
    | Italic(children: seq<Inline>)
    | Strikethrough(children: seq<Inline>)
    | Image(dest: Str)
    | TaskListMarker(checked: bool)

  datatype CodeLine = CodeLine(start: nat, end: nat, value: Str)

  datatype Block = Block(start: nat, end: nat, element: BlockElement)

  datatype BlockElement =
    | Paragraph(content: seq<Inline>)
    | Heading(content: seq<Inline>)
    | Quote(blocks: seq<Block>)
    | UnorderedList(items: seq<seq<Block>>)
    | OrderedList(first: nat, items: seq<seq<Block>>)
    | Table(head: seq<seq<Block>>, rows: seq<seq<seq<Block>>>)
    | HorizontalRule
    | CodeBlock(lines: seq<CodeLine>)

  // ---- Links in text ----

  datatype Match = Match(start: nat, end: nat)

  /** What the regular expression search promises: matches in order, disjoint and not empty. */
  predicate Ordered(ms: seq<Match>, from: nat, len: nat) {
    ms == [] || (from <= ms[0].start < ms[0].end <= len && Ordered(ms[1..], ms[0].end, len))
  }

  function LinkNode(start: nat, str: Str, m: Match): (e: Inline)
    requires m.start <= m.end <= |str|
  {
    var text := str[m.start..m.end];
    var (lo, hi) := (start + m.start, start + m.end);
    Inline(lo, hi, Link(text, [Inline(lo, hi, Text(text))]))
  }

  /** The text before a match, if there is any. */
  function Gap(start: nat, str: Str, last: nat, until: nat): (es: seq<Inline>)
    requires last <= until <= |str|
  {
    if until > last then [Inline(start + last, start + until, Text(str[last..until]))] else []
  }

  function Trailing(start: nat, end: nat, str: Str, last: nat): (es: seq<Inline>)
    requires last <= |str|
  {
    if last < |str| then [Inline(start + last, end, Text(str[last..]))] else []
  }

  function Split(start: nat, end: nat, str: Str, ms: seq<Match>, last: nat): (es: seq<Inline>)
    requires last <= |str| && Ordered(ms, last, |str|)
    decreases |ms|
  {
    if ms == [] then Trailing(start, end, str, last)
    else Gap(start, str, last, ms[0].start) + [LinkNode(start, str, ms[0])] + Split(start, end, str, ms[1..], ms[0].end)
  }

  method CollectLinks(start: nat, end: nat, str: Str, ms: seq<Match>, elements: seq<Inline>) returns (r: seq<Inline>)
    requires Ordered(ms, 0, |str|)
    ensures r == elements + Split(start, end, str, ms, 0)
  {
    r := elements;
    var last: nat := 0;
    for i := 0 to |ms|
      invariant last <= |str| && Ordered(ms[i..], last, |str|)
      invariant r + Split(start, end, str, ms[i..], last) == elements + Split(start, end, str, ms, 0)
    {
      var mat := ms[i];
      assert ms[i..][0] == mat && ms[i..][1..] == ms[i + 1..];
      ghost var rest := Split(start, end, str, ms[i + 1..], mat.end);
      ghost var before := r;
      if mat.start > last {
        r := r + [Inline(start + last, start + mat.start, Text(str[last..mat.start]))];
      }
      assert r == before + Gap(start, str, last, mat.start);
      r := r + [LinkNode(start, str, mat)];
      assert r + rest == before + (Gap(start, str, last, mat.start) + [LinkNode(start, str, mat)] + rest);
      last := mat.end;
    }
    if last < |str| {
      r := r + [Inline(start + last, end, Text(str[last..]))];
    }
  }

  /** The text an element of a split shows. */
  function Shown(e: Inline): (s: Str) {
    match e.element
    case Text(text) => text
    case Link(_, children) => if |children| == 1 && children[0].element.Text? then children[0].element.text else []
    case _ => []
  }

  function ShownAll(es: seq<Inline>): (s: Str) {
    if es == [] then [] else Shown(es[0]) + ShownAll(es[1..])
  }

  /** Elements side by side from `lo` to `hi`, with no gap and no overlap. */
  predicate Chained(es: seq<Inline>, lo: nat, hi: nat) {
    if es == [] then lo == hi else es[0].start == lo && Chained(es[1..], es[0].end, hi)
  }

  lemma {:induction false} ShownAppend(a: seq<Inline>, b: seq<Inline>)
    ensures ShownAll(a + b) == ShownAll(a) + ShownAll(b)
  {
    if a == [] {
      assert a + b == b;
    } else {
      assert (a + b)[1..] == a[1..] + b;
      ShownAppend(a[1..], b);
    }
  }

  lemma {:induction false} ChainedAppend(a: seq<Inline>, b: seq<Inline>, lo: nat, mid: nat, hi: nat)
    requires Chained(a, lo, mid) && Chained(b, mid, hi)
    ensures Chained(a + b, lo, hi)
  {
    if a == [] {
      assert a + b == b;
    } else {
      assert (a + b)[1..] == a[1..] + b;
      ChainedAppend(a[1..], b, a[0].end, mid, hi);
    }
  }

  /** Nothing of the text is lost, doubled or reordered. */
  lemma {:induction false} SplitShowsText(start: nat, end: nat, str: Str, ms: seq<Match>, last: nat)
    requires last <= |str| && Ordered(ms, last, |str|)
    ensures ShownAll(Split(start, end, str, ms, last)) == str[last..]
    decreases |ms|
  {
    if ms != [] {
      var gap, link := Gap(start, str, last, ms[0].start), LinkNode(start, str, ms[0]);
      var rest := Split(start, end, str, ms[1..], ms[0].end);
      SplitShowsText(start, end, str, ms[1..], ms[0].end);
      ShownAppend(gap + [link], rest);
      ShownAppend(gap, [link]);
      PieceShows(start, str, last, ms[0]);
      ThreeSlices(str, last, ms[0].start, ms[0].end);
    }
  }

  lemma PieceShows(start: nat, str: Str, last: nat, m: Match)
    requires last <= m.start <= m.end <= |str|
    ensures ShownAll(Gap(start, str, last, m.start)) == str[last..m.start]
    ensures ShownAll([LinkNode(start, str, m)]) == str[m.start..m.end]
  {
  }

  lemma ThreeSlices(str: Str, a: nat, b: nat, c: nat)
    requires a <= b <= c <= |str|
    ensures str[a..] == str[a..b] + str[b..c] + str[c..]
  {
  }

  /** Where the last piece ends: at `end` if it is text, else with the last link. */
  function SplitEnd(start: nat, end: nat, str: Str, ms: seq<Match>, last: nat): (hi: nat) {
    var tail := if ms == [] then last else ms[|ms| - 1].end;
    if tail < |str| then end else start + tail
  }

  lemma {:induction false} SplitChains(start: nat, end: nat, str: Str, ms: seq<Match>, last: nat)
    requires last <= |str| && Ordered(ms, last, |str|)
    ensures Chained(Split(start, end, str, ms, last), start + last, SplitEnd(start, end, str, ms, last))
    decreases |ms|
  {
    if ms != [] {
      var gap, link := Gap(start, str, last, ms[0].start), LinkNode(start, str, ms[0]);
      SplitChains(start, end, str, ms[1..], ms[0].end);
      assert Chained(gap, start + last, start + ms[0].start);
      ChainedAppend(gap, [link], start + last, start + ms[0].start, start + ms[0].end);
      ChainedAppend(gap + [link], Split(start, end, str, ms[1..], ms[0].end), start + last, start + ms[0].end,
                    SplitEnd(start, end, str, ms, last));
    }
  }

  lemma {:induction false} LastMatchInRange(ms: seq<Match>, from: nat, len: nat)
    requires ms != [] && Ordered(ms, from, len)
    ensures ms[|ms| - 1].end <= len
  {
    if |ms| > 1 { LastMatchInRange(ms[1..], ms[0].end, len); }
  }

  /** Splitting tiles the text; when the event spans as many bytes as its text, it tiles `[start, end)`. */
  lemma SplitTiles(start: nat, end: nat, str: Str, ms: seq<Match>)
    requires Ordered(ms, 0, |str|)
    ensures ShownAll(Split(start, end, str, ms, 0)) == str
    ensures Chained(Split(start, end, str, ms, 0), start, SplitEnd(start, end, str, ms, 0))
    ensures end == start + |str| ==> SplitEnd(start, end, str, ms, 0) == end
  {
    SplitShowsText(start, end, str, ms, 0);
    assert str[0..] == str;
    SplitChains(start, end, str, ms, 0);
    if ms != [] { LastMatchInRange(ms, 0, |str|); }
  }

  /** Then every piece also spans as many bytes as it shows. */
  lemma {:induction false} SplitSpans(start: nat, end: nat, str: Str, ms: seq<Match>, last: nat)
    requires last <= |str| && Ordered(ms, last, |str|) && end == start + |str|
    ensures forall e | e in Split(start, end, str, ms, last) :: e.end == e.start + |Shown(e)|
    decreases |ms|
  {
    if ms != [] { SplitSpans(start, end, str, ms[1..], ms[0].end); }
  }

  lemma SplitIsEmptyIff(start: nat, end: nat, str: Str, ms: seq<Match>)
    requires Ordered(ms, 0, |str|)
    ensures Split(start, end, str, ms, 0) == [] <==> str == []
  {
    SplitShowsText(start, end, str, ms, 0);
    assert str[0..] == str;
    if str == [] { assert ms == []; }
  }

  // ---- Every match is a link ----

  datatype Found = Found(start: nat, end: nat, dest: Str, shown: Str)

  /** The links among the elements: their ranges, targets and texts. */
  function LinksIn(es: seq<Inline>): (fs: seq<Found>) {
    if es == [] then []
    else
      var rest := LinksIn(es[1..]);
      match es[0].element
      case Link(dest, _) => [Found(es[0].start, es[0].end, dest, Shown(es[0]))] + rest
      case _ => rest
  }

  /** What the search found, at the place where the text starts. */
  function Matched(start: nat, str: Str, ms: seq<Match>, last: nat): (fs: seq<Found>)
    requires Ordered(ms, last, |str|)
  {
    if ms == [] then []
    else
      var text := str[ms[0].start..ms[0].end];
      [Found(start + ms[0].start, start + ms[0].end, text, text)] + Matched(start, str, ms[1..], ms[0].end)
  }

  lemma {:induction false} LinksAppend(a: seq<Inline>, b: seq<Inline>)
    ensures LinksIn(a + b) == LinksIn(a) + LinksIn(b)
  {
    if a == [] {
      assert a + b == b;
    } else {
      assert (a + b)[1..] == a[1..] + b;
      LinksAppend(a[1..], b);
    }
  }

  lemma {:induction false} FirstLink(start: nat, str: Str, m: Match, last: nat, whole: seq<Inline>, rest: seq<Inline>)
    requires last <= m.start <= m.end <= |str|
    requires whole == Gap(start, str, last, m.start) + [LinkNode(start, str, m)] + rest
    ensures var text := str[m.start..m.end];
            LinksIn(whole) == [Found(start + m.start, start + m.end, text, text)] + LinksIn(rest)
  {
    var gap, link := Gap(start, str, last, m.start), LinkNode(start, str, m);
    LinksAppend(gap + [link], rest);
    LinksAppend(gap, [link]);
    assert LinksIn(gap) == [];
    assert [link][1..] == [];
  }

  /** Every match becomes a link to the matched text, and nothing else does. */
  lemma {:induction false} MatchesAreLinks(start: nat, end: nat, str: Str, ms: seq<Match>, last: nat)
    requires last <= |str| && Ordered(ms, last, |str|)
    ensures LinksIn(Split(start, end, str, ms, last)) == Matched(start, str, ms, last)
    decreases |ms|
  {
    if ms != [] {
      MatchesAreLinks(start, end, str, ms[1..], ms[0].end);
      FirstLink(start, str, ms[0], last, Split(start, end, str, ms, last), Split(start, end, str, ms[1..], ms[0].end));
    }
  }
}
