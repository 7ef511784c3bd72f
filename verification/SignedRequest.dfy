/**
 A signed request keeps the exact bytes of its payload field as they stood on the wire. The scan that
 extracts them is proved against the wire-format grammar: it succeeds on exactly the well-formed
 buffers that carry the field at most once, and then decoders that take the last occurrence or merge
 them all read the same bytes.
 */
module SignedRequest {
  import opened Prelude
  import opened ProtoEncoding
  import opened ProtoWire

  datatype Error = Malformed | DuplicatePayload | MissingPayload

  type Extracted = Result<Option<seq<byte>>, Error>

  /** The content of a length-delimited value: its last `len` bytes. */
  function StripPrefix(span: seq<byte>): (r: Option<seq<byte>>) {
    match VarintEnd(span, 0, 0)
    case None => None
    case Some(n) => Some(span[SaturatingSub(|span|, ValueAt(span, 0, n))..])
  }

  function ContentOf(wire: nat, span: seq<byte>): (r: Option<seq<byte>>) {
    if wire == 2 then StripPrefix(span) else Some(span)
  }

  /** One field of the buffer: its tag, the content of its value, and where it ends. */
  datatype Item = Item(tag: nat, content: Option<seq<byte>>, end: nat)

  function ItemAt(b: seq<byte>, pos: nat): (r: Option<Item>)
    requires pos <= |b|
    ensures r.Some? ==> pos < r.value.end <= |b|
  {
    match (ReadKey(b, pos), FieldAt(b, pos, RECURSION_LIMIT))
    case (KeyRead(key, start), FieldRead(end)) =>
      KeyPrecedesValue(b, pos, RECURSION_LIMIT);
      Some(Item(key.tag, ContentOf(key.wire, b[start..end]), end))
    case _ => None
  }

  lemma KeyPrecedesValue(b: seq<byte>, pos: nat, depth: nat)
    requires pos <= |b| && FieldAt(b, pos, depth).FieldRead?
    ensures ReadKey(b, pos).KeyRead? && ReadKey(b, pos).end <= FieldAt(b, pos, depth).end
  {
  }

  /** A field is its key and then its value; an end-group key is not skipped at the top level. */
  lemma FieldIsKeyAndValue(b: seq<byte>, pos: nat)
    requires pos <= |b|
    ensures match ReadKey(b, pos)
            case NoKey => !FieldAt(b, pos, RECURSION_LIMIT).FieldRead?
            case KeyRead(key, start) =>
              match SkipEnd(key, b, start, RECURSION_LIMIT)
              case None => !FieldAt(b, pos, RECURSION_LIMIT).FieldRead?
              case Some(end) => FieldAt(b, pos, RECURSION_LIMIT) == FieldRead(end)
  {
  }

  /** The scan from `pos` on, with what was found before. */
  function ExtractFrom(b: seq<byte>, pos: nat, tag: nat, found: Option<seq<byte>>): (r: Extracted)
    requires pos <= |b|
    decreases |b| - pos
  {
    if pos == |b| then Ok(found)
    else
      match ItemAt(b, pos)
      case None => Err(Malformed)
      case Some(item) =>
        if item.tag != tag then ExtractFrom(b, item.end, tag, found)
        else if found.Some? then Err(DuplicatePayload)
        else if item.content.None? then Err(Malformed)
        else ExtractFrom(b, item.end, tag, item.content)
  }

  function Extract(b: seq<byte>, tag: nat): (r: Extracted) { ExtractFrom(b, 0, tag, None) }

  method ExtractField(raw: seq<byte>, tag: nat) returns (r: Extracted)
    ensures r == Extract(raw, tag)
    ensures forall x :: r == Ok(x) <==> exists fs :: Parses(raw, fs) && Contents(fs, tag) == Known(x)
    ensures forall xs | AllEncodable(xs, RECURSION_LIMIT) && EncodeAll(xs) == raw :: r == Outcome(Payloads(xs, tag))
  {
    forall x ensures Extract(raw, tag) == Ok(x) <==> exists fs :: Parses(raw, fs) && Contents(fs, tag) == Known(x) {
      ExtractExact(raw, tag, x);
    }
    forall xs | AllEncodable(xs, RECURSION_LIMIT) && EncodeAll(xs) == raw
      ensures Extract(raw, tag) == Outcome(Payloads(xs, tag))
    {
      ExtractEncoded(xs, tag);
    }
    var cur, found := 0, None;
    while cur < |raw|
      invariant cur <= |raw|
      invariant ExtractFrom(raw, cur, tag, found) == Extract(raw, tag)
      decreases |raw| - cur
    {
      FieldIsKeyAndValue(raw, cur);
      var key := ReadKey(raw, cur);
      if key.NoKey? { return Err(Malformed); }
      var valueStart := key.end;
      var end := SkipEnd(key.key, raw, valueStart, RECURSION_LIMIT);
      if end.None? { return Err(Malformed); }
      cur := end.value;
      if key.key.tag != tag { continue; }
      if found.Some? { return Err(DuplicatePayload); }
      found := ContentOf(key.key.wire, raw[valueStart..cur]);
      if found.None? { return Err(Malformed); }
    }
    return Ok(found);
  }

  // ---- What the scan means ----

  function Content(v: Value): (b: seq<byte>) {
    match v
    case Bytes(_, content) => content
    case _ => Print(v)
  }

  /** The contents of the fields with a tag, in order. */
  function Contents(fs: seq<Field>, tag: nat): (cs: seq<seq<byte>>) {
    if fs == [] then []
    else (if fs[0].key.tag == tag then [Content(fs[0].value)] else []) + Contents(fs[1..], tag)
  }

  function Outcome(cs: seq<seq<byte>>): (r: Extracted) {
    if |cs| == 0 then Ok(None)
    else if |cs| == 1 then Ok(Some(cs[0]))
    else Err(DuplicatePayload)
  }

  function Known(found: Option<seq<byte>>): (cs: seq<seq<byte>>) {
    match found
    case None => []
    case Some(c) => [c]
  }

  lemma StripsItsPrefix(prefix: seq<byte>, content: seq<byte>)
    requires IsVarint(prefix) && VarintValue(prefix) == |content|
    ensures StripPrefix(prefix + content) == Some(content)
  {
    var span := prefix + content;
    assert Spans(span, 0, |prefix|, prefix);
    VarintFound(span, 0, |prefix|, prefix);
    assert span[|span| - |content|..] == content;
  }

  lemma ContentIsExtracted(v: Value, key: Key)
    requires WellFormed(v, key, RECURSION_LIMIT)
    ensures ContentOf(key.wire, Print(v)) == Some(Content(v))
  {
    if v.Bytes? { StripsItsPrefix(v.prefix, v.content); }
  }

  lemma ItemPrinted(b: seq<byte>, pos: nat, end: nat, f: Field)
    requires Spans(b, pos, end, PrintField(f)) && WellFormedField(f, RECURSION_LIMIT)
    ensures ItemAt(b, pos) == Some(Item(f.key.tag, Some(Content(f.value)), end))
  {
    var start := KeyPrinted(b, pos, end, f, RECURSION_LIMIT);
    FieldAccepts(b, pos, end, f, RECURSION_LIMIT);
    ContentIsExtracted(f.value, f.key);
  }

  lemma ExtractStep(b: seq<byte>, pos: nat, tag: nat, found: Option<seq<byte>>, item: Item, content: seq<byte>)
    requires pos < |b| && ItemAt(b, pos) == Some(item) && item.content == Some(content)
    ensures ExtractFrom(b, pos, tag, found) ==
            if item.tag != tag then ExtractFrom(b, item.end, tag, found)
            else if found.Some? then Err(DuplicatePayload)
            else ExtractFrom(b, item.end, tag, Some(content))
  {
  }

  lemma {:induction false} ScanPrinted(b: seq<byte>, pos: nat, fs: seq<Field>, tag: nat, found: Option<seq<byte>>)
    requires Spans(b, pos, |b|, PrintAll(fs)) && WellFormedAll(fs, RECURSION_LIMIT)
    ensures ExtractFrom(b, pos, tag, found) == Outcome(Known(found) + Contents(fs, tag))
    decreases fs
  {
    if fs == [] {
      assert Known(found) + Contents(fs, tag) == Known(found);
    } else {
      var f, rest := fs[0], fs[1..];
      var end := SpansSplit(b, pos, |b|, PrintField(f), PrintAll(rest));
      ItemPrinted(b, pos, end, f);
      ExtractStep(b, pos, tag, found, Item(f.key.tag, Some(Content(f.value)), end), Content(f.value));
      OutcomeStep(fs, tag, found);
      if f.key.tag != tag {
        ScanPrinted(b, end, rest, tag, found);
      } else if found.None? {
        ScanPrinted(b, end, rest, tag, Some(Content(f.value)));
      }
    }
  }

  lemma OutcomeStep(fs: seq<Field>, tag: nat, found: Option<seq<byte>>)
    requires fs != []
    ensures Outcome(Known(found) + Contents(fs, tag)) ==
            if fs[0].key.tag != tag then Outcome(Known(found) + Contents(fs[1..], tag))
            else if found.Some? then Err(DuplicatePayload)
            else Outcome(Known(Some(Content(fs[0].value))) + Contents(fs[1..], tag))
  {
    if fs[0].key.tag != tag {
      assert Contents(fs, tag) == Contents(fs[1..], tag);
    } else if found.None? {
      assert Known(found) + Contents(fs, tag) == Known(Some(Content(fs[0].value))) + Contents(fs[1..], tag);
    }
  }

  lemma ItemReads(b: seq<byte>, pos: nat) returns (f: Field)
    requires pos <= |b| && ItemAt(b, pos).Some?
    ensures WellFormedField(f, RECURSION_LIMIT) && Spans(b, pos, ItemAt(b, pos).value.end, PrintField(f))
  {
    f := FieldReads(b, pos, RECURSION_LIMIT, ItemAt(b, pos).value.end);
  }

  lemma {:induction false} ScanReads(b: seq<byte>, pos: nat, tag: nat, found: Option<seq<byte>>)
    returns (fs: seq<Field>)
    requires pos <= |b| && ExtractFrom(b, pos, tag, found).Ok?
    ensures WellFormedAll(fs, RECURSION_LIMIT) && Spans(b, pos, |b|, PrintAll(fs))
    decreases |b| - pos
  {
    if pos == |b| {
      fs := [];
    } else {
      var item := ItemAt(b, pos).value;
      var f := ItemReads(b, pos);
      var rest := ScanReads(b, item.end, tag, if item.tag == tag then item.content else found);
      fs := [f] + rest;
      ConsFields(f, rest, [], RECURSION_LIMIT);
      SpansJoin(b, pos, item.end, |b|, PrintField(f), PrintAll(rest));
      assert PrintAll(fs) + [] == PrintAll(fs) && PrintAll(rest) + [] == PrintAll(rest);
    }
  }

  /** On a well-formed buffer: nothing, the one content, or the duplicate error. */
  lemma ExtractPrinted(fs: seq<Field>, tag: nat)
    requires WellFormedAll(fs, RECURSION_LIMIT)
    ensures Extract(PrintAll(fs), tag) == Outcome(Contents(fs, tag))
  {
    var b := PrintAll(fs);
    assert Spans(b, 0, |b|, b);
    ScanPrinted(b, 0, fs, tag, None);
    assert Known(None) + Contents(fs, tag) == Contents(fs, tag);
  }

  predicate Parses(raw: seq<byte>, fs: seq<Field>) {
    WellFormedAll(fs, RECURSION_LIMIT) && PrintAll(fs) == raw
  }

  /** Extraction succeeds with `x` exactly when the buffer is well formed and `x` is all it carries under the tag. */
  lemma ExtractExact(raw: seq<byte>, tag: nat, x: Option<seq<byte>>)
    ensures Extract(raw, tag) == Ok(x) <==> exists fs :: Parses(raw, fs) && Contents(fs, tag) == Known(x)
  {
    if Extract(raw, tag) == Ok(x) {
      var fs := ScanReads(raw, 0, tag, None);
      assert raw[0..|raw|] == raw;
      assert Parses(raw, fs);
      ExtractPrinted(fs, tag);
      var cs := Contents(fs, tag);
      assert cs == Known(x) by { assert |cs| == 1 ==> cs == [cs[0]]; }
    }
    if fs :| Parses(raw, fs) && Contents(fs, tag) == Known(x) {
      ExtractPrinted(fs, tag);
    }
  }

  // ---- The scan reads what was encoded ----

  lemma {:induction false} ContentsArePayloads(xs: seq<Node>, tag: nat)
    requires AllEncodable(xs, RECURSION_LIMIT)
    ensures Contents(ToFields(xs), tag) == Payloads(xs, tag)
    decreases xs
  {
    if xs != [] {
      ContentsArePayloads(xs[1..], tag);
      ValuePrints(xs[0], RECURSION_LIMIT);
      var fs := ToFields(xs);
      assert fs[0] == ToField(xs[0]) && fs[1..] == ToFields(xs[1..]);
    }
  }

  /** Nothing, the one payload, or the duplicate error, as the tag was encoded zero, one or more times. */
  lemma ExtractEncoded(xs: seq<Node>, tag: nat)
    requires AllEncodable(xs, RECURSION_LIMIT)
    ensures var ps := Payloads(xs, tag);
            Extract(EncodeAll(xs), tag) ==
            if |ps| == 0 then Ok(None) else if |ps| == 1 then Ok(Some(ps[0])) else Err(DuplicatePayload)
  {
    FieldsPrint(xs, RECURSION_LIMIT);
    ContentsArePayloads(xs, tag);
    ExtractPrinted(ToFields(xs), tag);
  }

  /** A payload of any length, among any other fields, is returned byte for byte. */
  lemma ExtractsThePayload(before: seq<Node>, content: seq<byte>, after: seq<Node>, tag: nat)
    requires AllEncodable(before + [Blob(tag, content)] + after, RECURSION_LIMIT)
    requires (forall i | 0 <= i < |before| :: before[i].tag != tag) && forall i | 0 <= i < |after| :: after[i].tag != tag
    ensures Extract(EncodeAll(before + [Blob(tag, content)] + after), tag) == Ok(Some(content))
  {
    ExtractEncoded(before + [Blob(tag, content)] + after, tag);
    PayloadsAppend(before + [Blob(tag, content)], after, tag);
    PayloadsAppend(before, [Blob(tag, content)], tag);
    NoPayloads(before, tag);
    NoPayloads(after, tag);
    assert Payloads([Blob(tag, content)], tag) == [content] by { assert [Blob(tag, content)][1..] == []; }
  }

  /** A hundred nested groups are skipped, a hundred and one are refused. */
  lemma NestingIsAcceptedIff(tag: nat, other: nat, k: nat)
    requires ValidTag(tag) && other != tag
    ensures Extract(EncodeNode(Nested(tag, k)), other).Ok? <==> k < 100
  {
    var xs, b := [Nested(tag, k)], EncodeNode(Nested(tag, k));
    EncodeOne(Nested(tag, k));
    NestedEncodableIff(tag, k, RECURSION_LIMIT);
    if k < 100 {
      ExtractEncoded(xs, other);
      NoPayloads(xs, other);
    } else {
      TooDeep(b, 0, |b|, tag, k, RECURSION_LIMIT);
      EncodedShape(8 * tag + 3);
    }
  }

  // ---- What the inner decoder reads ----

  /** A decoder that keeps the last occurrence of a field. */
  function LastFrom(b: seq<byte>, pos: nat, tag: nat, found: Option<seq<byte>>): (r: Extracted)
    requires pos <= |b|
    decreases |b| - pos
  {
    if pos == |b| then Ok(found)
    else
      match ItemAt(b, pos)
      case None => Err(Malformed)
      case Some(item) =>
        if item.tag != tag then LastFrom(b, item.end, tag, found)
        else if item.content.None? then Err(Malformed)
        else LastFrom(b, item.end, tag, item.content)
  }

  /** A decoder that merges all occurrences, as for an embedded message. */
  function MergedFrom(b: seq<byte>, pos: nat, tag: nat, found: Option<seq<byte>>): (r: Extracted)
    requires pos <= |b|
    decreases |b| - pos
  {
    if pos == |b| then Ok(found)
    else
      match ItemAt(b, pos)
      case None => Err(Malformed)
      case Some(item) =>
        if item.tag != tag then MergedFrom(b, item.end, tag, found)
        else if item.content.None? then Err(Malformed)
        else MergedFrom(b, item.end, tag, Some((if found.Some? then found.value else []) + item.content.value))
  }

  lemma {:induction false} DecodersAgree(b: seq<byte>, pos: nat, tag: nat, found: Option<seq<byte>>)
    requires pos <= |b| && ExtractFrom(b, pos, tag, found).Ok?
    ensures LastFrom(b, pos, tag, found) == ExtractFrom(b, pos, tag, found) == MergedFrom(b, pos, tag, found)
    decreases |b| - pos
  {
    if pos < |b| {
      var item := ItemAt(b, pos).value;
      if item.tag != tag {
        DecodersAgree(b, item.end, tag, found);
      } else {
        assert [] + item.content.value == item.content.value;
        DecodersAgree(b, item.end, tag, item.content);
      }
    }
  }

  /** Wherever extraction succeeds, both decoders read exactly the captured bytes. */
  lemma DecoderReadsCaptured(raw: seq<byte>, tag: nat)
    requires Extract(raw, tag).Ok?
    ensures LastFrom(raw, 0, tag, None) == Extract(raw, tag) == MergedFrom(raw, 0, tag, None)
  {
    DecodersAgree(raw, 0, tag, None);
  }

  // ---- The request ----

  /** What one merge does to the payload held so far, and its error if any. */
  datatype Captured = Captured(payload: Option<seq<byte>>, error: Option<Error>)

  function Capture(held: Option<seq<byte>>, raw: seq<byte>, tag: nat): (c: Captured) {
    match Extract(raw, tag)
    case Err(e) => Captured(held, Some(e))
    case Ok(None) => Captured(held, None)
    case Ok(Some(p)) => if held.Some? then Captured(held, Some(DuplicatePayload)) else Captured(Some(p), None)
  }

  /** The wrapper around a request message `R`; what merging does to the message itself is a parameter. */
  class SignedRequest<R> {
    const tag: nat
    var request: R
    var payload: Option<seq<byte>>

    constructor (request: R, tag: nat)
      ensures this.request == request && this.tag == tag && payload == None
    {
      this.request, this.tag, payload := request, tag, None;
    }

    /** A request built on this side, with the payload that was signed. */
    constructor New(request: R, payload: seq<byte>, tag: nat)
      ensures this.request == request && this.tag == tag && this.payload == Some(payload)
    {
      this.request, this.tag, this.payload := request, tag, Some(payload);
    }

    /** `after` and `inner` are the message after its own merge and that merge's outcome. */
    method Merge(raw: seq<byte>, after: R, inner: Option<Error>) returns (error: Option<Error>)
      modifies this
      ensures payload == Capture(old(payload), raw, tag).payload
      ensures Capture(old(payload), raw, tag).error.Some? ==>
                error == Capture(old(payload), raw, tag).error && request == old(request)
      ensures Capture(old(payload), raw, tag).error.None? ==> error == inner && request == after
    {
      var extracted := ExtractField(raw, tag);
      if extracted.Err? { return Some(extracted.error); }
      if extracted.value.Some? {
        if payload.Some? { return Some(DuplicatePayload); }
        payload := extracted.value;
      }
      request := after;
      return inner;
    }

    method Clear(empty: R)
      modifies this
      ensures payload == None && request == empty
    {
      request, payload := empty, None;
    }

    method UnsignedPayload() returns (r: Result<seq<byte>, Error>)
      ensures r.Ok? <==> payload.Some?
      ensures r == if payload.Some? then Ok(payload.value) else Err(MissingPayload)
    {
      if payload.None? { return Err(MissingPayload); }
      return Ok(payload.value);
    }
  }

  // ---- Runs of merges ----

  /** The payload after merging buffers one after another, or the first error. */
  function Captures(raws: seq<seq<byte>>, tag: nat, held: Option<seq<byte>>): (r: Extracted) {
    if raws == [] then Ok(held)
    else
      var c := Capture(held, raws[0], tag);
      if c.error.Some? then Err(c.error.value) else Captures(raws[1..], tag, c.payload)
  }

  function Concat(raws: seq<seq<byte>>): (b: seq<byte>) {
    if raws == [] then [] else raws[0] + Concat(raws[1..])
  }

  function Flatten(fss: seq<seq<Field>>): (fs: seq<Field>) {
    if fss == [] then [] else fss[0] + Flatten(fss[1..])
  }

  predicate ParsesAll(raws: seq<seq<byte>>, fss: seq<seq<Field>>) {
    |raws| == |fss| && forall i | 0 <= i < |raws| :: Parses(raws[i], fss[i])
  }

  lemma {:induction false} AppendFields(fs: seq<Field>, gs: seq<Field>, depth: nat)
    requires WellFormedAll(fs, depth) && WellFormedAll(gs, depth)
    ensures WellFormedAll(fs + gs, depth) && PrintAll(fs + gs) == PrintAll(fs) + PrintAll(gs)
  {
    if fs == [] {
      assert fs + gs == gs;
    } else {
      AppendFields(fs[1..], gs, depth);
      assert fs + gs == [fs[0]] + (fs[1..] + gs);
      ConsFields(fs[0], fs[1..] + gs, [], depth);
      assert PrintAll(fs + gs) == PrintField(fs[0]) + PrintAll(fs[1..] + gs);
    }
  }

  lemma {:induction false} AppendContents(fs: seq<Field>, gs: seq<Field>, tag: nat)
    ensures Contents(fs + gs, tag) == Contents(fs, tag) + Contents(gs, tag)
  {
    if fs == [] {
      assert fs + gs == gs;
    } else {
      assert (fs + gs)[1..] == fs[1..] + gs;
      AppendContents(fs[1..], gs, tag);
    }
  }

  lemma {:induction false} FlattenParses(raws: seq<seq<byte>>, fss: seq<seq<Field>>)
    requires ParsesAll(raws, fss)
    ensures Parses(Concat(raws), Flatten(fss))
  {
    if raws != [] {
      assert Parses(raws[0], fss[0]);
      assert ParsesAll(raws[1..], fss[1..]);
      FlattenParses(raws[1..], fss[1..]);
      AppendFields(fss[0], Flatten(fss[1..]), RECURSION_LIMIT);
    }
  }

  lemma {:induction false} CapturesContents(raws: seq<seq<byte>>, fss: seq<seq<Field>>, tag: nat,
                                            held: Option<seq<byte>>)
    requires ParsesAll(raws, fss)
    ensures Captures(raws, tag, held) == Outcome(Known(held) + Contents(Flatten(fss), tag))
  {
    if raws == [] {
      assert Known(held) + Contents(Flatten(fss), tag) == Known(held);
    } else {
      assert Parses(raws[0], fss[0]);
      assert ParsesAll(raws[1..], fss[1..]);
      AppendContents(fss[0], Flatten(fss[1..]), tag);
      ExtractPrinted(fss[0], tag);
      CaptureStep(held, Contents(fss[0], tag), Contents(Flatten(fss[1..]), tag));
      var c := Capture(held, raws[0], tag);
      CapturesContents(raws[1..], fss[1..], tag, c.payload);
    }
  }

  lemma CaptureStep(held: Option<seq<byte>>, now: seq<seq<byte>>, later: seq<seq<byte>>)
    ensures var all := Outcome(Known(held) + (now + later));
            if |now| == 0 then all == Outcome(Known(held) + later)
            else if |now| > 1 || held.Some? then all == Err(DuplicatePayload)
            else all == Outcome(Known(Some(now[0])) + later)
  {
    if |now| == 0 {
      assert now + later == later;
    } else if |now| == 1 && held.None? {
      assert Known(held) + (now + later) == Known(Some(now[0])) + later;
    }
  }

  /** Merging well-formed buffers one by one captures what one scan of their concatenation would. */
  lemma MergesActAsOne(raws: seq<seq<byte>>, fss: seq<seq<Field>>, tag: nat)
    requires ParsesAll(raws, fss)
    ensures Captures(raws, tag, None) == Extract(Concat(raws), tag)
  {
    FlattenParses(raws, fss);
    CapturesContents(raws, fss, tag, None);
    ExtractPrinted(Flatten(fss), tag);
    assert Known(None) + Contents(Flatten(fss), tag) == Contents(Flatten(fss), tag);
  }

  lemma {:induction false} CapturedBuffersParse(raws: seq<seq<byte>>, tag: nat, held: Option<seq<byte>>)
    returns (fss: seq<seq<Field>>)
    requires Captures(raws, tag, held).Ok?
    ensures ParsesAll(raws, fss)
  {
    if raws == [] {
      fss := [];
    } else {
      var fs := ScanReads(raws[0], 0, tag, None);
      assert raws[0][0..] == raws[0];
      var rest := CapturedBuffersParse(raws[1..], tag, Capture(held, raws[0], tag).payload);
      fss := [fs] + rest;
      assert forall i | 0 < i < |raws| :: raws[i] == raws[1..][i - 1] && fss[i] == rest[i - 1];
    }
  }

  /** After any run of successful merges, what is held is the only payload in everything merged. */
  lemma HeldPayloadIsTheOnlyOne(raws: seq<seq<byte>>, tag: nat, x: Option<seq<byte>>)
    requires Captures(raws, tag, None) == Ok(x)
    ensures exists fs :: Parses(Concat(raws), fs) && Contents(fs, tag) == Known(x)
  {
    var fss := CapturedBuffersParse(raws, tag, None);
    MergesActAsOne(raws, fss, tag);
    ExtractExact(Concat(raws), tag, x);
  }
}
