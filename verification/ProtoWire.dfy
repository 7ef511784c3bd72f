/**
 The Protocol Buffers wire format, twice: as the cursor functions a decoder runs (varint, key, skip),
 and as a grammar of field lists with their exact bytes, over-long varints included. The two are
 proved to agree in both directions.
 */
module ProtoWire {
  import opened Prelude

  type byte = x: int | 0 <= x < 256

  /** Nested groups deeper than this are refused. */
  const RECURSION_LIMIT: nat := 100

  const MAX_KEY: nat := 0x1_0000_0000

  // ---- The decoder ----

  /** Where the varint at `pos` ends, given that its first `i` bytes continue: at most ten bytes, below 2^64. */
  function VarintEnd(b: seq<byte>, pos: nat, i: nat): (r: Option<nat>)
    requires pos + i <= |b| && i <= 10
    ensures r.Some? ==> pos + i < r.value <= |b|
    decreases 10 - i
  {
    if i == 10 || pos + i == |b| then None
    else if b[pos + i] < 128 then (if i == 9 && b[pos + i] >= 2 then None else Some(pos + i + 1))
    else VarintEnd(b, pos, i + 1)
  }

  /** Little-endian groups of seven bits. */
  function ValueAt(b: seq<byte>, lo: nat, hi: nat): (v: nat)
    requires lo <= hi <= |b|
    decreases hi - lo
  {
    if lo == hi then 0 else (if b[lo] < 128 then b[lo] else b[lo] - 128) + 128 * ValueAt(b, lo + 1, hi)
  }

  datatype Key = Key(tag: nat, wire: nat)

  /** The low three bits of a key. */
  function WireOf(v: nat): (w: nat) { if v < 8 then v else WireOf(v - 8) }

  /** The bits above them. */
  function TagOf(v: nat): (t: nat) { if v < 8 then 0 else 1 + TagOf(v - 8) }

  /** Both are the usual shift and mask; the recursive form keeps division out of the proofs below. */
  lemma {:induction false} KeyBits(v: nat)
    ensures WireOf(v) == v % 8 && TagOf(v) == v / 8
  {
    if v >= 8 { KeyBits(v - 8); }
  }

  function ToKey(v: nat): (k: Option<Key>) {
    if v < MAX_KEY && WireOf(v) <= 5 && TagOf(v) >= 1 then Some(Key(TagOf(v), WireOf(v))) else None
  }

  datatype KeyRead = NoKey | KeyRead(key: Key, end: nat)

  /** The field key at `pos` and where it ends. */
  function ReadKey(b: seq<byte>, pos: nat): (r: KeyRead)
    requires pos <= |b|
    ensures r.KeyRead? ==> pos < r.end <= |b|
  {
    match VarintEnd(b, pos, 0)
    case None => NoKey
    case Some(end) =>
      match ToKey(ValueAt(b, pos, end))
      case None => NoKey
      case Some(key) => KeyRead(key, end)
  }

  /** Where the value at `pos` ends when it is not a group. */
  function FlatEnd(wire: nat, b: seq<byte>, pos: nat): (r: Option<nat>)
    requires pos <= |b|
    ensures r.Some? ==> pos <= r.value <= |b|
  {
    if wire == 0 then VarintEnd(b, pos, 0)
    else if wire == 1 then (if pos + 8 <= |b| then Some(pos + 8) else None)
    else if wire == 5 then (if pos + 4 <= |b| then Some(pos + 4) else None)
    else if wire == 2 then
      match VarintEnd(b, pos, 0)
      case None => None
      case Some(n) => if n + ValueAt(b, pos, n) <= |b| then Some(n + ValueAt(b, pos, n)) else None
    else None
  }

  /** Where the value of a field ends; `None` if it is malformed or nested too deeply. */
  function SkipEnd(key: Key, b: seq<byte>, pos: nat, depth: nat): (r: Option<nat>)
    requires pos <= |b|
    ensures r.Some? ==> pos <= r.value <= |b|
    decreases |b| - pos, 2
  {
    if depth == 0 then None
    else if key.wire == 3 then GroupEnd(key.tag, b, pos, depth)
    else FlatEnd(key.wire, b, pos)
  }

  datatype FieldRead = NoField | GroupClose(tag: nat, end: nat) | FieldRead(end: nat)

  /** The key at `pos` and, unless it closes a group, the value after it. */
  function FieldAt(b: seq<byte>, pos: nat, depth: nat): (r: FieldRead)
    requires pos <= |b|
    ensures !r.NoField? ==> pos < r.end <= |b|
    decreases |b| - pos, 0
  {
    match ReadKey(b, pos)
    case NoKey => NoField
    case KeyRead(key, start) =>
      if key.wire == 4 then GroupClose(key.tag, start)
      else
        match SkipEnd(key, b, start, depth)
        case None => NoField
        case Some(end) => FieldRead(end)
  }

  /** Where a group ends whose fields go on at `pos`, its end key included. */
  function GroupEnd(tag: nat, b: seq<byte>, pos: nat, depth: nat): (r: Option<nat>)
    requires pos <= |b| && depth > 0
    ensures r.Some? ==> pos <= r.value <= |b|
    decreases |b| - pos, 1
  {
    match FieldAt(b, pos, depth - 1)
    case NoField => None
    case GroupClose(t, end) => if t == tag then Some(end) else None
    case FieldRead(next) => GroupEnd(tag, b, next, depth)
  }

  // ---- The grammar ----

  datatype Field = Field(key: Key, raw: seq<byte>, value: Value)

  datatype Value =
    | Flat(raw: seq<byte>)
    | Bytes(prefix: seq<byte>, content: seq<byte>)
    | Group(fields: seq<Field>, end: seq<byte>)

  predicate IsVarint(b: seq<byte>) {
    && 1 <= |b| <= 10
    && (forall i | 0 <= i < |b| - 1 :: b[i] >= 128)
    && b[|b| - 1] < 128
    && (|b| == 10 ==> b[9] < 2)
  }

  function VarintValue(b: seq<byte>): (v: nat) { ValueAt(b, 0, |b|) }

  predicate IsKey(raw: seq<byte>, key: Key) { IsVarint(raw) && ToKey(VarintValue(raw)) == Some(key) }

  function Print(v: Value): (b: seq<byte>)
    decreases v, 1
  {
    match v
    case Flat(raw) => raw
    case Bytes(prefix, content) => prefix + content
    case Group(fields, end) => PrintAll(fields) + end
  }

  function PrintField(f: Field): (b: seq<byte>)
    decreases f, 0
  {
    f.raw + Print(f.value)
  }

  /** The bytes of a field list. */
  function PrintAll(fs: seq<Field>): (b: seq<byte>)
    decreases fs, 0
  {
    if fs == [] then [] else PrintField(fs[0]) + PrintAll(fs[1..])
  }

  predicate WellFormed(v: Value, key: Key, depth: nat)
    decreases v, 1
  {
    depth > 0 &&
    match v
    case Flat(raw) => (key.wire == 0 && IsVarint(raw)) || (key.wire == 1 && |raw| == 8) || (key.wire == 5 && |raw| == 4)
    case Bytes(prefix, content) => key.wire == 2 && IsVarint(prefix) && VarintValue(prefix) == |content|
    case Group(fields, end) => key.wire == 3 && WellFormedAll(fields, depth - 1) && IsKey(end, Key(key.tag, 4))
  }

  /** An end-group key is not a field. */
  predicate WellFormedField(f: Field, depth: nat)
    decreases f, 0
  {
    IsKey(f.raw, f.key) && f.key.wire != 4 && WellFormed(f.value, f.key, depth)
  }

  predicate WellFormedAll(fs: seq<Field>, depth: nat)
    decreases fs, 0
  {
    fs == [] || (WellFormedField(fs[0], depth) && WellFormedAll(fs[1..], depth))
  }

  // ---- Agreement ----

  lemma {:induction false} ValueAtSlice(b: seq<byte>, pos: nat, s: seq<byte>, i: nat)
    requires Spans(b, pos, pos + |s|, s) && i <= |s|
    ensures ValueAt(b, pos + i, pos + |s|) == ValueAt(s, i, |s|)
    decreases |s| - i
  {
    if i < |s| {
      assert b[pos..pos + |s|][i] == b[pos + i];
      ValueAtSlice(b, pos, s, i + 1);
    }
  }

  lemma {:induction false} VarintEndAccepts(b: seq<byte>, pos: nat, s: seq<byte>, i: nat)
    requires Spans(b, pos, pos + |s|, s) && IsVarint(s) && i < |s|
    ensures VarintEnd(b, pos, i) == Some(pos + |s|)
    decreases |s| - i
  {
    assert b[pos..pos + |s|][i] == b[pos + i];
    if i < |s| - 1 { VarintEndAccepts(b, pos, s, i + 1); }
  }

  lemma {:induction false} VarintEndReads(b: seq<byte>, pos: nat, i: nat)
    requires pos + i <= |b| && i <= 10 && VarintEnd(b, pos, i).Some?
    requires forall k | pos <= k < pos + i :: b[k] >= 128
    ensures IsVarint(b[pos..VarintEnd(b, pos, i).value])
    decreases 10 - i
  {
    if b[pos + i] >= 128 {
      VarintEndReads(b, pos, i + 1);
    } else {
      assert VarintEnd(b, pos, i) == Some(pos + i + 1);
    }
  }

  /** A varint is found wherever it stands, with its own end and value. */
  lemma VarintFound(b: seq<byte>, pos: nat, end: nat, s: seq<byte>)
    requires Spans(b, pos, end, s) && IsVarint(s)
    ensures VarintEnd(b, pos, 0) == Some(end) && ValueAt(b, pos, end) == VarintValue(s)
  {
    assert end == pos + |s|;
    VarintEndAccepts(b, pos, s, 0);
    ValueAtSlice(b, pos, s, 0);
  }

  lemma VarintIsRead(b: seq<byte>, pos: nat, end: nat)
    requires pos <= |b| && VarintEnd(b, pos, 0) == Some(end)
    ensures IsVarint(b[pos..end]) && VarintValue(b[pos..end]) == ValueAt(b, pos, end)
  {
    VarintEndReads(b, pos, 0);
    ValueAtSlice(b, pos, b[pos..end], 0);
  }

  lemma KeyFound(b: seq<byte>, pos: nat, end: nat, raw: seq<byte>, key: Key)
    requires Spans(b, pos, end, raw) && IsKey(raw, key)
    ensures ReadKey(b, pos) == KeyRead(key, end)
  {
    VarintFound(b, pos, end, raw);
  }

  lemma KeyIsRead(b: seq<byte>, pos: nat, key: Key, end: nat)
    requires pos <= |b| && ReadKey(b, pos) == KeyRead(key, end)
    ensures IsKey(b[pos..end], key)
  {
    VarintIsRead(b, pos, end);
  }

  // ---- Every well-formed value is skipped ----

  lemma FlatAccepts(b: seq<byte>, pos: nat, end: nat, v: Value, key: Key)
    requires !v.Group? && Spans(b, pos, end, Print(v)) && WellFormed(v, key, 1)
    ensures key.wire != 3 && FlatEnd(key.wire, b, pos) == Some(end)
  {
    match v
    case Flat(raw) =>
      if key.wire == 0 { VarintFound(b, pos, end, raw); }
    case Bytes(prefix, content) => BytesAccepts(b, pos, end, prefix, content);
  }

  lemma BytesAccepts(b: seq<byte>, pos: nat, end: nat, prefix: seq<byte>, content: seq<byte>)
    requires Spans(b, pos, end, prefix + content) && IsVarint(prefix) && VarintValue(prefix) == |content|
    ensures FlatEnd(2, b, pos) == Some(end)
  {
    var mid := SpansSplit(b, pos, end, prefix, content);
    VarintFound(b, pos, mid, prefix);
  }

  lemma {:induction false} SkipAccepts(b: seq<byte>, pos: nat, end: nat, v: Value, key: Key, depth: nat)
    requires Spans(b, pos, end, Print(v)) && WellFormed(v, key, depth)
    ensures SkipEnd(key, b, pos, depth) == Some(end)
    decreases v, 1
  {
    match v
    case Group(fields, close) =>
      var mid := SpansSplit(b, pos, end, PrintAll(fields), close);
      CloseAccepts(b, mid, end, close, key.tag, depth - 1);
      GroupAccepts(b, pos, mid, fields, key.tag, depth, end);
    case _ => FlatAccepts(b, pos, end, v, key);
  }

  lemma {:induction false} FieldAccepts(b: seq<byte>, pos: nat, end: nat, f: Field, depth: nat)
    requires Spans(b, pos, end, PrintField(f)) && WellFormedField(f, depth)
    ensures FieldAt(b, pos, depth) == FieldRead(end)
    decreases f, 0
  {
    var start := KeyPrinted(b, pos, end, f, depth);
    SkipAccepts(b, start, end, f.value, f.key, depth);
  }

  lemma KeyPrinted(b: seq<byte>, pos: nat, end: nat, f: Field, depth: nat) returns (start: nat)
    requires Spans(b, pos, end, PrintField(f)) && WellFormedField(f, depth)
    ensures ReadKey(b, pos) == KeyRead(f.key, start) && Spans(b, start, end, Print(f.value))
    ensures f.key.wire != 4 && WellFormed(f.value, f.key, depth)
  {
    start := SpansSplit(b, pos, end, f.raw, Print(f.value));
    KeyFound(b, pos, start, f.raw, f.key);
  }

  lemma CloseAccepts(b: seq<byte>, pos: nat, end: nat, raw: seq<byte>, tag: nat, depth: nat)
    requires Spans(b, pos, end, raw) && IsKey(raw, Key(tag, 4))
    ensures FieldAt(b, pos, depth) == GroupClose(tag, end)
  {
    KeyFound(b, pos, end, raw, Key(tag, 4));
  }

  lemma {:induction false} GroupAccepts(b: seq<byte>, pos: nat, end: nat, fs: seq<Field>, tag: nat, depth: nat, stop: nat)
    requires depth > 0 && Spans(b, pos, end, PrintAll(fs)) && WellFormedAll(fs, depth - 1)
    requires FieldAt(b, end, depth - 1) == GroupClose(tag, stop)
    ensures GroupEnd(tag, b, pos, depth) == Some(stop)
    decreases fs, 0
  {
    if fs != [] {
      var next := SpansSplit(b, pos, end, PrintField(fs[0]), PrintAll(fs[1..]));
      FieldAccepts(b, pos, next, fs[0], depth - 1);
      GroupAccepts(b, next, end, fs[1..], tag, depth, stop);
      GroupStep(b, pos, next, tag, depth);
    }
  }

  lemma GroupStep(b: seq<byte>, pos: nat, next: nat, tag: nat, depth: nat)
    requires pos <= |b| && depth > 0 && FieldAt(b, pos, depth - 1) == FieldRead(next)
    ensures GroupEnd(tag, b, pos, depth) == GroupEnd(tag, b, next, depth)
  {
  }

  // ---- Only well-formed values are skipped ----

  lemma FlatReads(key: Key, b: seq<byte>, pos: nat, end: nat) returns (v: Value)
    requires pos <= |b| && key.wire != 3 && FlatEnd(key.wire, b, pos) == Some(end)
    ensures WellFormed(v, key, 1) && !v.Group? && Spans(b, pos, end, Print(v))
  {
    if key.wire == 2 {
      var n := VarintEnd(b, pos, 0).value;
      VarintIsRead(b, pos, n);
      SpansJoin(b, pos, n, end, b[pos..n], b[n..end]);
      v := Bytes(b[pos..n], b[n..end]);
    } else {
      if key.wire == 0 { VarintIsRead(b, pos, end); }
      v := Flat(b[pos..end]);
    }
  }

  lemma {:induction false} SkipReads(key: Key, b: seq<byte>, pos: nat, depth: nat, end: nat) returns (v: Value)
    requires pos <= |b| && SkipEnd(key, b, pos, depth) == Some(end)
    ensures WellFormed(v, key, depth) && Spans(b, pos, end, Print(v))
    decreases |b| - pos, 2
  {
    if key.wire == 3 {
      var fs, close := GroupReads(key.tag, b, pos, depth, end);
      v := Group(fs, close);
    } else {
      v := FlatReads(key, b, pos, end);
    }
  }

  lemma {:induction false} FieldReads(b: seq<byte>, pos: nat, depth: nat, end: nat) returns (f: Field)
    requires pos <= |b| && FieldAt(b, pos, depth) == FieldRead(end)
    ensures WellFormedField(f, depth) && Spans(b, pos, end, PrintField(f))
    decreases |b| - pos, 0
  {
    var KeyRead(key, start) := ReadKey(b, pos);
    KeyIsRead(b, pos, key, start);
    var v := SkipReads(key, b, start, depth, end);
    f := Field(key, b[pos..start], v);
    SpansJoin(b, pos, start, end, f.raw, Print(v));
  }

  lemma CloseReads(b: seq<byte>, pos: nat, depth: nat, tag: nat, end: nat)
    requires pos <= |b| && FieldAt(b, pos, depth) == GroupClose(tag, end)
    ensures IsKey(b[pos..end], Key(tag, 4))
  {
    KeyIsRead(b, pos, Key(tag, 4), end);
  }

  lemma {:induction false} GroupReads(tag: nat, b: seq<byte>, pos: nat, depth: nat, end: nat)
    returns (fs: seq<Field>, close: seq<byte>)
    requires pos <= |b| && depth > 0 && GroupEnd(tag, b, pos, depth) == Some(end)
    ensures WellFormedAll(fs, depth - 1) && IsKey(close, Key(tag, 4)) && Spans(b, pos, end, PrintAll(fs) + close)
    decreases |b| - pos, 1
  {
    match FieldAt(b, pos, depth - 1)
    case GroupClose(_, _) =>
      CloseReads(b, pos, depth - 1, tag, end);
      fs, close := [], b[pos..end];
      assert PrintAll(fs) + close == close;
    case FieldRead(next) =>
      var f := FieldReads(b, pos, depth - 1, next);
      var rest;
      rest, close := GroupReads(tag, b, next, depth, end);
      fs := [f] + rest;
      ConsFields(f, rest, close, depth - 1);
      SpansJoin(b, pos, next, end, PrintField(f), PrintAll(rest) + close);
  }

  lemma ConsFields(f: Field, rest: seq<Field>, tail: seq<byte>, depth: nat)
    requires WellFormedField(f, depth) && WellFormedAll(rest, depth)
    ensures PrintAll([f] + rest) + tail == PrintField(f) + (PrintAll(rest) + tail)
    ensures WellFormedAll([f] + rest, depth)
  {
    assert ([f] + rest)[1..] == rest;
  }
}
