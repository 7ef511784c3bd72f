/**
 An encoder for the wire format, in plain arithmetic and apart from the decoder's functions. What it
 writes is what the scan reads: numbers below 2^64, tags below 2^29, contents of any length, groups
 nested to the limit and no deeper.
 */
module ProtoEncoding {
  import opened Prelude
  import opened ProtoWire

  const WORD: nat := 0x1_0000_0000_0000_0000

  // ---- Varints ----

  function EncodeVarint(n: nat): (b: seq<byte>) {
    if n < 128 then [n] else [n % 128 + 128] + EncodeVarint(n / 128)
  }

  function Pow128(k: nat): (p: nat)
    ensures p > 0
  {
    if k == 0 then 1 else 128 * Pow128(k - 1)
  }

  lemma NinthPower()
    ensures Pow128(9) == 0x8000_0000_0000_0000
  {
    assert Pow128(3) == 0x20_0000;
    assert Pow128(6) == 0x400_0000_0000;
  }

  /** All bytes but the last go on; the last one times its power does not exceed the number. */
  lemma {:induction false} EncodedShape(n: nat)
    ensures var b := EncodeVarint(n);
            && b != [] && (forall i | 0 <= i < |b| - 1 :: b[i] >= 128) && b[|b| - 1] < 128
            && b[|b| - 1] * Pow128(|b| - 1) <= n && (|b| > 1 ==> b[|b| - 1] > 0)
  {
    if n >= 128 {
      EncodedShape(n / 128);
      var b, rest := EncodeVarint(n), EncodeVarint(n / 128);
      assert forall i | 0 < i < |b| :: b[i] == rest[i - 1];
      LastTimesPower(n, rest[|rest| - 1], Pow128(|rest| - 1));
    }
  }

  lemma LastTimesPower(n: nat, last: nat, power: nat)
    requires last * power <= n / 128
    ensures last * (128 * power) <= n
  {
    assert last * (128 * power) == 128 * (last * power);
  }

  lemma BelowWord(last: nat, power: nat, n: nat)
    requires last * power <= n < WORD && power >= 0x8000_0000_0000_0000
    ensures last < 2
  {
    assert last >= 2 ==> last * power >= 2 * power;
  }

  lemma {:induction false} PowersGrow(a: nat, b: nat)
    requires a <= b
    ensures Pow128(a) <= Pow128(b)
    decreases b
  {
    if a < b { PowersGrow(a, b - 1); }
  }

  /** Every number below 2^64 has an encoding of at most ten bytes. */
  lemma EncodedIsVarint(n: nat)
    requires n < WORD
    ensures IsVarint(EncodeVarint(n))
  {
    var b := EncodeVarint(n);
    EncodedShape(n);
    NinthPower();
    if |b| >= 11 {
      PowersGrow(10, |b| - 1);
      TooLong(b[|b| - 1], Pow128(|b| - 1), n);
    }
    if |b| == 10 { BelowWord(b[9], Pow128(9), n); }
  }

  lemma TooLong(last: nat, power: nat, n: nat)
    requires last > 0 && power >= 128 * 0x8000_0000_0000_0000 && last * power <= n
    ensures n >= WORD
  {
    assert last * power >= power;
  }

  /** And it decodes to that number. */
  lemma {:induction false} EncodedValue(n: nat)
    ensures VarintValue(EncodeVarint(n)) == n
  {
    var b := EncodeVarint(n);
    if n < 128 {
      assert ValueAt(b, 0, 1) == n + 128 * ValueAt(b, 1, 1);
    } else {
      var rest := EncodeVarint(n / 128);
      EncodedValue(n / 128);
      assert |b| == 1 + |rest| && b[1..1 + |rest|] == rest;
      ValueAtSlice(b, 1, rest, 0);
      assert VarintValue(b) == n % 128 + 128 * VarintValue(rest);
    }
  }

  /** The sum of the low seven bits of each byte times its power of 128. */
  function Weighted(b: seq<byte>, n: nat): (v: nat)
    requires n <= |b|
  {
    if n == 0 then 0 else Weighted(b, n - 1) + (b[n - 1] % 128) * Pow128(n - 1)
  }

  lemma Distributes(d: nat, v: nat, power: nat)
    ensures (d + 128 * v) * power == d * power + v * (128 * power)
  {
  }

  lemma {:induction false} ValueIsWeighted(b: seq<byte>, lo: nat, hi: nat)
    requires lo <= hi <= |b|
    ensures Weighted(b, lo) + ValueAt(b, lo, hi) * Pow128(lo) == Weighted(b, hi)
    decreases hi - lo
  {
    if lo < hi {
      ValueIsWeighted(b, lo + 1, hi);
      Distributes(b[lo] % 128, ValueAt(b, lo + 1, hi), Pow128(lo));
    }
  }

  lemma VarintIsSum(b: seq<byte>)
    ensures VarintValue(b) == Weighted(b, |b|)
  {
    ValueIsWeighted(b, 0, |b|);
  }

  lemma DigitTimesPower(d: nat, power: nat)
    requires d < 128
    ensures d * power + power <= 128 * power
  {
    assert (127 - d) * power >= 0;
  }

  lemma {:induction false} WeightedIsSmall(b: seq<byte>, n: nat)
    requires n <= |b|
    ensures Weighted(b, n) < Pow128(n)
  {
    if n > 0 {
      WeightedIsSmall(b, n - 1);
      DigitTimesPower(b[n - 1] % 128, Pow128(n - 1));
    }
  }

  /** No varint is 2^64 or more. */
  lemma VarintBelowWord(b: seq<byte>)
    requires IsVarint(b)
    ensures VarintValue(b) < WORD
  {
    VarintIsSum(b);
    NinthPower();
    if |b| == 10 {
      WeightedIsSmall(b, 9);
    } else {
      WeightedIsSmall(b, |b|);
      PowersGrow(|b|, 9);
    }
  }

  // ---- Keys ----

  function EncodeKey(tag: nat, wire: nat): (b: seq<byte>) { EncodeVarint(8 * tag + wire) }

  predicate ValidTag(tag: nat) { 1 <= tag < 0x2000_0000 }

  /** Which numbers are keys. */
  lemma KeysAre(v: nat)
    ensures ToKey(v) == if v < 0x1_0000_0000 && v % 8 <= 5 && v >= 8 then Some(Key(v / 8, v % 8)) else None
  {
    KeyBits(v);
  }

  lemma KeyParts(tag: nat, wire: nat)
    requires wire < 8
    ensures (8 * tag + wire) / 8 == tag && (8 * tag + wire) % 8 == wire
  {
  }

  lemma KeyRoundTrip(tag: nat, wire: nat)
    requires ValidTag(tag) && wire <= 5
    ensures ToKey(8 * tag + wire) == Some(Key(tag, wire))
  {
    KeysAre(8 * tag + wire);
    KeyParts(tag, wire);
  }

  lemma EncodedKey(tag: nat, wire: nat)
    requires ValidTag(tag) && wire <= 5
    ensures IsKey(EncodeKey(tag, wire), Key(tag, wire))
  {
    EncodedIsVarint(8 * tag + wire);
    EncodedValue(8 * tag + wire);
    KeyRoundTrip(tag, wire);
  }

  // ---- Fields ----

  datatype Node =
    | Int(tag: nat, n: nat)
    | Fixed64(tag: nat, raw: seq<byte>)
    | Fixed32(tag: nat, raw: seq<byte>)
    | Blob(tag: nat, content: seq<byte>)
    | Nest(tag: nat, nodes: seq<Node>)

  function WireType(x: Node): (w: nat) {
    match x
    case Int(_, _) => 0
    case Fixed64(_, _) => 1
    case Blob(_, _) => 2
    case Nest(_, _) => 3
    case Fixed32(_, _) => 5
  }

  /** `levels` bounds the nesting of groups. */
  predicate Encodable(x: Node, levels: nat)
    decreases x, 1
  {
    && ValidTag(x.tag) && levels > 0
    && match x
       case Int(_, n) => n < WORD
       case Fixed64(_, raw) => |raw| == 8
       case Fixed32(_, raw) => |raw| == 4
       case Blob(_, content) => |content| < WORD
       case Nest(_, nodes) => AllEncodable(nodes, levels - 1)
  }

  predicate AllEncodable(xs: seq<Node>, levels: nat)
    decreases xs, 0
  {
    xs == [] || (Encodable(xs[0], levels) && AllEncodable(xs[1..], levels))
  }

  /** What stands behind the key; the scan returns it, but only the content of a blob. */
  function EncodeValue(x: Node): (b: seq<byte>)
    decreases x, 1
  {
    match x
    case Int(_, n) => EncodeVarint(n)
    case Fixed64(_, raw) => raw
    case Fixed32(_, raw) => raw
    case Blob(_, content) => EncodeVarint(|content|) + content
    case Nest(tag, nodes) => EncodeAll(nodes) + EncodeKey(tag, 4)
  }

  function EncodeNode(x: Node): (b: seq<byte>)
    decreases x, 2
  {
    EncodeKey(x.tag, WireType(x)) + EncodeValue(x)
  }

  function EncodeAll(xs: seq<Node>): (b: seq<byte>)
    decreases xs, 0
  {
    if xs == [] then [] else EncodeNode(xs[0]) + EncodeAll(xs[1..])
  }

  function Payload(x: Node): (b: seq<byte>) { if x.Blob? then x.content else EncodeValue(x) }

  /** The payloads under a tag, in order. */
  function Payloads(xs: seq<Node>, tag: nat): (ps: seq<seq<byte>>) {
    if xs == [] then [] else (if xs[0].tag == tag then [Payload(xs[0])] else []) + Payloads(xs[1..], tag)
  }

  // ---- What is encoded is in the grammar ----

  function ToValue(x: Node): (v: Value)
    decreases x, 1
  {
    match x
    case Int(_, n) => Flat(EncodeVarint(n))
    case Fixed64(_, raw) => Flat(raw)
    case Fixed32(_, raw) => Flat(raw)
    case Blob(_, content) => Bytes(EncodeVarint(|content|), content)
    case Nest(tag, nodes) => Group(ToFields(nodes), EncodeKey(tag, 4))
  }

  function ToField(x: Node): (f: Field)
    decreases x, 2
  {
    Field(Key(x.tag, WireType(x)), EncodeKey(x.tag, WireType(x)), ToValue(x))
  }

  function ToFields(xs: seq<Node>): (fs: seq<Field>)
    decreases xs, 0
  {
    if xs == [] then [] else [ToField(xs[0])] + ToFields(xs[1..])
  }

  lemma {:induction false} ValuePrints(x: Node, levels: nat)
    requires Encodable(x, levels)
    ensures Print(ToValue(x)) == EncodeValue(x) && WellFormed(ToValue(x), Key(x.tag, WireType(x)), levels)
    decreases x, 1
  {
    match x
    case Int(_, n) => EncodedIsVarint(n);
    case Fixed64(_, _) =>
    case Fixed32(_, _) =>
    case Blob(_, content) =>
      EncodedIsVarint(|content|);
      EncodedValue(|content|);
    case Nest(tag, nodes) =>
      FieldsPrint(nodes, levels - 1);
      EncodedKey(tag, 4);
  }

  lemma {:induction false} FieldPrints(x: Node, levels: nat)
    requires Encodable(x, levels)
    ensures PrintField(ToField(x)) == EncodeNode(x) && WellFormedField(ToField(x), levels)
    decreases x, 2
  {
    EncodedKey(x.tag, WireType(x));
    ValuePrints(x, levels);
  }

  lemma {:induction false} FieldsPrint(xs: seq<Node>, levels: nat)
    requires AllEncodable(xs, levels)
    ensures PrintAll(ToFields(xs)) == EncodeAll(xs) && WellFormedAll(ToFields(xs), levels)
    decreases xs, 0
  {
    if xs != [] {
      FieldPrints(xs[0], levels);
      FieldsPrint(xs[1..], levels);
      var fs := ToFields(xs);
      assert fs[0] == ToField(xs[0]) && fs[1..] == ToFields(xs[1..]);
    }
  }

  lemma {:induction false} PayloadsAppend(xs: seq<Node>, ys: seq<Node>, tag: nat)
    ensures Payloads(xs + ys, tag) == Payloads(xs, tag) + Payloads(ys, tag)
    decreases |xs|
  {
    if xs == [] {
      assert xs + ys == ys;
    } else {
      assert (xs + ys)[0] == xs[0] && (xs + ys)[1..] == xs[1..] + ys;
      PayloadsAppend(xs[1..], ys, tag);
    }
  }

  lemma {:induction false} NoPayloads(xs: seq<Node>, tag: nat)
    requires forall i | 0 <= i < |xs| :: xs[i].tag != tag
    ensures Payloads(xs, tag) == []
    decreases |xs|
  {
    if xs != [] { NoPayloads(xs[1..], tag); }
  }

  // ---- The nesting limit ----

  /** An empty group inside `k` more. */
  function Nested(tag: nat, k: nat): (x: Node) { Nest(tag, if k == 0 then [] else [Nested(tag, k - 1)]) }

  lemma {:induction false} NestedEncodableIff(tag: nat, k: nat, levels: nat)
    requires ValidTag(tag)
    ensures Encodable(Nested(tag, k), levels) <==> k < levels
    decreases k
  {
    if levels > 0 && k > 0 {
      var inner := [Nested(tag, k - 1)];
      assert AllEncodable(inner, levels - 1) <==> Encodable(inner[0], levels - 1) by { assert inner[1..] == []; }
      NestedEncodableIff(tag, k - 1, levels - 1);
    }
  }

  lemma EncodeOne(x: Node)
    ensures EncodeAll([x]) == EncodeNode(x)
  {
    assert [x][1..] == [];
    assert EncodeNode(x) + EncodeAll([]) == EncodeNode(x);
  }

  lemma BadInnerField(b: seq<byte>, pos: nat, start: nat, tag: nat, levels: nat)
    requires pos <= |b| && levels > 0 && ReadKey(b, pos) == KeyRead(Key(tag, 3), start)
    requires FieldAt(b, start, levels - 1) == NoField
    ensures FieldAt(b, pos, levels) == NoField
  {
    assert GroupEnd(tag, b, start, levels) == None;
    assert SkipEnd(Key(tag, 3), b, start, levels) == None;
  }

  lemma {:induction false} TooDeep(b: seq<byte>, pos: nat, end: nat, tag: nat, k: nat, levels: nat)
    requires ValidTag(tag) && levels <= k && Spans(b, pos, end, EncodeNode(Nested(tag, k)))
    ensures FieldAt(b, pos, levels) == NoField
    decreases k
  {
    var mid := SpansSplit(b, pos, end, EncodeKey(tag, 3), EncodeValue(Nested(tag, k)));
    EncodedKey(tag, 3);
    KeyFound(b, pos, mid, EncodeKey(tag, 3), Key(tag, 3));
    if levels > 0 {
      var inner := Nested(tag, k - 1);
      EncodeOne(inner);
      var close := SpansSplit(b, mid, end, EncodeNode(inner), EncodeKey(tag, 4));
      TooDeep(b, mid, close, tag, k - 1, levels - 1);
      BadInnerField(b, pos, mid, tag, levels);
    }
  }
}
