/**
 Integer-keyed maps and one-entry unions as the derive macros generate them, over an arbitrary
 schema. Defaults are skipped on the way out and filled in on the way back, so any two versions of a
 schema that agree on their common tags understand each other.
 */
module TaggedCodec {
  import opened Prelude

  const U32_LIMIT: int := 0x1_0000_0000

  /** An encoded payload. */
  type Wire = nat

  datatype Value =
    | Items(items: seq<nat>) // vectors, strings and borrowed bytes
    | Opt(value: Option<Wire>)
    | Flag(b: bool)
    | Number(n: int)
    | Other(id: nat)

  /** The types the macros tell apart; any other type brings its own default. */
  datatype FieldType = Sequence | Optional | Boolean | Integer | Custom(default: nat)

  predicate HasType(v: Value, ty: FieldType) {
    match ty
    case Sequence => v.Items?
    case Optional => v.Opt?
    case Boolean => v.Flag?
    case Integer => v.Number?
    case Custom(_) => v.Other?
  }

  function Default(ty: FieldType): (v: Value)
    ensures HasType(v, ty)
  {
    match ty
    case Sequence => Items([])
    case Optional => Opt(None)
    case Boolean => Flag(false)
    case Integer => Number(0)
    case Custom(default) => Other(default)
  }

  /** The type-specific test that decides whether a field is written: exactly "differs from the default". */
  predicate Written(v: Value, ty: FieldType)
    requires HasType(v, ty)
    ensures Written(v, ty) <==> v != Default(ty)
  {
    match ty
    case Sequence => |v.items| != 0
    case Optional => v.value.Some?
    case Boolean => v.b
    case Integer => v.n != 0
    case Custom(default) => v != Other(default)
  }

  datatype Field = Field(tag: nat, ty: FieldType, encode: Value -> Wire, decode: Wire -> Option<Value>)

  type Schema = seq<Field>

  datatype Entry = Entry(key: int, wire: Wire)

  predicate UniqueTags(schema: Schema) { forall i, j | 0 <= i < j < |schema| :: schema[i].tag != schema[j].tag }

  predicate TagsInRange(schema: Schema) { forall i | 0 <= i < |schema| :: 1 <= schema[i].tag < U32_LIMIT }

  /** The payload codec gives back typed values of the field. */
  ghost predicate Lossless(f: Field) { forall v | HasType(v, f.ty) :: f.decode(f.encode(v)) == Some(v) }

  ghost predicate LosslessAll(schema: Schema) { forall i | 0 <= i < |schema| :: Lossless(schema[i]) }

  predicate Typed(schema: Schema, vs: seq<Value>) {
    |vs| == |schema| && forall i | 0 <= i < |schema| :: HasType(vs[i], schema[i].ty)
  }

  // ---- Encoding ----

  function EncodeField(f: Field, v: Value): (es: seq<Entry>)
    requires HasType(v, f.ty)
  {
    if Written(v, f.ty) then [Entry(f.tag, f.encode(v))] else []
  }

  function Encode(schema: Schema, vs: seq<Value>): (es: seq<Entry>)
    requires Typed(schema, vs)
    decreases |schema|
  {
    if schema == [] then []
    else
      var n := |schema| - 1;
      Encode(schema[..n], vs[..n]) + EncodeField(schema[n], vs[n])
  }

  /** The announced length is counted in a pass of its own, before the entries are written. */
  method SerializeMap(schema: Schema, vs: seq<Value>) returns (length: nat, es: seq<Entry>)
    requires Typed(schema, vs)
    ensures es == Encode(schema, vs) && length == |es|
  {
    length := 0;
    for i := 0 to |schema|
      invariant length == |Encode(schema[..i], vs[..i])|
    {
      EncodeStep(schema, vs, i);
      length := length + if Written(vs[i], schema[i].ty) then 1 else 0;
    }
    es := [];
    for i := 0 to |schema|
      invariant es == Encode(schema[..i], vs[..i])
    {
      EncodeStep(schema, vs, i);
      if Written(vs[i], schema[i].ty) {
        es := es + [Entry(schema[i].tag, schema[i].encode(vs[i]))];
      }
    }
    assert schema[..|schema|] == schema && vs[..|vs|] == vs;
  }

  lemma EncodeStep(schema: Schema, vs: seq<Value>, i: nat)
    requires Typed(schema, vs) && i < |schema|
    ensures Typed(schema[..i], vs[..i]) && Typed(schema[..i + 1], vs[..i + 1])
    ensures Encode(schema[..i + 1], vs[..i + 1]) == Encode(schema[..i], vs[..i]) + EncodeField(schema[i], vs[i])
  {
    assert schema[..i + 1][..i] == schema[..i] && vs[..i + 1][..i] == vs[..i];
  }

  // ---- Decoding ----

  /** The payload stored under a key; with distinct keys there is at most one. */
  function Find(es: seq<Entry>, key: int): (r: Option<Wire>) {
    if es == [] then None
    else if es[|es| - 1].key == key then Some(es[|es| - 1].wire)
    else Find(es[..|es| - 1], key)
  }

  predicate GoodKeys(es: seq<Entry>) {
    && (forall i | 0 <= i < |es| :: 0 <= es[i].key < U32_LIMIT)
    && (forall i, j | 0 <= i < j < |es| :: es[i].key != es[j].key)
  }

  predicate Decodes(f: Field, es: seq<Entry>) {
    var w := Find(es, f.tag);
    w.Some? ==> f.decode(w.value).Some?
  }

  predicate DecodesAll(schema: Schema, es: seq<Entry>) { forall i | 0 <= i < |schema| :: Decodes(schema[i], es) }

  /** A field as the map has it, or its default. */
  function ReadField(f: Field, es: seq<Entry>): (v: Value) {
    var w := Find(es, f.tag);
    if w.Some? && f.decode(w.value).Some? then f.decode(w.value).value else Default(f.ty)
  }

  function Read(schema: Schema, es: seq<Entry>): (vs: seq<Value>)
    ensures |vs| == |schema| && forall i {:trigger vs[i]} | 0 <= i < |vs| :: vs[i] == ReadField(schema[i], es)
  {
    seq(|schema|, i requires 0 <= i < |schema| => ReadField(schema[i], es))
  }

  datatype Error = BadKey | DuplicateTag | BadValue | EmptyMap | UnknownTag | TooManyEntries | Unserializable

  function FieldIndex(schema: Schema, tag: int): (r: Option<nat>)
    ensures r.Some? ==> r.value < |schema| && schema[r.value].tag == tag
    ensures r.None? ==> forall i | 0 <= i < |schema| :: schema[i].tag != tag
  {
    if schema == [] then None
    else if schema[|schema| - 1].tag == tag then Some(|schema| - 1)
    else FieldIndex(schema[..|schema| - 1], tag)
  }

  /** Entries in order into field variables; a key seen twice is an error, an unknown one is skipped. */
  method DeserializeMap(schema: Schema, es: seq<Entry>) returns (r: Result<seq<Value>, Error>)
    requires UniqueTags(schema)
    ensures r.Ok? <==> GoodKeys(es) && DecodesAll(schema, es)
    ensures r.Ok? ==> r.value == Read(schema, es)
  {
    var vs := seq(|schema|, i requires 0 <= i < |schema| => Default(schema[i].ty));
    var seen: set<int> := {};
    for i := 0 to |es|
      invariant GoodKeys(es[..i]) && DecodesAll(schema, es[..i])
      invariant seen == set k | 0 <= k < i :: es[k].key
      invariant vs == Read(schema, es[..i])
    {
      var e := es[i];
      assert es[..i + 1][..i] == es[..i] && es[..i + 1][i] == e;
      if !(0 <= e.key < U32_LIMIT) { return Err(BadKey); }
      if e.key in seen {
        var k :| 0 <= k < i && es[k].key == e.key;
        assert !GoodKeys(es);
        return Err(DuplicateTag);
      }
      seen := seen + {e.key};
      GoodKeysStep(es, i);
      var index := FieldIndex(schema, e.key);
      ReadStep(schema, es, i, index);
      if index.Some? {
        var value := schema[index.value].decode(e.wire);
        if value.None? {
          NeverDecodes(schema, es, i, index.value);
          return Err(BadValue);
        }
        vs := vs[index.value := value.value];
      }
    }
    assert es[..|es|] == es;
    r := Ok(vs);
  }

  lemma GoodKeysStep(es: seq<Entry>, i: nat)
    requires i < |es| && GoodKeys(es[..i]) && 0 <= es[i].key < U32_LIMIT
    requires forall k | 0 <= k < i :: es[k].key != es[i].key
    ensures GoodKeys(es[..i + 1])
  {
  }

  lemma ReadStep(schema: Schema, es: seq<Entry>, i: nat, index: Option<nat>)
    requires UniqueTags(schema) && i < |es| && DecodesAll(schema, es[..i]) && index == FieldIndex(schema, es[i].key)
    ensures index.None? ==> Read(schema, es[..i + 1]) == Read(schema, es[..i]) && DecodesAll(schema, es[..i + 1])
    ensures index.Some? && schema[index.value].decode(es[i].wire).Some? ==>
              && Read(schema, es[..i + 1]) == Read(schema, es[..i])[index.value := schema[index.value].decode(es[i].wire).value]
              && DecodesAll(schema, es[..i + 1])
  {
    assert es[..i + 1][..i] == es[..i];
    assert forall k | 0 <= k < |schema| && schema[k].tag != es[i].key ::
        ReadField(schema[k], es[..i + 1]) == ReadField(schema[k], es[..i]) && Decodes(schema[k], es[..i + 1]);
  }

  /** A payload that does not decode makes the whole map undecodable, whatever follows. */
  lemma NeverDecodes(schema: Schema, es: seq<Entry>, i: nat, f: nat)
    requires i < |es| && f < |schema| && schema[f].tag == es[i].key && schema[f].decode(es[i].wire).None?
    ensures !(GoodKeys(es) && DecodesAll(schema, es))
  {
    if GoodKeys(es) {
      FindAt(es, i);
      assert !Decodes(schema[f], es);
    }
  }

  lemma {:induction false} FindAt(es: seq<Entry>, i: nat)
    requires GoodKeys(es) && i < |es|
    ensures Find(es, es[i].key) == Some(es[i].wire)
  {
    var n := |es| - 1;
    if i < n {
      assert es[i].key != es[n].key;
      FindAt(es[..n], i);
    }
  }

  lemma {:induction false} FindMissing(es: seq<Entry>, key: int)
    requires forall i | 0 <= i < |es| :: es[i].key != key
    ensures Find(es, key) == None
  {
    if es != [] { FindMissing(es[..|es| - 1], key); }
  }

  // ---- What survives the wire ----

  /** Every entry written comes from a field that is not at its default. */
  lemma {:induction false} EntriesComeFromFields(schema: Schema, vs: seq<Value>, k: nat) returns (i: nat)
    requires Typed(schema, vs) && k < |Encode(schema, vs)|
    ensures i < |schema| && Written(vs[i], schema[i].ty)
    ensures Encode(schema, vs)[k] == Entry(schema[i].tag, schema[i].encode(vs[i]))
    decreases |schema|
  {
    var n := |schema| - 1;
    var front := Encode(schema[..n], vs[..n]);
    if k < |front| {
      i := EntriesComeFromFields(schema[..n], vs[..n], k);
    } else {
      i := n;
    }
  }

  lemma {:induction false} FieldsAreFound(schema: Schema, vs: seq<Value>, i: nat)
    requires Typed(schema, vs) && UniqueTags(schema) && i < |schema|
    ensures Find(Encode(schema, vs), schema[i].tag) ==
            if Written(vs[i], schema[i].ty) then Some(schema[i].encode(vs[i])) else None
    decreases |schema|
  {
    var n := |schema| - 1;
    var front := Encode(schema[..n], vs[..n]);
    if i < n {
      FieldsAreFound(schema[..n], vs[..n], i);
      assert schema[i].tag != schema[n].tag;
      FindInFront(front, EncodeField(schema[n], vs[n]), schema[i].tag);
    } else {
      forall k | 0 <= k < |front|
        ensures front[k].key != schema[n].tag
      {
        var j := EntriesComeFromFields(schema[..n], vs[..n], k);
        assert schema[j].tag != schema[n].tag;
      }
      FindMissing(front, schema[n].tag);
      FindAtEnd(front, EncodeField(schema[n], vs[n]), schema[n].tag);
    }
  }

  lemma FindInFront(front: seq<Entry>, last: seq<Entry>, key: int)
    requires |last| <= 1 && forall i | 0 <= i < |last| :: last[i].key != key
    ensures Find(front + last, key) == Find(front, key)
  {
    if last == [] { assert front + last == front; } else { assert (front + last)[..|front|] == front; }
  }

  lemma FindAtEnd(front: seq<Entry>, last: seq<Entry>, key: int)
    requires |last| <= 1 && Find(front, key) == None && forall i | 0 <= i < |last| :: last[i].key == key
    ensures Find(front + last, key) == if last == [] then None else Some(last[0].wire)
  {
    if last == [] { assert front + last == front; }
  }

  lemma {:induction false} EncodedKeysAreGood(schema: Schema, vs: seq<Value>)
    requires Typed(schema, vs) && UniqueTags(schema) && TagsInRange(schema)
    ensures GoodKeys(Encode(schema, vs))
    decreases |schema|
  {
    if schema != [] {
      var n := |schema| - 1;
      var front := Encode(schema[..n], vs[..n]);
      EncodedKeysAreGood(schema[..n], vs[..n]);
      forall k | 0 <= k < |front|
        ensures front[k].key != schema[n].tag
      {
        var j := EntriesComeFromFields(schema[..n], vs[..n], k);
        assert schema[j].tag != schema[n].tag;
      }
    }
  }

  /** Two versions of a schema: the same tag always means the same field. */
  ghost predicate Compatible(a: Schema, b: Schema) {
    forall i, j | 0 <= i < |a| && 0 <= j < |b| && a[i].tag == b[j].tag :: a[i] == b[j]
  }

  /** What a reader with schema `b` makes of values written with schema `a`. */
  function TransferField(a: Schema, vs: seq<Value>, f: Field): (v: Value)
    requires Typed(a, vs)
  {
    var i := FieldIndex(a, f.tag);
    if i.Some? then vs[i.value] else Default(f.ty)
  }

  function Transfer(a: Schema, vs: seq<Value>, b: Schema): (ws: seq<Value>)
    requires Typed(a, vs)
    ensures |ws| == |b| && forall i {:trigger ws[i]} | 0 <= i < |ws| :: ws[i] == TransferField(a, vs, b[i])
  {
    seq(|b|, i requires 0 <= i < |b| => TransferField(a, vs, b[i]))
  }

  /**
   A reader of any compatible version decodes the map and gets each field it knows: the writer's value
   where the writer had the field, the default where it had not.
   */
  lemma VersionsUnderstandEachOther(a: Schema, vs: seq<Value>, b: Schema)
    requires Typed(a, vs) && UniqueTags(a) && TagsInRange(a) && LosslessAll(a) && Compatible(a, b)
    ensures var es := Encode(a, vs);
            GoodKeys(es) && DecodesAll(b, es) && Read(b, es) == Transfer(a, vs, b)
  {
    var es := Encode(a, vs);
    EncodedKeysAreGood(a, vs);
    forall j | 0 <= j < |b|
      ensures Decodes(b[j], es) && ReadField(b[j], es) == TransferField(a, vs, b[j])
    {
      FieldTransfers(a, vs, b[j]);
    }
  }

  lemma FieldTransfers(a: Schema, vs: seq<Value>, f: Field)
    requires Typed(a, vs) && UniqueTags(a) && LosslessAll(a)
    requires forall i | 0 <= i < |a| && a[i].tag == f.tag :: a[i] == f
    ensures Decodes(f, Encode(a, vs)) && ReadField(f, Encode(a, vs)) == TransferField(a, vs, f)
  {
    var es := Encode(a, vs);
    var i := FieldIndex(a, f.tag);
    if i.Some? {
      FieldsAreFound(a, vs, i.value);
      assert a[i.value] == f && Lossless(a[i.value]) && HasType(vs[i.value], f.ty);
    } else {
      forall k | 0 <= k < |es|
        ensures es[k].key != f.tag
      {
        var j := EntriesComeFromFields(a, vs, k);
        assert a[j].tag != f.tag;
      }
      FindMissing(es, f.tag);
    }
  }

  /** In particular decoding after encoding is the identity. */
  lemma RoundTrip(schema: Schema, vs: seq<Value>)
    requires Typed(schema, vs) && UniqueTags(schema) && TagsInRange(schema) && LosslessAll(schema)
    ensures var es := Encode(schema, vs); GoodKeys(es) && DecodesAll(schema, es) && Read(schema, es) == vs
  {
    assert Compatible(schema, schema);
    VersionsUnderstandEachOther(schema, vs, schema);
    forall i | 0 <= i < |schema|
      ensures TransferField(schema, vs, schema[i]) == vs[i]
    {
      var j := FieldIndex(schema, schema[i].tag);
      assert j.Some? && j.value == i;
    }
  }

  // ---- Unions ----

  datatype Union = Variant(tag: nat, payload: Value) | Unknown

  /** The variants by tag, and whether a catch-all is declared. */
  datatype UnionSchema = UnionSchema(variants: Schema, hasUnknown: bool)

  predicate TypedUnion(u: UnionSchema, x: Union) {
    match x
    case Variant(tag, payload) =>
      var i := FieldIndex(u.variants, tag);
      i.Some? && HasType(payload, u.variants[i.value].ty)
    case Unknown => u.hasUnknown
  }

  function SerializeUnion(u: UnionSchema, x: Union): (r: Result<seq<Entry>, Error>)
    requires TypedUnion(u, x)
    ensures r.Ok? <==> x.Variant?
    ensures r.Ok? ==> |r.value| == 1
  {
    match x
    case Unknown => Err(Unserializable)
    case Variant(tag, payload) => Ok([Entry(tag, u.variants[FieldIndex(u.variants, tag).value].encode(payload))])
  }

  function DeserializeUnion(u: UnionSchema, es: seq<Entry>): (r: Result<Union, Error>) {
    if es == [] then Err(EmptyMap)
    else if !(0 <= es[0].key < U32_LIMIT) then Err(BadKey)
    else
      match UnionPayload(u, es[0])
      case Err(e) => Err(e)
      case Ok(x) =>
        if |es| == 1 then Ok(x)
        else if 0 <= es[1].key < U32_LIMIT then Err(TooManyEntries)
        else Err(BadKey)
  }

  function UnionPayload(u: UnionSchema, e: Entry): (r: Result<Union, Error>) {
    match FieldIndex(u.variants, e.key)
    case None => if u.hasUnknown then Ok(Unknown) else Err(UnknownTag)
    case Some(i) =>
      match u.variants[i].decode(e.wire)
      case None => Err(BadValue)
      case Some(v) => Ok(Variant(u.variants[i].tag, v))
  }

  /** Exactly the one-entry maps with a readable key are accepted, and the key alone picks the variant. */
  lemma UnionAcceptsOneEntry(u: UnionSchema, es: seq<Entry>)
    ensures DeserializeUnion(u, es).Ok? <==>
              && |es| == 1 && 0 <= es[0].key < U32_LIMIT
              && var i := FieldIndex(u.variants, es[0].key);
                 if i.Some? then u.variants[i.value].decode(es[0].wire).Some? else u.hasUnknown
    ensures DeserializeUnion(u, es).Ok? ==>
              (DeserializeUnion(u, es).value == Unknown <==> forall i | 0 <= i < |u.variants| :: u.variants[i].tag != es[0].key)
  {
  }

  /** A reader gives back the variant if it has it, and the catch-all, if declared, if it has not. */
  lemma UnionVersions(a: UnionSchema, x: Union, b: UnionSchema)
    requires TypedUnion(a, x) && x.Variant? && LosslessAll(a.variants) && TagsInRange(a.variants)
    requires Compatible(a.variants, b.variants)
    ensures DeserializeUnion(b, SerializeUnion(a, x).value) ==
            if FieldIndex(b.variants, x.tag).Some? then Ok(x) else if b.hasUnknown then Ok(Unknown) else Err(UnknownTag)
  {
    var i := FieldIndex(a.variants, x.tag).value;
    assert Lossless(a.variants[i]);
    var j := FieldIndex(b.variants, x.tag);
    if j.Some? { assert a.variants[i] == b.variants[j.value]; }
  }
}
