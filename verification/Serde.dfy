/**
  The serde combinators (ts-core/src/serde): schemas, the serializers they build for a value,
  the bytes these write, and the deserializers that read a value back.
*/
module Serde {
  import opened Common

  /** What JavaScript values the serdeables exchange. */
  datatype Value =
    | Undefined
    | Boolean(flag: bool)
    | Number(number: int)
    | Blob(bytes: Bytes)
    | List(items: seq<Value>)
    | Record(fields: map<string, Value>)

  datatype Field = Field(name: string, schema: Schema)
  datatype Choice = Choice(id: int, schema: Schema)

  datatype Schema =
    | Bool
    | Uint(size: nat)   // in bytes
    | FixedBytes(length: Option<nat>)
    | RemainingBytes
    | VariableBytes(lengths: Schema)
    | Tuple(items: seq<Schema>)
    | Object(fields: seq<Field>)
    | Optional(inner: Schema)
    | Vector(lengths: Schema, item: Schema)
    | Variant(idOf: Value -> int, choices: seq<Choice>)
    | Transform(inner: Schema, forth: Value -> Value, back: Value -> Value)
    | Enum(members: set<int>, base: Schema)
    | Constant(value: Value)

  /** `VariantSerdeable` numbers its serdeables from 1; `ManualVariantSerdeable` names ids. */
  function Numbered(schemas: seq<Schema>): seq<Choice> {
    seq(|schemas|, i requires 0 <= i < |schemas| => Choice(i + 1, schemas[i]))
  }

  function Find(choices: seq<Choice>, id: int): (at: int)
    ensures -1 <= at < |choices|
    ensures at >= 0 ==> choices[at].id == id
  {
    if choices == [] then -1
    else if choices[0].id == id then 0
    else
      var rest := Find(choices[1..], id);
      if rest < 0 then -1 else rest + 1
  }

  // ---------------------------------------------------------------- integers

  const WORD := 0x1_0000_0000

  function Pow256(k: nat): nat {
    if k == 0 then 1 else 256 * Pow256(k - 1)
  }

  function ToLittleEndian(n: nat, k: nat): (b: Bytes)
    ensures |b| == k
  {
    if k == 0 then [] else [n % 256] + ToLittleEndian(n / 256, k - 1)
  }

  function FromLittleEndian(b: Bytes): nat {
    if b == [] then 0 else b[0] + 256 * FromLittleEndian(b[1..])
  }

  lemma {:induction false} LittleEndianRoundTrip(n: nat, k: nat)
    requires n < Pow256(k)
    ensures FromLittleEndian(ToLittleEndian(n, k)) == n
    decreases k
  {
    if k > 0 {
      LittleEndianRoundTrip(n / 256, k - 1);
      assert ToLittleEndian(n, k)[1..] == ToLittleEndian(n / 256, k - 1);
    }
  }

  lemma {:induction false} LittleEndianBound(b: Bytes)
    ensures FromLittleEndian(b) < Pow256(|b|)
    decreases |b|
  {
    if b != [] {
      LittleEndianBound(b[1..]);
    }
  }

  /** Shifts and masks work on 32-bit two's complement. */
  function UintBytes(n: int, size: nat): (b: Bytes)
    ensures |b| == size
  {
    ToLittleEndian(n % WORD, size)
  }

  /** The fourth byte is shifted into the sign. */
  function UintValue(b: Bytes): int {
    var u := FromLittleEndian(b);
    if |b| == 4 && u >= WORD / 2 then u - WORD else u
  }

  predicate InUintRange(n: int, size: nat) {
    if size == 4 then -(WORD / 2) <= n < WORD / 2 else 0 <= n < Pow256(size)
  }

  lemma PowersOf256()
    ensures Pow256(1) == 0x100 && Pow256(2) == 0x1_0000 && Pow256(3) == 0x100_0000 && Pow256(4) == WORD
  {
    assert Pow256(1) == 256 * Pow256(0);
    assert Pow256(2) == 256 * Pow256(1);
    assert Pow256(3) == 256 * Pow256(2);
    assert Pow256(4) == 256 * Pow256(3);
  }

  /** An unsigned integer survives exactly if it is below 2^8 or 2^16, and for four bytes
      below 2^31, where negative numbers survive as well. */
  lemma UintRoundTrip(n: int, size: nat)
    requires size in {1, 2, 4}
    ensures UintValue(UintBytes(n, size)) == n <==> InUintRange(n, size)
  {
    PowersOf256();
    var b := UintBytes(n, size);
    LittleEndianBound(b);
    if InUintRange(n, size) {
      LittleEndianRoundTrip(n % WORD, size);
    }
  }

  // ---------------------------------------------------------------- serializers

  /** `length` is what the serializer announces, `bytes` what it writes. */
  datatype Serializer =
    | Leaf(length: nat, bytes: Bytes)
    | Group(parts: seq<Serializer>)

  datatype Error = NotEnoughBytes | InvalidValue | TransformFailed | Thrown

  datatype Result<+T> = Ok(value: T) | Err(error: Error)

  function UintSerializer(n: int, size: nat): Serializer {
    Leaf(size, UintBytes(n, size))
  }

  function BytesSerializer(bytes: Bytes): Serializer {
    Leaf(|bytes|, bytes)
  }

  function BoolSerializer(b: bool): Serializer {
    Leaf(1, if b then [1] else [0])
  }

  /** Serializers are built in one go, and that may throw; values of another type than the
      schema's, which the compiler rejects, count as throwing too. */
  function SerializerOf(s: Schema, v: Value): Result<Serializer>
    decreases s, 0, 0
  {
    match s
    case Bool => if v.Boolean? then Ok(BoolSerializer(v.flag)) else Err(Thrown)
    case Uint(size) => if v.Number? then Ok(UintSerializer(v.number, size)) else Err(Thrown)
    case FixedBytes(_) => if v.Blob? then Ok(BytesSerializer(v.bytes)) else Err(Thrown)
    case RemainingBytes => if v.Blob? then Ok(BytesSerializer(v.bytes)) else Err(Thrown)
    case VariableBytes(lengths) =>
      if !v.Blob? then Err(Thrown) else Pair(SerializerOf(lengths, Number(|v.bytes|)), Ok(BytesSerializer(v.bytes)))
    case Tuple(items) =>
      if v.List? && |v.items| == |items| then Grouped(TupleSerializers(items, v.items)) else Err(Thrown)
    case Object(fields) =>
      if v.Record? then Grouped(FieldSerializers(fields, v.fields)) else Err(Thrown)
    case Optional(inner) =>
      if v == Undefined then Ok(BoolSerializer(false)) else Pair(Ok(BoolSerializer(true)), SerializerOf(inner, v))
    case Vector(lengths, item) =>
      if !v.List? then Err(Thrown)
      else Pair(SerializerOf(lengths, Number(|v.items|)), Grouped(ItemSerializers(item, v.items)))
    case Variant(idOf, choices) =>
      var at := Find(choices, idOf(v));
      if at < 0 then Err(Thrown) else Pair(Ok(UintSerializer(idOf(v), 1)), SerializerOf(choices[at].schema, v))
    case Transform(inner, _, back) => SerializerOf(inner, back(v))
    case Enum(members, base) => if v.Number? && v.number in members then SerializerOf(base, v) else Err(Thrown)
    case Constant(_) => Ok(Leaf(0, []))
  }

  function Pair(first: Result<Serializer>, second: Result<Serializer>): Result<Serializer> {
    if first.Err? then first else if second.Err? then second else Ok(Group([first.value, second.value]))
  }

  function Grouped(parts: Result<seq<Serializer>>): Result<Serializer> {
    if parts.Err? then Err(parts.error) else Ok(Group(parts.value))
  }

  function Joined(first: Result<Serializer>, rest: Result<seq<Serializer>>): Result<seq<Serializer>> {
    if first.Err? then Err(first.error) else if rest.Err? then rest else Ok([first.value] + rest.value)
  }

  function TupleSerializers(items: seq<Schema>, values: seq<Value>): Result<seq<Serializer>>
    requires |items| == |values|
    decreases items, 0, 0
  {
    if items == [] then Ok([])
    else Joined(SerializerOf(items[0], values[0]), TupleSerializers(items[1..], values[1..]))
  }

  function ItemSerializers(item: Schema, values: seq<Value>): Result<seq<Serializer>>
    decreases item, 1, |values|
  {
    if values == [] then Ok([])
    else Joined(SerializerOf(item, values[0]), ItemSerializers(item, values[1..]))
  }

  function ValueAt(fields: map<string, Value>, name: string): Value {
    if name in fields then fields[name] else Undefined
  }

  /** Only optional serdeables accept a missing field. */
  function FieldSerializers(fields: seq<Field>, values: map<string, Value>): Result<seq<Serializer>>
    decreases fields, 0, 0
  {
    if fields == [] then Ok([])
    else
      var f, v := fields[0], ValueAt(values, fields[0].name);
      if !f.schema.Optional? && v == Undefined then Err(Thrown)
      else Joined(SerializerOf(f.schema, v), FieldSerializers(fields[1..], values))
  }

  /** The bytes a serializer writes, in order. */
  function Encoded(x: Serializer): Bytes
    decreases x
  {
    match x
    case Leaf(_, bytes) => bytes
    case Group(parts) => AllEncoded(parts)
  }

  function AllEncoded(parts: seq<Serializer>): Bytes
    decreases parts
  {
    if parts == [] then [] else Encoded(parts[0]) + AllEncoded(parts[1..])
  }

  /** `serializedLength()`. */
  function SerializedLength(x: Serializer): nat
    decreases x
  {
    match x
    case Leaf(length, _) => length
    case Group(parts) => TotalLength(parts)
  }

  function TotalLength(parts: seq<Serializer>): nat
    decreases parts
  {
    if parts == [] then 0 else SerializedLength(parts[0]) + TotalLength(parts[1..])
  }

  /** The bytes of a value, if it can be serialized. */
  function Encode(s: Schema, v: Value): Result<Bytes> {
    match SerializerOf(s, v)
    case Ok(x) => Ok(Encoded(x))
    case Err(e) => Err(e)
  }

  // ---------------------------------------------------------------- deserializers

  datatype Decoded = Decoded(value: Value, rest: Bytes) | Failed(error: Error)

  function Take(b: Bytes, n: int): Decoded {
    if n < 0 then Failed(InvalidValue)
    else if n <= |b| then Decoded(Blob(b[..n]), b[n..]) else Failed(NotEnoughBytes)
  }

  function DecodeBool(b: Bytes): Decoded {
    if b == [] then Failed(NotEnoughBytes)
    else if b[0] == 0 then Decoded(Boolean(false), b[1..])
    else if b[0] == 1 then Decoded(Boolean(true), b[1..])
    else Failed(InvalidValue)
  }

  function DecodeUint(size: nat, b: Bytes): (d: Decoded)
    ensures d.Decoded? ==> d.value.Number?
  {
    if size <= |b| then Decoded(Number(UintValue(b[..size])), b[size..]) else Failed(NotEnoughBytes)
  }

  function Decode(s: Schema, b: Bytes): Decoded
    decreases s, 0, 0
  {
    match s
    case Bool => DecodeBool(b)
    case Uint(size) => DecodeUint(size, b)
    case FixedBytes(length) => if length.None? then Failed(Thrown) else Take(b, length.value)
    case RemainingBytes => Decoded(Blob(b), [])
    case VariableBytes(lengths) =>
      var d := Decode(lengths, b);
      if d.Failed? then d
      else if !d.value.Number? then Failed(InvalidValue)
      else Take(d.rest, d.value.number)
    case Tuple(items) => DecodeTuple(items, [], b)
    case Object(fields) => DecodeFields(fields, map[], b)
    case Optional(inner) =>
      var d := DecodeBool(b);
      if d.Failed? then d
      else if d.value == Boolean(true) then Decode(inner, d.rest)
      else Decoded(Undefined, d.rest)
    case Vector(lengths, item) =>
      var d := Decode(lengths, b);
      if d.Failed? then d
      else if !d.value.Number? then Failed(InvalidValue)
      else DecodeItems(item, d.value.number, [], d.rest)
    case Variant(_, choices) =>
      var d := DecodeUint(1, b);
      if d.Failed? then d
      else
        var at := Find(choices, d.value.number);
        if at < 0 then Failed(InvalidValue) else Decode(choices[at].schema, d.rest)
    case Transform(inner, forth, _) =>
      var d := Decode(inner, b);
      if d.Failed? then d
      else if forth(d.value) == Undefined then Failed(TransformFailed)
      else Decoded(forth(d.value), d.rest)
    case Enum(members, base) =>
      var d := Decode(base, b);
      if d.Failed? then d
      else if d.value.Number? && d.value.number in members then d
      else Failed(InvalidValue)
    case Constant(value) => Decoded(value, b)
  }

  function DecodeTuple(items: seq<Schema>, done: seq<Value>, b: Bytes): Decoded
    decreases items, 0, 0
  {
    if items == [] then Decoded(List(done), b)
    else
      var d := Decode(items[0], b);
      if d.Failed? then d else DecodeTuple(items[1..], done + [d.value], d.rest)
  }

  function DecodeItems(item: Schema, n: int, done: seq<Value>, b: Bytes): Decoded
    decreases item, 1, n
  {
    if n <= 0 then Decoded(List(done), b)
    else
      var d := Decode(item, b);
      if d.Failed? then d else DecodeItems(item, n - 1, done + [d.value], d.rest)
  }

  function DecodeFields(fields: seq<Field>, done: map<string, Value>, b: Bytes): Decoded
    decreases fields, 0, 0
  {
    if fields == [] then Decoded(Record(done), b)
    else
      var d := Decode(fields[0].schema, b);
      if d.Failed? then d else DecodeFields(fields[1..], done[fields[0].name := d.value], d.rest)
  }

  // ---------------------------------------------------------------- which schemas, which values

  /** No remaining-bytes part: the encoding says where it ends. */
  predicate Delimited(s: Schema)
    decreases s, 0
  {
    match s
    case RemainingBytes => false
    case VariableBytes(lengths) => Delimited(lengths)
    case Tuple(items) => forall i :: 0 <= i < |items| ==> Delimited(items[i])
    case Object(fields) => forall i :: 0 <= i < |fields| ==> Delimited(fields[i].schema)
    case Optional(inner) => Delimited(inner)
    case Vector(lengths, item) => Delimited(lengths) && Delimited(item)
    case Variant(_, choices) => forall i :: 0 <= i < |choices| ==> Delimited(choices[i].schema)
    case Transform(inner, _, _) => Delimited(inner)
    case Enum(_, base) => Delimited(base)
    case _ => true
  }

  /** A remaining-bytes part comes last, integers have 1, 2 or 4 bytes, names differ. */
  predicate Proper(s: Schema)
    decreases s
  {
    match s
    case Uint(size) => size in {1, 2, 4}
    case VariableBytes(lengths) => Proper(lengths) && Delimited(lengths)
    case Tuple(items) =>
      forall i :: 0 <= i < |items| ==> Proper(items[i]) && (i < |items| - 1 ==> Delimited(items[i]))
    case Object(fields) =>
      && (forall i :: 0 <= i < |fields| ==>
            Proper(fields[i].schema) && (i < |fields| - 1 ==> Delimited(fields[i].schema)))
      && (forall i, j :: 0 <= i < j < |fields| ==> fields[i].name != fields[j].name)
    case Optional(inner) => Proper(inner)
    case Vector(lengths, item) => Proper(lengths) && Delimited(lengths) && Proper(item) && Delimited(item)
    case Variant(_, choices) => forall i :: 0 <= i < |choices| ==> Proper(choices[i].schema)
    case Transform(inner, _, _) => Proper(inner)
    case Enum(_, base) => Proper(base)
    case _ => true
  }

  /** The values of a schema's type whose numbers are in range. */
  predicate Fits(s: Schema, v: Value)
    decreases s
  {
    match s
    case Bool => v.Boolean?
    case Uint(size) => v.Number? && InUintRange(v.number, size)
    case FixedBytes(length) => v.Blob? && length == Some(|v.bytes|)
    case RemainingBytes => v.Blob?
    case VariableBytes(lengths) => v.Blob? && Fits(lengths, Number(|v.bytes|))
    case Tuple(items) => v.List? && |v.items| == |items| && forall i :: 0 <= i < |items| ==> Fits(items[i], v.items[i])
    case Object(fields) =>
      && v.Record? && v.fields.Keys == Names(fields)
      && forall i :: 0 <= i < |fields| ==> FieldFits(fields[i], ValueAt(v.fields, fields[i].name))
    case Optional(inner) => v == Undefined || Fits(inner, v)
    case Vector(lengths, item) =>
      v.List? && Fits(lengths, Number(|v.items|)) && forall i :: 0 <= i < |v.items| ==> Fits(item, v.items[i])
    case Variant(idOf, choices) =>
      var at := Find(choices, idOf(v));
      InUintRange(idOf(v), 1) && at >= 0 && Fits(choices[at].schema, v)
    case Transform(inner, forth, back) => v != Undefined && forth(back(v)) == v && Fits(inner, back(v))
    case Enum(members, base) => v.Number? && v.number in members && Fits(base, v)
    case Constant(value) => v == value
  }

  predicate FieldFits(f: Field, v: Value)
    decreases f
  {
    Fits(f.schema, v) && (v == Undefined ==> f.schema.Optional?)
  }

  function Names(fields: seq<Field>): set<string> {
    set i | 0 <= i < |fields| :: fields[i].name
  }

  // ---------------------------------------------------------------- the round trip

  lemma {:induction false} LengthIsExact(s: Schema, v: Value)
    ensures SerializerOf(s, v).Ok? ==> Announced(SerializerOf(s, v).value)
    decreases s, 0, 0
  {
    match s {
      case VariableBytes(lengths) =>
        if v.Blob? {
          LengthIsExact(lengths, Number(|v.bytes|));
        }
      case Tuple(items) =>
        if v.List? && |v.items| == |items| {
          TupleLengths(items, v.items);
        }
      case Object(fields) =>
        if v.Record? {
          FieldLengths(fields, v.fields);
        }
      case Optional(inner) => LengthIsExact(inner, v);
      case Vector(lengths, item) =>
        if v.List? {
          LengthIsExact(lengths, Number(|v.items|));
          ItemLengths(item, v.items);
        }
      case Variant(idOf, choices) =>
        if Find(choices, idOf(v)) >= 0 {
          LengthIsExact(choices[Find(choices, idOf(v))].schema, v);
        }
      case Transform(inner, _, back) => LengthIsExact(inner, back(v));
      case Enum(_, base) => LengthIsExact(base, v);
      case _ =>
    }
  }

  predicate Announced(x: Serializer)
    decreases x
  {
    match x
    case Leaf(length, bytes) => length == |bytes|
    case Group(parts) => forall i :: 0 <= i < |parts| ==> Announced(parts[i])
  }

  lemma {:induction false} TupleLengths(items: seq<Schema>, values: seq<Value>)
    requires |items| == |values|
    ensures var r := TupleSerializers(items, values); r.Ok? ==> Announced(Group(r.value))
    decreases items, 0, 0
  {
    if items != [] {
      LengthIsExact(items[0], values[0]);
      TupleLengths(items[1..], values[1..]);
    }
  }

  lemma {:induction false} ItemLengths(item: Schema, values: seq<Value>)
    ensures var r := ItemSerializers(item, values); r.Ok? ==> Announced(Group(r.value))
    decreases item, 1, |values|
  {
    if values != [] {
      LengthIsExact(item, values[0]);
      ItemLengths(item, values[1..]);
    }
  }

  lemma {:induction false} FieldLengths(fields: seq<Field>, values: map<string, Value>)
    ensures var r := FieldSerializers(fields, values); r.Ok? ==> Announced(Group(r.value))
    decreases fields, 0, 0
  {
    if fields != [] {
      LengthIsExact(fields[0].schema, ValueAt(values, fields[0].name));
      FieldLengths(fields[1..], values);
    }
  }

  lemma {:induction false} AnnouncedLength(x: Serializer)
    requires Announced(x)
    ensures SerializedLength(x) == |Encoded(x)|
    decreases x, 0
  {
    if x.Group? {
      AnnouncedTotal(x.parts);
    }
  }

  lemma {:induction false} AnnouncedTotal(parts: seq<Serializer>)
    requires forall i :: 0 <= i < |parts| ==> Announced(parts[i])
    ensures TotalLength(parts) == |AllEncoded(parts)|
    decreases parts, 0
  {
    if parts != [] {
      AnnouncedLength(parts[0]);
      AnnouncedTotal(parts[1..]);
    }
  }

  /** Reading back what was written for `v`, with `t` behind it, gives `v` and leaves `t`. */
  predicate ReadsBack(s: Schema, v: Value, t: Bytes) {
    var e := Encode(s, v);
    e.Ok? && Decode(s, e.value + t) == Decoded(v, t)
  }

  lemma UintReadsBack(n: int, size: nat, t: Bytes)
    requires size in {1, 2, 4} && InUintRange(n, size)
    ensures DecodeUint(size, UintBytes(n, size) + t) == Decoded(Number(n), t)
  {
    UintRoundTrip(n, size);
    assert (UintBytes(n, size) + t)[..size] == UintBytes(n, size);
    assert (UintBytes(n, size) + t)[size..] == t;
  }

  lemma PairEncoded(x: Serializer, y: Serializer)
    ensures Encoded(Group([x, y])) == Encoded(x) + Encoded(y)
  {
    assert [x, y][1..] == [y] && [y][1..] == [];
    assert AllEncoded([y]) == Encoded(y);
  }

  /** A part that announces how the next is read: a length, a flag or an id. */
  lemma HeadReadsBack(head: Bytes, body: Bytes, t: Bytes)
    ensures (head + body) + t == head + (body + t)
  {
  }

  lemma LeafRoundTrip(s: Schema, v: Value, t: Bytes)
    requires s.Bool? || s.Uint? || s.FixedBytes? || s.RemainingBytes? || s.Constant?
    requires Proper(s) && Fits(s, v) && (Delimited(s) || t == [])
    ensures ReadsBack(s, v, t)
  {
    match s {
      case Bool => assert ([0] + t)[1..] == t && ([1] + t)[1..] == t;
      case Uint(size) => UintReadsBack(v.number, size, t);
      case FixedBytes(_) => assert (v.bytes + t)[..|v.bytes|] == v.bytes && (v.bytes + t)[|v.bytes|..] == t;
      case RemainingBytes => assert v.bytes + t == v.bytes;
      case Constant(_) => assert [] + t == t;
      case _ =>
    }
  }

  /** Every value that fits comes back, whatever follows it; nothing may follow a schema that
      ends with remaining bytes. */
  lemma {:induction false} RoundTrip(s: Schema, v: Value, t: Bytes)
    requires Proper(s) && Fits(s, v) && (Delimited(s) || t == [])
    ensures ReadsBack(s, v, t)
    decreases s, 2, 0
  {
    hide Decode, SerializerOf, ReadsBack, Encoded, AllEncoded, Find;
    match s {
      case VariableBytes(lengths) =>
        RoundTrip(lengths, Number(|v.bytes|), v.bytes + t);
        VariableBytesReadsBack(lengths, v.bytes, t);
      case Tuple(items) =>
        TupleRoundTrip(items, [], v.items, t);
        TupleReadsBack(items, v.items, t);
      case Object(fields) =>
        FieldsRoundTrip(fields, map[], v.fields, t);
        ObjectReadsBack(fields, v.fields, t);
      case Optional(inner) =>
        if v != Undefined {
          RoundTrip(inner, v, t);
        }
        OptionalReadsBack(inner, v, t);
      case Vector(lengths, item) =>
        ItemsRoundTrip(item, [], v.items, t);
        RoundTrip(lengths, Number(|v.items|), AllEncoded(ItemSerializers(item, v.items).value) + t);
        VectorReadsBack(lengths, item, v.items, t);
      case Variant(idOf, choices) =>
        RoundTrip(choices[Find(choices, idOf(v))].schema, v, t);
        VariantReadsBack(idOf, choices, v, t);
      case Transform(inner, forth, back) =>
        RoundTrip(inner, back(v), t);
        TransformReadsBack(inner, forth, back, v, t);
      case Enum(members, base) =>
        RoundTrip(base, v, t);
        EnumReadsBack(members, base, v, t);
      case _ => LeafRoundTrip(s, v, t);
    }
  }

  lemma TransformReadsBack(inner: Schema, forth: Value -> Value, back: Value -> Value, v: Value, t: Bytes)
    requires ReadsBack(inner, back(v), t) && forth(back(v)) == v != Undefined
    ensures ReadsBack(Transform(inner, forth, back), v, t)
  {
  }

  lemma EnumReadsBack(members: set<int>, base: Schema, v: Value, t: Bytes)
    requires ReadsBack(base, v, t) && v.Number? && v.number in members
    ensures ReadsBack(Enum(members, base), v, t)
  {
  }

  lemma TupleReadsBack(items: seq<Schema>, values: seq<Value>, t: Bytes)
    requires |items| == |values| && TupleSerializers(items, values).Ok?
    requires DecodeTuple(items, [], AllEncoded(TupleSerializers(items, values).value) + t)
          == Decoded(List([] + values), t)
    ensures ReadsBack(Tuple(items), List(values), t)
  {
    hide DecodeTuple, TupleSerializers, AllEncoded;
    assert [] + values == values;
    assert SerializerOf(Tuple(items), List(values)) == Ok(Group(TupleSerializers(items, values).value));
  }

  lemma ObjectReadsBack(fields: seq<Field>, values: map<string, Value>, t: Bytes)
    requires FieldSerializers(fields, values).Ok?
    requires DecodeFields(fields, map[], AllEncoded(FieldSerializers(fields, values).value) + t)
          == Decoded(Record(values), t)
    ensures ReadsBack(Object(fields), Record(values), t)
  {
  }

  lemma VariableBytesReadsBack(lengths: Schema, bytes: Bytes, t: Bytes)
    requires ReadsBack(lengths, Number(|bytes|), bytes + t)
    ensures ReadsBack(VariableBytes(lengths), Blob(bytes), t)
  {
    var x := SerializerOf(lengths, Number(|bytes|)).value;
    PairEncoded(x, BytesSerializer(bytes));
    HeadReadsBack(Encoded(x), bytes, t);
    assert (bytes + t)[..|bytes|] == bytes && (bytes + t)[|bytes|..] == t;
  }

  lemma PartsEncoded(x: Serializer, rest: seq<Serializer>)
    ensures AllEncoded([x] + rest) == Encoded(x) + AllEncoded(rest)
  {
    assert ([x] + rest)[1..] == rest;
  }

  lemma TupleStep(items: seq<Schema>, done: seq<Value>, values: seq<Value>, t: Bytes)
    requires |items| == |values| > 0 && TupleSerializers(items[1..], values[1..]).Ok?
    requires ReadsBack(items[0], values[0], AllEncoded(TupleSerializers(items[1..], values[1..]).value) + t)
    ensures TupleSerializers(items, values).Ok?
    ensures DecodeTuple(items, done, AllEncoded(TupleSerializers(items, values).value) + t)
         == DecodeTuple(items[1..], done + [values[0]], AllEncoded(TupleSerializers(items[1..], values[1..]).value) + t)
  {
    var x, rest := SerializerOf(items[0], values[0]).value, TupleSerializers(items[1..], values[1..]).value;
    PartsEncoded(x, rest);
    HeadReadsBack(Encoded(x), AllEncoded(rest), t);
  }

  lemma ItemStep(item: Schema, done: seq<Value>, values: seq<Value>, t: Bytes)
    requires values != [] && ItemSerializers(item, values[1..]).Ok?
    requires ReadsBack(item, values[0], AllEncoded(ItemSerializers(item, values[1..]).value) + t)
    ensures ItemSerializers(item, values).Ok?
    ensures DecodeItems(item, |values|, done, AllEncoded(ItemSerializers(item, values).value) + t)
         == DecodeItems(item, |values[1..]|, done + [values[0]],
                        AllEncoded(ItemSerializers(item, values[1..]).value) + t)
  {
    var x, rest := SerializerOf(item, values[0]).value, ItemSerializers(item, values[1..]).value;
    PartsEncoded(x, rest);
    HeadReadsBack(Encoded(x), AllEncoded(rest), t);
  }

  lemma FieldStep(fields: seq<Field>, done: map<string, Value>, values: map<string, Value>, t: Bytes)
    requires fields != [] && FieldSerializers(fields[1..], values).Ok?
    requires var v := ValueAt(values, fields[0].name);
             && (v == Undefined ==> fields[0].schema.Optional?)
             && ReadsBack(fields[0].schema, v, AllEncoded(FieldSerializers(fields[1..], values).value) + t)
    ensures FieldSerializers(fields, values).Ok?
    ensures DecodeFields(fields, done, AllEncoded(FieldSerializers(fields, values).value) + t)
         == DecodeFields(fields[1..], done[fields[0].name := ValueAt(values, fields[0].name)],
                         AllEncoded(FieldSerializers(fields[1..], values).value) + t)
  {
    var x := SerializerOf(fields[0].schema, ValueAt(values, fields[0].name)).value;
    var rest := FieldSerializers(fields[1..], values).value;
    PartsEncoded(x, rest);
    HeadReadsBack(Encoded(x), AllEncoded(rest), t);
  }

  lemma {:induction false} TupleRoundTrip(items: seq<Schema>, done: seq<Value>, values: seq<Value>, t: Bytes)
    requires |items| == |values|
    requires forall i :: 0 <= i < |items| ==>
               Proper(items[i]) && (i < |items| - 1 ==> Delimited(items[i])) && Fits(items[i], values[i])
    requires t == [] || forall i :: 0 <= i < |items| ==> Delimited(items[i])
    ensures TupleSerializers(items, values).Ok?
    ensures DecodeTuple(items, done, AllEncoded(TupleSerializers(items, values).value) + t)
          == Decoded(List(done + values), t)
    decreases items, 0
  {
    hide Decode, SerializerOf, Encoded, Fits, Proper, Delimited, ReadsBack;
    if items == [] {
      assert [] + t == t && done + values == done;
    } else {
      TupleRoundTrip(items[1..], done + [values[0]], values[1..], t);
      var rest := AllEncoded(TupleSerializers(items[1..], values[1..]).value);
      assert |items| == 1 ==> rest == [];
      RoundTrip(items[0], values[0], rest + t);
      TupleStep(items, done, values, t);
      assert done + [values[0]] + values[1..] == done + values;
    }
  }

  lemma {:induction false} ItemsRoundTrip(item: Schema, done: seq<Value>, values: seq<Value>, t: Bytes)
    requires Proper(item) && Delimited(item) && forall i :: 0 <= i < |values| ==> Fits(item, values[i])
    ensures ItemSerializers(item, values).Ok?
    ensures DecodeItems(item, |values|, done, AllEncoded(ItemSerializers(item, values).value) + t)
          == Decoded(List(done + values), t)
    decreases item, 3, |values|
  {
    hide Decode, SerializerOf, Encoded, Fits, Proper, Delimited, ReadsBack;
    if values == [] {
      assert [] + t == t && done + values == done;
    } else {
      ItemsRoundTrip(item, done + [values[0]], values[1..], t);
      var rest := AllEncoded(ItemSerializers(item, values[1..]).value);
      RoundTrip(item, values[0], rest + t);
      ItemStep(item, done, values, t);
      assert done + [values[0]] + values[1..] == done + values;
    }
  }

  lemma VectorReadsBack(lengths: Schema, item: Schema, values: seq<Value>, t: Bytes)
    requires ItemSerializers(item, values).Ok?
    requires DecodeItems(item, |values|, [], AllEncoded(ItemSerializers(item, values).value) + t)
          == Decoded(List([] + values), t)
    requires ReadsBack(lengths, Number(|values|), AllEncoded(ItemSerializers(item, values).value) + t)
    ensures ReadsBack(Vector(lengths, item), List(values), t)
  {
    hide ItemSerializers, DecodeItems, AllEncoded;
    var parts := ItemSerializers(item, values).value;
    var x := SerializerOf(lengths, Number(|values|)).value;
    PairEncoded(x, Group(parts));
    HeadReadsBack(Encoded(x), AllEncoded(parts), t);
    assert [] + values == values;
  }

  lemma OptionalReadsBack(inner: Schema, v: Value, t: Bytes)
    requires v == Undefined || ReadsBack(inner, v, t)
    ensures ReadsBack(Optional(inner), v, t)
  {
    if v == Undefined {
      assert ([0] + t)[1..] == t;
    } else {
      var x := SerializerOf(inner, v).value;
      PairEncoded(BoolSerializer(true), x);
      HeadReadsBack([1], Encoded(x), t);
      assert ([1] + (Encoded(x) + t))[1..] == Encoded(x) + t;
    }
  }

  lemma VariantReadsBack(idOf: Value -> int, choices: seq<Choice>, v: Value, t: Bytes)
    requires InUintRange(idOf(v), 1) && Find(choices, idOf(v)) >= 0
    requires ReadsBack(choices[Find(choices, idOf(v))].schema, v, t)
    ensures ReadsBack(Variant(idOf, choices), v, t)
  {
    var x := SerializerOf(choices[Find(choices, idOf(v))].schema, v).value;
    UintReadsBack(idOf(v), 1, Encoded(x) + t);
    PairEncoded(UintSerializer(idOf(v), 1), x);
    HeadReadsBack(UintBytes(idOf(v), 1), Encoded(x), t);
  }

  /** The names left and the names done are those of the record. */
  lemma {:induction false} FieldsRoundTrip(fields: seq<Field>, done: map<string, Value>,
                                            values: map<string, Value>, t: Bytes)
    requires forall i :: 0 <= i < |fields| ==>
               Proper(fields[i].schema) && (i < |fields| - 1 ==> Delimited(fields[i].schema))
    requires forall i :: 0 <= i < |fields| ==>
               fields[i].name in values && FieldFits(fields[i], ValueAt(values, fields[i].name))
    requires t == [] || forall i :: 0 <= i < |fields| ==> Delimited(fields[i].schema)
    requires done.Keys + Names(fields) == values.Keys && forall k <- done :: done[k] == values[k]
    ensures FieldSerializers(fields, values).Ok?
    ensures DecodeFields(fields, done, AllEncoded(FieldSerializers(fields, values).value) + t)
          == Decoded(Record(values), t)
    decreases fields, 0
  {
    if fields == [] {
      assert [] + t == t && done == values;
    } else {
      var f, v := fields[0], ValueAt(values, fields[0].name);
      assert Names(fields) == {f.name} + Names(fields[1..]) by {
        assert fields == [f] + fields[1..];
      }
      assert FieldFits(f, v);
      FieldsRoundTrip(fields[1..], done[f.name := v], values, t);
      var rest := AllEncoded(FieldSerializers(fields[1..], values).value);
      assert |fields| == 1 ==> rest == [];
      RoundTrip(f.schema, v, rest + t);
      FieldStep(fields, done, values, t);
    }
  }

  /** Different values have encodings of which none is the beginning of the other, so frames
      made of them can be told apart. */
  lemma PrefixFree(s: Schema, v: Value, w: Value)
    requires Proper(s) && Delimited(s) && Fits(s, v) && Fits(s, w)
    requires Encode(s, v).Ok? && Encode(s, w).Ok? && Encode(s, v).value <= Encode(s, w).value
    ensures v == w
  {
    hide Decode, Encode, Proper, Fits, Delimited;
    var x, y := Encode(s, v).value, Encode(s, w).value;
    RoundTrip(s, v, y[|x|..]);
    RoundTrip(s, w, []);
    assert x + y[|x|..] == y && y + [] == y;
  }

  // ---------------------------------------------------------------- where it ends

  lemma {:induction false} DecodedCount(item: Schema, n: int, done: seq<Value>, b: Bytes)
    ensures var d := DecodeItems(item, n, done, b);
            d.Decoded? ==> d.value.List? && |d.value.items| == |done| + if n < 0 then 0 else n
    decreases n
  {
    if n > 0 {
      var d := Decode(item, b);
      if d.Decoded? {
        DecodedCount(item, n - 1, done + [d.value], d.rest);
      }
    }
  }

  /** A vector is read back with as many items as its length field holds. */
  lemma VectorDecoded(size: nat, item: Schema, values: seq<Value>, t: Bytes)
    requires ItemSerializers(item, values).Ok?
    ensures var s, n := Vector(Uint(size), item), |values|;
            && Encode(s, List(values)).Ok?
            && Decode(s, Encode(s, List(values)).value + t)
            == DecodeItems(item, UintValue(UintBytes(n, size)), [], AllEncoded(ItemSerializers(item, values).value) + t)
  {
    hide DecodeItems, ItemSerializers, AllEncoded;
    var s, n := Vector(Uint(size), item), |values|;
    var parts := ItemSerializers(item, values).value;
    var body := AllEncoded(parts) + t;
    PairEncoded(UintSerializer(n, size), Group(parts));
    assert SerializerOf(Uint(size), Number(n)) == Ok(UintSerializer(n, size));
    assert SerializerOf(s, List(values)) == Ok(Group([UintSerializer(n, size), Group(parts)]));
    HeadReadsBack(UintBytes(n, size), AllEncoded(parts), t);
    assert (UintBytes(n, size) + body)[..size] == UintBytes(n, size);
    assert (UintBytes(n, size) + body)[size..] == body;
  }

  lemma VectorTooLong(size: nat, item: Schema, values: seq<Value>, t: Bytes)
    requires size in {1, 2, 4} && Proper(item) && Delimited(item)
    requires forall i :: 0 <= i < |values| ==> Fits(item, values[i])
    requires !InUintRange(|values|, size)
    ensures !ReadsBack(Vector(Uint(size), item), List(values), t)
  {
    hide DecodeItems, ItemSerializers, AllEncoded, Encode, Decode, Proper, Fits, Delimited, UintValue, UintBytes;
    var n := |values|;
    UintRoundTrip(n, size);
    ItemsRoundTrip(item, [], values, t);
    VectorDecoded(size, item, values, t);
    DecodedCount(item, UintValue(UintBytes(n, size)), [], AllEncoded(ItemSerializers(item, values).value) + t);
    PowersOf256();
  }

  /** A vector of values that fit comes back exactly if its length fits the length field:
      255 items with the default of one byte. */
  lemma VectorRoundTrip(size: nat, item: Schema, values: seq<Value>, t: Bytes)
    requires size in {1, 2, 4} && Proper(item) && Delimited(item)
    requires forall i :: 0 <= i < |values| ==> Fits(item, values[i])
    ensures ReadsBack(Vector(Uint(size), item), List(values), t) <==> InUintRange(|values|, size)
  {
    if InUintRange(|values|, size) {
      RoundTrip(Vector(Uint(size), item), List(values), t);
    } else {
      VectorTooLong(size, item, values, t);
    }
  }

  lemma VariableBytesDecoded(size: nat, bytes: Bytes, t: Bytes)
    requires size in {1, 2, 4}
    ensures var s, n := VariableBytes(Uint(size)), UintValue(UintBytes(|bytes|, size));
            Encode(s, Blob(bytes)).Ok? && Decode(s, Encode(s, Blob(bytes)).value + t) == Take(bytes + t, n)
  {
    hide UintValue, UintBytes;
    var s, n := VariableBytes(Uint(size)), |bytes|;
    PairEncoded(UintSerializer(n, size), BytesSerializer(bytes));
    assert SerializerOf(Uint(size), Number(n)) == Ok(UintSerializer(n, size));
    HeadReadsBack(UintBytes(n, size), bytes, t);
  }

  /** Bytes of any length come back exactly if that length fits the length field. */
  lemma VariableBytesRoundTrip(size: nat, bytes: Bytes, t: Bytes)
    requires size in {1, 2, 4}
    ensures ReadsBack(VariableBytes(Uint(size)), Blob(bytes), t) <==> InUintRange(|bytes|, size)
  {
    UintRoundTrip(|bytes|, size);
    if InUintRange(|bytes|, size) {
      RoundTrip(VariableBytes(Uint(size)), Blob(bytes), t);
    } else {
      hide Encode, Decode, UintValue, UintBytes;
      VariableBytesDecoded(size, bytes, t);
    }
  }

  /** Decoding takes bytes away and never adds any. */
  lemma {:induction false} RestShrinks(s: Schema, b: Bytes)
    ensures Decode(s, b).Decoded? ==> |Decode(s, b).rest| <= |b|
    decreases s, 0, 0
  {
    match s {
      case VariableBytes(lengths) => RestShrinks(lengths, b);
      case Tuple(items) => TupleShrinks(items, [], b);
      case Object(fields) => FieldsShrink(fields, map[], b);
      case Optional(inner) =>
        if DecodeBool(b).Decoded? {
          RestShrinks(inner, DecodeBool(b).rest);
        }
      case Vector(lengths, item) =>
        var d := Decode(lengths, b);
        RestShrinks(lengths, b);
        if d.Decoded? && d.value.Number? {
          ItemsShrink(item, d.value.number, [], d.rest);
        }
      case Variant(_, choices) =>
        var d := DecodeUint(1, b);
        if d.Decoded? && Find(choices, d.value.number) >= 0 {
          RestShrinks(choices[Find(choices, d.value.number)].schema, d.rest);
        }
      case Transform(inner, _, _) => RestShrinks(inner, b);
      case Enum(_, base) => RestShrinks(base, b);
      case _ =>
    }
  }

  lemma {:induction false} TupleShrinks(items: seq<Schema>, done: seq<Value>, b: Bytes)
    ensures DecodeTuple(items, done, b).Decoded? ==> |DecodeTuple(items, done, b).rest| <= |b|
    decreases items, 0, 0
  {
    if items != [] {
      var d := Decode(items[0], b);
      RestShrinks(items[0], b);
      if d.Decoded? {
        TupleShrinks(items[1..], done + [d.value], d.rest);
      }
    }
  }

  lemma {:induction false} ItemsShrink(item: Schema, n: int, done: seq<Value>, b: Bytes)
    ensures DecodeItems(item, n, done, b).Decoded? ==> |DecodeItems(item, n, done, b).rest| <= |b|
    decreases item, 1, n
  {
    if n > 0 {
      var d := Decode(item, b);
      RestShrinks(item, b);
      if d.Decoded? {
        ItemsShrink(item, n - 1, done + [d.value], d.rest);
      }
    }
  }

  lemma {:induction false} FieldsShrink(fields: seq<Field>, done: map<string, Value>, b: Bytes)
    ensures DecodeFields(fields, done, b).Decoded? ==> |DecodeFields(fields, done, b).rest| <= |b|
    decreases fields, 0, 0
  {
    if fields != [] {
      var d := Decode(fields[0].schema, b);
      RestShrinks(fields[0].schema, b);
      if d.Decoded? {
        FieldsShrink(fields[1..], done[fields[0].name := d.value], d.rest);
      }
    }
  }

  /** Its decoder needs at least one byte. */
  predicate Hungry(s: Schema) {
    Decode(s, []).Failed?
  }

  lemma {:induction false} TupleStarves(items: seq<Schema>, done: seq<Value>, j: nat)
    requires j < |items| && Hungry(items[j])
    ensures DecodeTuple(items, done, []).Failed?
    decreases |items|
  {
    if j > 0 {
      var d := Decode(items[0], []);
      RestShrinks(items[0], []);
      if d.Decoded? {
        TupleStarves(items[1..], done + [d.value], j - 1);
      }
    }
  }

  lemma {:induction false} FieldsStarve(fields: seq<Field>, done: map<string, Value>, j: nat)
    requires j < |fields| && Hungry(fields[j].schema)
    ensures DecodeFields(fields, done, []).Failed?
    decreases |fields|
  {
    if j > 0 {
      var d := Decode(fields[0].schema, []);
      RestShrinks(fields[0].schema, []);
      if d.Decoded? {
        FieldsStarve(fields[1..], done[fields[0].name := d.value], j - 1);
      }
    }
  }

  /** Behind remaining bytes no field that needs a byte can be read any more: such a tuple never
      decodes, whatever its other fields. */
  lemma {:induction false} NothingAfterRemaining(items: seq<Schema>, done: seq<Value>, b: Bytes, i: nat, j: nat)
    requires i < j < |items| && items[i].RemainingBytes? && Hungry(items[j])
    ensures DecodeTuple(items, done, b).Failed?
    decreases |items|
  {
    var d := Decode(items[0], b);
    if d.Decoded? {
      if i == 0 {
        TupleStarves(items[1..], done + [d.value], j - 1);
      } else {
        NothingAfterRemaining(items[1..], done + [d.value], d.rest, i - 1, j - 1);
      }
    }
  }

  /** And no such object. */
  lemma {:induction false} NoFieldAfterRemaining(
    fields: seq<Field>, done: map<string, Value>, b: Bytes, i: nat, j: nat)
    requires i < j < |fields| && fields[i].schema.RemainingBytes? && Hungry(fields[j].schema)
    ensures DecodeFields(fields, done, b).Failed?
    decreases |fields|
  {
    var d := Decode(fields[0].schema, b);
    if d.Decoded? {
      if i == 0 {
        FieldsStarve(fields[1..], done[fields[0].name := d.value], j - 1);
      } else {
        NoFieldAfterRemaining(fields[1..], done[fields[0].name := d.value], d.rest, i - 1, j - 1);
      }
    }
  }

  /** So no value of such a schema ever comes back. */
  lemma NeverReadsBack(s: Schema, v: Value, t: Bytes, i: nat, j: nat)
    requires i < j
    requires match s
             case Tuple(items) => j < |items| && items[i].RemainingBytes? && Hungry(items[j])
             case Object(fields) => j < |fields| && fields[i].schema.RemainingBytes? && Hungry(fields[j].schema)
             case _ => false
    ensures !ReadsBack(s, v, t)
  {
    if Encode(s, v).Ok? {
      if s.Tuple? {
        NothingAfterRemaining(s.items, [], Encode(s, v).value + t, i, j);
      } else {
        NoFieldAfterRemaining(s.fields, map[], Encode(s, v).value + t, i, j);
      }
    }
  }

  /** An object serializes only if every field but the optional ones has a value. */
  lemma {:induction false} FieldsNeedValues(fields: seq<Field>, values: map<string, Value>, i: nat)
    requires i < |fields| && FieldSerializers(fields, values).Ok?
    ensures ValueAt(values, fields[i].name) == Undefined ==> fields[i].schema.Optional?
    decreases |fields|
  {
    if i > 0 {
      FieldsNeedValues(fields[1..], values, i - 1);
    }
  }

  /** `VariantSerdeable`: index `id` is the serdeable at `id - 1`, and 0 is none. */
  lemma {:induction false} NumberedFrom1(schemas: seq<Schema>, id: int)
    ensures Find(Numbered(schemas), id) == if 1 <= id <= |schemas| then id - 1 else -1
  {
    FindFrom(Numbered(schemas), 1, id);
  }

  lemma {:induction false} FindFrom(choices: seq<Choice>, start: int, id: int)
    requires forall i :: 0 <= i < |choices| ==> choices[i].id == start + i
    ensures Find(choices, id) == if start <= id < start + |choices| then id - start else -1
    decreases |choices|
  {
    if choices != [] && choices[0].id != id {
      FindFrom(choices[1..], start + 1, id);
    }
  }
}
