/**
  The wire format byte by byte (ts-core/src/serde): what each combinator writes, what it takes for
  an error, and that nothing is read but what some value is written as.
*/
module SerdeWire {
  import opened Common
  import opened Serde

  // ---------------------------------------------------------------- integers

  /** n == 256 * q + r */
  lemma LowByte(n: int, q: int, r: int)
    requires n == 256 * q + r && 0 <= r < 256
    ensures n % 256 == r && n / 256 == q
  {
  }

  lemma DigitsOf(b0: Byte, b1: Byte, b2: Byte, b3: Byte)
    ensures var u := b0 + 256 * (b1 + 256 * (b2 + 256 * b3));
            && u % 256 == b0 && u / 256 == b1 + 256 * (b2 + 256 * b3)
            && u / 256 % 256 == b1 && u / 256 / 256 == b2 + 256 * b3
            && u / 256 / 256 % 256 == b2 && u / 256 / 256 / 256 == b3
  {
    LowByte(b0 + 256 * (b1 + 256 * (b2 + 256 * b3)), b1 + 256 * (b2 + 256 * b3), b0);
    LowByte(b1 + 256 * (b2 + 256 * b3), b2 + 256 * b3, b1);
    LowByte(b2 + 256 * b3, b3, b2);
  }

  /** Every number is a multiple of 2^32 and four bytes. */
  lemma FourDigits(n: int) returns (q: int, b0: Byte, b1: Byte, b2: Byte, b3: Byte)
    ensures n == 0x1_0000_0000 * q + (b0 + 256 * (b1 + 256 * (b2 + 256 * b3)))
  {
    var n1, n2, n3 := n / 256, n / 256 / 256, n / 256 / 256 / 256;
    b0, b1, b2, b3, q := n % 256, n1 % 256, n2 % 256, n3 % 256, n3 / 256;
  }

  lemma SameDigits(n: int, q: int, u: nat)
    requires n == 0x1_0000_0000 * q + u && u < 0x1_0000_0000
    ensures n % 0x1_0000_0000 == u
  {
  }

  lemma DivideTwice(n: int)
    ensures n / 0x1_0000 == n / 256 / 256 && n / 0x100_0000 == n / 256 / 256 / 256
  {
  }

  /** `n` in little-endian order: byte i is (n / 256^i) % 256, of negative numbers as well. */
  lemma UintOnTheWire(n: int)
    ensures Encode(Uint(1), Number(n)) == Ok([n % 256])
    ensures Encode(Uint(2), Number(n)) == Ok([n % 256, n / 0x100 % 256])
    ensures Encode(Uint(4), Number(n)) == Ok([n % 256, n / 0x100 % 256, n / 0x1_0000 % 256, n / 0x100_0000 % 256])
  {
    var q, b0, b1, b2, b3 := FourDigits(n);
    var u := b0 + 256 * (b1 + 256 * (b2 + 256 * b3));
    SameDigits(n, q, u);
    DigitsOf(b0, b1, b2, b3);
    assert n / 256 % 256 == b1 && n / 0x1_0000 % 256 == b2 && n / 0x100_0000 % 256 == b3 && n % 256 == b0 by {
      var r := 0x100_0000 * q;
      LowByte(n, r + b1 + 256 * (b2 + 256 * b3), b0);
      LowByte(n / 256, 0x1_0000 * q + b2 + 256 * b3, b1);
      LowByte(n / 256 / 256, 256 * q + b3, b2);
      LowByte(n / 256 / 256 / 256, q, b3);
      DivideTwice(n);
    }
    UintBytesOf(u);
    assert UintBytes(n, 1) == ToLittleEndian(u, 1);
    assert UintBytes(n, 2) == ToLittleEndian(u, 2);
    assert UintBytes(n, 4) == ToLittleEndian(u, 4);
  }

  lemma UintBytesOf(u: nat)
    ensures ToLittleEndian(u, 1) == [u % 256]
    ensures ToLittleEndian(u, 2) == [u % 256, u / 256 % 256]
    ensures ToLittleEndian(u, 4) == [u % 256, u / 256 % 256, u / 256 / 256 % 256, u / 256 / 256 / 256 % 256]
  {
    var u1, u2, u3 := u / 256, u / 256 / 256, u / 256 / 256 / 256;
    assert ToLittleEndian(u, 1) == [u % 256] + ToLittleEndian(u1, 0);
    assert ToLittleEndian(u, 2) == [u % 256] + ToLittleEndian(u1, 1);
    assert ToLittleEndian(u1, 1) == [u1 % 256] + ToLittleEndian(u2, 0);
    assert ToLittleEndian(u, 4) == [u % 256] + ToLittleEndian(u1, 3);
    assert ToLittleEndian(u1, 3) == [u1 % 256] + ToLittleEndian(u2, 2);
    assert ToLittleEndian(u2, 2) == [u2 % 256] + ToLittleEndian(u3, 1);
    assert ToLittleEndian(u3, 1) == [u3 % 256] + ToLittleEndian(u3 / 256, 0);
  }

  function Weighted(b0: int, b1: int, b2: int, b3: int): int {
    b0 + 0x100 * b1 + 0x1_0000 * b2 + 0x100_0000 * b3
  }

  function Signed(x: int): int {
    if x < 128 then x else x - 256
  }

  function Weights(size: nat, b: Bytes): int
    requires size in {1, 2, 4} && size <= |b|
  {
    if size == 1 then b[0]
    else if size == 2 then Weighted(b[0], b[1], 0, 0)
    else Weighted(b[0], b[1], b[2], Signed(b[3]))
  }

  lemma OneOffTheWire(b: Bytes)
    requires |b| >= 1
    ensures Decode(Uint(1), b) == Decoded(Number(b[0]), b[1..])
  {
    assert b[..1] == [b[0]] + [];
    Weigh(b[0], []);
  }

  lemma TwoOffTheWire(b: Bytes)
    requires |b| >= 2
    ensures Decode(Uint(2), b) == Decoded(Number(Weighted(b[0], b[1], 0, 0)), b[2..])
  {
    hide FromLittleEndian;
    assert b[..2] == [b[0]] + ([b[1]] + []);
    Weigh(b[0], [b[1]] + []);
    Weigh(b[1], []);
  }

  lemma FourOffTheWire(b: Bytes)
    requires |b| >= 4
    ensures Decode(Uint(4), b)
         == Decoded(Number(Weighted(b[0], b[1], b[2], Signed(b[3]))), b[4..])
  {
    hide FromLittleEndian;
    assert b[..4] == [b[0]] + ([b[1]] + ([b[2]] + ([b[3]] + [])));
    Weigh(b[0], [b[1]] + ([b[2]] + ([b[3]] + [])));
    Weigh(b[1], [b[2]] + ([b[3]] + []));
    Weigh(b[2], [b[3]] + []);
    Weigh(b[3], []);
  }

  lemma Weigh(x: Byte, rest: Bytes)
    ensures FromLittleEndian([x] + rest) == x as int + 256 * FromLittleEndian(rest)
    ensures FromLittleEndian([]) == 0
  {
    assert ([x] + rest)[1..] == rest;
  }

  /** The bytes are added up by their weights; of four, the last one carries the sign. */
  lemma UintOffTheWire(size: nat, b: Bytes)
    requires size in {1, 2, 4}
    ensures Decode(Uint(size), b)
         == if |b| < size then Failed(NotEnoughBytes) else Decoded(Number(Weights(size, b)), b[size..])
  {
    if |b| >= size {
      match size
      case 1 => OneOffTheWire(b);
      case 2 => TwoOffTheWire(b);
      case 4 => FourOffTheWire(b);
      hide UintValue;
    }
  }

  // ---------------------------------------------------------------- flags and members

  /** A boolean is one byte, 0 or 1; anything else is an invalid value. */
  lemma BoolOnTheWire(flag: bool, x: Byte, rest: Bytes)
    ensures Encode(Bool, Boolean(flag)) == Ok([if flag then 1 else 0])
    ensures Decode(Bool, []) == Failed(NotEnoughBytes)
    ensures Decode(Bool, [x] + rest)
         == if x == 0 then Decoded(Boolean(false), rest)
            else if x == 1 then Decoded(Boolean(true), rest)
            else Failed(InvalidValue)
  {
    assert ([x] + rest)[1..] == rest;
  }

  /** The flag byte of an optional value is 0 for a missing one, and 1 before one that is there. */
  lemma OptionalOnTheWire(inner: Schema, v: Value, x: Byte, rest: Bytes)
    ensures Encode(Optional(inner), Undefined) == Ok([0])
    ensures v != Undefined && Encode(inner, v).Ok? ==>
              Encode(Optional(inner), v) == Ok([1] + Encode(inner, v).value)
    ensures Decode(Optional(inner), []) == Failed(NotEnoughBytes)
    ensures Decode(Optional(inner), [x] + rest)
         == if x == 0 then Decoded(Undefined, rest)
            else if x == 1 then Decode(inner, rest)
            else Failed(InvalidValue)
  {
    assert ([x] + rest)[1..] == rest;
    if v != Undefined && Encode(inner, v).Ok? {
      PairEncoded(BoolSerializer(true), SerializerOf(inner, v).value);
    }
  }

  /** Read, but no member. */
  predicate IsOther(d: Decoded, members: set<int>) {
    d.Decoded? && !(d.value.Number? && d.value.number in members)
  }

  /** An enum is written as its number is, and only its members are read or written. */
  lemma EnumOnTheWire(members: set<int>, base: Schema, n: int, b: Bytes)
    ensures Encode(Enum(members, base), Number(n)) == if n in members then Encode(base, Number(n)) else Err(Thrown)
    ensures Decode(Enum(members, base), b)
         == if IsOther(Decode(base, b), members) then Failed(InvalidValue) else Decode(base, b)
  {
  }

  // ---------------------------------------------------------------- one after the other

  /** What is written by several serdeables, in this order. */
  function InTurn(first: Result<Bytes>, second: Result<Bytes>): Result<Bytes> {
    if first.Err? then first else if second.Err? then second else Ok(first.value + second.value)
  }

  lemma GroupInTurn(x: Result<Serializer>, rest: Result<seq<Serializer>>)
    ensures Written(Grouped(Joined(x, rest))) == InTurn(Written(x), Written(Grouped(rest)))
  {
    if x.Ok? && rest.Ok? {
      PartsEncoded(x.value, rest.value);
    }
  }

  function Written(x: Result<Serializer>): Result<Bytes> {
    if x.Err? then Err(x.error) else Ok(Encoded(x.value))
  }

  lemma ListWritten(items: seq<Schema>, values: seq<Value>)
    requires |items| == |values|
    ensures Encode(Tuple(items), List(values)) == Written(Grouped(TupleSerializers(items, values)))
  {
  }

  lemma RecordWritten(fields: seq<Field>, values: map<string, Value>)
    ensures Encode(Object(fields), Record(values)) == Written(Grouped(FieldSerializers(fields, values)))
  {
  }

  lemma OneWritten(s: Schema, v: Value)
    ensures Encode(s, v) == Written(SerializerOf(s, v))
  {
  }

  /** A tuple's items are written in order, with nothing between them. */
  lemma TupleOnTheWire(items: seq<Schema>, values: seq<Value>)
    requires |items| == |values|
    ensures Encode(Tuple(items), List(values))
         == if items == [] then Ok([])
            else InTurn(Encode(items[0], values[0]), Encode(Tuple(items[1..]), List(values[1..])))
  {
    ListWritten(items, values);
    if items != [] {
      GroupInTurn(SerializerOf(items[0], values[0]), TupleSerializers(items[1..], values[1..]));
      ListWritten(items[1..], values[1..]);
      OneWritten(items[0], values[0]);
      hide Encode, Written, Grouped, Joined, SerializerOf;
    }
  }

  /** An object's fields are written in the order of the schema, without their names; a field that
      is missing, and not optional, throws. */
  lemma ObjectOnTheWire(fields: seq<Field>, values: map<string, Value>)
    ensures Encode(Object(fields), Record(values))
         == if fields == [] then Ok([])
            else
              var v := if fields[0].name in values then values[fields[0].name] else Undefined;
              if v == Undefined && !fields[0].schema.Optional? then Err(Thrown)
              else InTurn(Encode(fields[0].schema, v), Encode(Object(fields[1..]), Record(values)))
  {
    RecordWritten(fields, values);
    if fields != [] {
      var v := ValueAt(values, fields[0].name);
      GroupInTurn(SerializerOf(fields[0].schema, v), FieldSerializers(fields[1..], values));
      RecordWritten(fields[1..], values);
      OneWritten(fields[0].schema, v);
      hide Encode, SerializerOf, Joined;
    }
  }

  /** The items of a vector, in order. */
  function ItemsInTurn(item: Schema, values: seq<Value>): Result<Bytes> {
    if values == [] then Ok([]) else InTurn(Encode(item, values[0]), ItemsInTurn(item, values[1..]))
  }

  lemma {:induction false} ItemsOnTheWire(item: Schema, values: seq<Value>)
    ensures Written(Grouped(ItemSerializers(item, values))) == ItemsInTurn(item, values)
    decreases |values|
  {
    if values != [] {
      ItemsOnTheWire(item, values[1..]);
      GroupInTurn(SerializerOf(item, values[0]), ItemSerializers(item, values[1..]));
    }
  }

  /** A vector is its length and then its items, in order. */
  lemma VectorOnTheWire(lengths: Schema, item: Schema, values: seq<Value>)
    ensures Encode(Vector(lengths, item), List(values))
         == InTurn(Encode(lengths, Number(|values|)), ItemsInTurn(item, values))
  {
    ItemsOnTheWire(item, values);
    PairInTurn(SerializerOf(lengths, Number(|values|)), Grouped(ItemSerializers(item, values)));
  }

  lemma PairInTurn(x: Result<Serializer>, y: Result<Serializer>)
    ensures Written(Pair(x, y)) == InTurn(Written(x), Written(y))
  {
    if x.Ok? && y.Ok? {
      PairEncoded(x.value, y.value);
    }
  }

  /** Bytes of variable length are their length and then they themselves. */
  lemma BytesOnTheWire(lengths: Schema, bytes: Bytes)
    ensures Encode(VariableBytes(lengths), Blob(bytes)) == InTurn(Encode(lengths, Number(|bytes|)), Ok(bytes))
    ensures Encode(FixedBytes(Some(|bytes|)), Blob(bytes)) == Encode(RemainingBytes, Blob(bytes)) == Ok(bytes)
  {
    PairInTurn(SerializerOf(lengths, Number(|bytes|)), Ok(BytesSerializer(bytes)));
  }

  /** A length below zero is an invalid value, and one beyond the end leaves too few bytes. */
  lemma BytesOffTheWire(lengths: Schema, b: Bytes, n: int, rest: Bytes)
    requires Decode(lengths, b) == Decoded(Number(n), rest)
    ensures Decode(VariableBytes(lengths), b)
         == if n < 0 then Failed(InvalidValue)
            else if n <= |rest| then Decoded(Blob(rest[..n]), rest[n..])
            else Failed(NotEnoughBytes)
  {
  }

  /** A transformation is written as what it is made of, and read by making it again, which may fail. */
  lemma TransformOnTheWire(inner: Schema, forth: Value -> Value, back: Value -> Value, v: Value,
                           b: Bytes, x: Value, rest: Bytes)
    requires Decode(inner, b) == Decoded(x, rest)
    ensures Encode(Transform(inner, forth, back), v) == Encode(inner, back(v))
    ensures Decode(Transform(inner, forth, back), b)
         == if forth(x) == Undefined then Failed(TransformFailed) else Decoded(forth(x), rest)
  {
  }

  /** The alternative an id stands for: the first one of that id. */
  predicate StandsFor(choices: seq<Choice>, i: int, id: int) {
    0 <= i < |choices| && choices[i].id == id && forall j :: 0 <= j < i ==> choices[j].id != id
  }

  /** A variant is one byte for its id and then the alternative of that id; a value that no
      alternative is for throws. */
  lemma VariantOnTheWire(idOf: Value -> int, choices: seq<Choice>, v: Value)
    ensures (forall c <- choices :: c.id != idOf(v)) ==> Encode(Variant(idOf, choices), v) == Err(Thrown)
    ensures forall i :: StandsFor(choices, i, idOf(v)) ==>
              Encode(Variant(idOf, choices), v) == InTurn(Ok([idOf(v) % 256]), Encode(choices[i].schema, v))
  {
    FindsFirst(choices, idOf(v));
    UintOnTheWire(idOf(v));
    var at := Find(choices, idOf(v));
    if at >= 0 {
      PairInTurn(Ok(UintSerializer(idOf(v), 1)), SerializerOf(choices[at].schema, v));
    }
    hide Find, UintBytes, SerializerOf;
  }

  /** An id that no alternative has is an invalid value. */
  lemma VariantOffTheWire(idOf: Value -> int, choices: seq<Choice>, x: Byte, rest: Bytes)
    ensures Decode(Variant(idOf, choices), []) == Failed(NotEnoughBytes)
    ensures (forall c <- choices :: c.id != x) ==> Decode(Variant(idOf, choices), [x] + rest) == Failed(InvalidValue)
    ensures forall i :: StandsFor(choices, i, x) ==>
              Decode(Variant(idOf, choices), [x] + rest) == Decode(choices[i].schema, rest)
  {
    FindsFirst(choices, x);
    OneOffTheWire([x] + rest);
    assert ([x] + rest)[1..] == rest;
    hide Find, UintValue;
  }

  lemma {:induction false} FindsFirst(choices: seq<Choice>, id: int)
    ensures var at := Find(choices, id);
            if at < 0 then forall c <- choices :: c.id != id
            else StandsFor(choices, at, id) && forall i :: StandsFor(choices, i, id) ==> i == at
    decreases |choices|
  {
    if choices != [] {
      FindsFirst(choices[1..], id);
      assert choices == [choices[0]] + choices[1..];
    }
  }

  // ---------------------------------------------------------------- nothing else is read

  /** What was read is what was written: `b` begins with the encoding of the value read. */
  predicate IsWritten(s: Schema, b: Bytes) {
    var d := Decode(s, b);
    d.Decoded? ==> Encode(s, d.value).Ok? && b == Encode(s, d.value).value + d.rest
  }

  /** No value of this schema reads as a missing one. */
  predicate Present(s: Schema)
    decreases s
  {
    match s
    case Optional(_) => false
    case Constant(value) => value != Undefined
    case Variant(_, choices) => forall i :: 0 <= i < |choices| ==> Present(choices[i].schema)
    case Enum(_, base) => Present(base)
    case _ => true
  }

  /** Each value has one encoding only: numbers of items cannot be negative, an optional value is
      not itself a missing one, ids and transformations can be undone. */
  ghost predicate Canonical(s: Schema)
    decreases s
  {
    match s
    case Uint(size) => size in {1, 2, 4}
    case VariableBytes(lengths) => Canonical(lengths)
    case Tuple(items) => forall i :: 0 <= i < |items| ==> Canonical(items[i])
    case Object(fields) =>
      && (forall i :: 0 <= i < |fields| ==>
            Canonical(fields[i].schema) && (fields[i].schema.Optional? || Present(fields[i].schema)))
      && (forall i, j :: 0 <= i < j < |fields| ==> fields[i].name != fields[j].name)
    case Optional(inner) => Canonical(inner) && Present(inner)
    case Vector(lengths, item) => lengths in {Uint(1), Uint(2)} && Canonical(item)
    case Variant(idOf, choices) =>
      forall i :: 0 <= i < |choices| ==>
        && Canonical(choices[i].schema)
        && forall b :: Decode(choices[i].schema, b).Decoded? ==>
             idOf(Decode(choices[i].schema, b).value) == choices[i].id
    case Transform(inner, forth, back) =>
      Canonical(inner) && forall x :: forth(x) != Undefined ==> back(forth(x)) == x
    case Enum(_, base) => Canonical(base)
    case _ => true
  }

  lemma {:induction false} PresentIsNotMissing(s: Schema, b: Bytes)
    requires Present(s) && Decode(s, b).Decoded?
    ensures Decode(s, b).value != Undefined
    decreases s
  {
    match s {
      case Tuple(items) => TupleIsList(items, [], b);
      case Object(fields) => ObjectIsRecord(fields, map[], b);
      case Vector(lengths, item) => ItemsAreList(item, Decode(lengths, b).value.number, [], Decode(lengths, b).rest);
      case Variant(_, choices) =>
        var d := DecodeUint(1, b);
        PresentIsNotMissing(choices[Find(choices, d.value.number)].schema, d.rest);
      case Enum(_, base) => PresentIsNotMissing(base, b);
      case _ =>
    }
  }

  lemma {:induction false} TupleIsList(items: seq<Schema>, done: seq<Value>, b: Bytes)
    ensures DecodeTuple(items, done, b).Decoded? ==> DecodeTuple(items, done, b).value.List?
    decreases |items|
  {
    if items != [] && Decode(items[0], b).Decoded? {
      TupleIsList(items[1..], done + [Decode(items[0], b).value], Decode(items[0], b).rest);
    }
  }

  lemma {:induction false} ItemsAreList(item: Schema, n: int, done: seq<Value>, b: Bytes)
    ensures DecodeItems(item, n, done, b).Decoded? ==> DecodeItems(item, n, done, b).value.List?
    decreases n
  {
    if n > 0 && Decode(item, b).Decoded? {
      ItemsAreList(item, n - 1, done + [Decode(item, b).value], Decode(item, b).rest);
    }
  }

  lemma {:induction false} ObjectIsRecord(fields: seq<Field>, done: map<string, Value>, b: Bytes)
    ensures DecodeFields(fields, done, b).Decoded? ==> DecodeFields(fields, done, b).value.Record?
    decreases |fields|
  {
    if fields != [] && Decode(fields[0].schema, b).Decoded? {
      var d := Decode(fields[0].schema, b);
      ObjectIsRecord(fields[1..], done[fields[0].name := d.value], d.rest);
    }
  }

  lemma UintIsWritten(size: nat, b: Bytes)
    requires size in {1, 2, 4}
    ensures IsWritten(Uint(size), b)
  {
    if size <= |b| {
      var n := UintValue(b[..size]);
      BytesOfValue(b[..size]);
      assert b == b[..size] + b[size..];
    }
  }

  /** Reading and writing again. */
  lemma BytesOfValue(b: Bytes)
    requires |b| in {1, 2, 4}
    ensures UintBytes(UintValue(b), |b|) == b
  {
    var u := FromLittleEndian(b);
    PowersOf256();
    LittleEndianBound(b);
    assert UintValue(b) % 0x1_0000_0000 == u;
    ToAndFrom(b);
  }

  lemma {:induction false} ToAndFrom(b: Bytes)
    ensures ToLittleEndian(FromLittleEndian(b), |b|) == b
    decreases |b|
  {
    if b != [] {
      var rest := FromLittleEndian(b[1..]);
      LowByte(b[0] as int + 256 * rest, rest, b[0]);
      ToAndFrom(b[1..]);
    }
  }

  /** `b` is these bytes and then the rest. */
  predicate Begins(written: Result<Bytes>, b: Bytes, rest: Bytes) {
    written.Ok? && b == written.value + rest
  }

  lemma BeginsInTurn(first: Result<Bytes>, second: Result<Bytes>, b: Bytes, middle: Bytes, rest: Bytes)
    requires Begins(first, b, middle) && Begins(second, middle, rest)
    ensures Begins(InTurn(first, second), b, rest)
  {
    assert first.value + (second.value + rest) == first.value + second.value + rest;
  }

  lemma {:induction false} TupleIsWritten(items: seq<Schema>, done: seq<Value>, b: Bytes) returns (values: seq<Value>)
    requires forall i :: 0 <= i < |items| ==> Canonical(items[i])
    requires DecodeTuple(items, done, b).Decoded?
    ensures |values| == |items| && DecodeTuple(items, done, b).value == List(done + values)
    ensures Begins(Encode(Tuple(items), List(values)), b, DecodeTuple(items, done, b).rest)
    decreases items, 0
  {
    hide Decode, Encode, Canonical;
    if items == [] {
      values := [];
      TupleOnTheWire(items, values);
      assert done + [] == done && [] + b == b;
    } else {
      var d := Decode(items[0], b);
      NothingElseIsRead(items[0], b);
      var rest := TupleIsWritten(items[1..], done + [d.value], d.rest);
      values := [d.value] + rest;
      assert values[1..] == rest && done + [d.value] + rest == done + values;
      TupleOnTheWire(items, values);
      BeginsInTurn(Encode(items[0], d.value), Encode(Tuple(items[1..]), List(rest)), b, d.rest,
                   DecodeTuple(items, done, b).rest);
    }
  }

  lemma {:induction false} ItemsAreWritten(item: Schema, n: nat, done: seq<Value>, b: Bytes)
    returns (values: seq<Value>)
    requires Canonical(item) && DecodeItems(item, n, done, b).Decoded?
    ensures |values| == n && DecodeItems(item, n, done, b).value == List(done + values)
    ensures Begins(ItemsInTurn(item, values), b, DecodeItems(item, n, done, b).rest)
    decreases item, 3, n
  {
    hide Decode, Encode, Canonical;
    if n == 0 {
      values := [];
      assert done + [] == done && [] + b == b;
    } else {
      var d := Decode(item, b);
      NothingElseIsRead(item, b);
      var rest := ItemsAreWritten(item, n - 1, done + [d.value], d.rest);
      values := [d.value] + rest;
      assert values[1..] == rest && done + [d.value] + rest == done + values;
      BeginsInTurn(Encode(item, d.value), ItemsInTurn(item, rest), b, d.rest, DecodeItems(item, n, done, b).rest);
    }
  }

  ghost predicate CanonicalFields(fields: seq<Field>) {
    && (forall i :: 0 <= i < |fields| ==>
          Canonical(fields[i].schema) && (fields[i].schema.Optional? || Present(fields[i].schema)))
    && (forall i, j :: 0 <= i < j < |fields| ==> fields[i].name != fields[j].name)
  }

  lemma {:induction false} FieldsAreWritten(fields: seq<Field>, done: map<string, Value>, b: Bytes)
    returns (values: map<string, Value>)
    requires CanonicalFields(fields) && DecodeFields(fields, done, b).Decoded?
    ensures DecodeFields(fields, done, b).value == Record(values)
    ensures forall name <- done :: name !in Names(fields) ==> name in values && values[name] == done[name]
    ensures Begins(Encode(Object(fields), Record(values)), b, DecodeFields(fields, done, b).rest)
    decreases fields, 0
  {
    hide Decode, Encode, Canonical, Present;
    if fields == [] {
      values := done;
      ObjectOnTheWire(fields, values);
      assert [] + b == b;
    } else {
      var f, d := fields[0], Decode(fields[0].schema, b);
      NothingElseIsRead(f.schema, b);
      values := FieldsAreWritten(fields[1..], done[f.name := d.value], d.rest);
      assert f.name !in Names(fields[1..]) && Names(fields) == {f.name} + Names(fields[1..]) by {
        assert fields == [f] + fields[1..];
      }
      assert values[f.name] == d.value;
      if Present(f.schema) {
        PresentIsNotMissing(f.schema, b);
      }
      ObjectOnTheWire(fields, values);
      BeginsInTurn(Encode(f.schema, d.value), Encode(Object(fields[1..]), Record(values)), b, d.rest,
                   DecodeFields(fields, done, b).rest);
    }
  }

  lemma LeafIsWritten(s: Schema, b: Bytes)
    requires s.Bool? || s.FixedBytes? || s.RemainingBytes? || s.Constant?
    ensures IsWritten(s, b)
  {
    if Decode(s, b).Decoded? {
      match s
      case Bool => assert b == [b[0]] + b[1..];
      case FixedBytes(length) => assert b == b[..length.value] + b[length.value..];
      case RemainingBytes => assert b + [] == b;
      case Constant(_) => assert [] + b == b;
    }
  }

  lemma VariableBytesAreWritten(lengths: Schema, b: Bytes)
    requires IsWritten(lengths, b)
    ensures IsWritten(VariableBytes(lengths), b)
  {
    var d := Decode(VariableBytes(lengths), b);
    if d.Decoded? {
      var n := Decode(lengths, b);
      BytesOnTheWire(lengths, d.value.bytes);
      assert n.rest == d.value.bytes + d.rest;
      BeginsInTurn(Encode(lengths, n.value), Ok(d.value.bytes), b, n.rest, d.rest);
    }
  }

  lemma WrappedIsWritten(s: Schema, inner: Schema, b: Bytes)
    requires Canonical(s) && IsWritten(inner, b)
    requires (s.Transform? && s.inner == inner) || (s.Enum? && s.base == inner)
    ensures IsWritten(s, b)
  {
  }

  lemma {:induction false} CompoundIsWritten(s: Schema, b: Bytes)
    requires Canonical(s) && (s.Tuple? || s.Object?)
    ensures IsWritten(s, b)
    decreases s, 1, 0
  {
    if Decode(s, b).Decoded? {
      match s
      case Tuple(items) =>
        var values := TupleIsWritten(items, [], b);
        assert [] + values == values;
      case Object(fields) => var values := FieldsAreWritten(fields, map[], b);
    }
  }

  /** Whatever bytes are read as a value of a canonical schema begin with that value's encoding:
      nothing else is ever accepted. */
  lemma {:induction false} NothingElseIsRead(s: Schema, b: Bytes)
    requires Canonical(s)
    ensures IsWritten(s, b)
    decreases s, 2, 0
  {
    hide IsWritten;
    match s {
      case Uint(size) => UintIsWritten(size, b);
      case VariableBytes(lengths) =>
        NothingElseIsRead(lengths, b);
        VariableBytesAreWritten(lengths, b);
      case Tuple(items) => CompoundIsWritten(s, b);
      case Object(fields) => CompoundIsWritten(s, b);
      case Optional(inner) => OptionalIsWritten(inner, b);
      case Vector(lengths, item) => VectorIsWritten(lengths, item, b);
      case Variant(idOf, choices) => VariantIsWritten(idOf, choices, b);
      case Transform(inner, _, _) =>
        NothingElseIsRead(inner, b);
        WrappedIsWritten(s, inner, b);
      case Enum(_, base) =>
        NothingElseIsRead(base, b);
        WrappedIsWritten(s, base, b);
      case _ => LeafIsWritten(s, b);
    }
  }

  lemma {:induction false} OptionalIsWritten(inner: Schema, b: Bytes)
    requires Canonical(inner) && Present(inner)
    ensures IsWritten(Optional(inner), b)
    decreases inner, 3, 0
  {
    hide Decode, Encode, Canonical, Present;
    if b == [] {
      OptionalOnTheWire(inner, Undefined, 0, []);
    } else {
      var rest := b[1..];
      assert b == [b[0]] + rest;
      NothingElseIsRead(inner, rest);
      var d := Decode(inner, rest);
      OptionalOnTheWire(inner, if d.Decoded? then d.value else Undefined, b[0], rest);
      if b[0] == 1 && d.Decoded? {
        PresentIsNotMissing(inner, rest);
        BeginsInTurn(Ok([1]), Encode(inner, d.value), b, rest, d.rest);
      }
    }
  }

  lemma {:induction false} VectorIsWritten(lengths: Schema, item: Schema, b: Bytes)
    requires lengths in {Uint(1), Uint(2)} && Canonical(item)
    ensures IsWritten(Vector(lengths, item), b)
    decreases item, 4, 0
  {
    var d := Decode(Vector(lengths, item), b);
    if d.Decoded? {
      var n := Decode(lengths, b);
      UintIsWritten(lengths.size, b);
      UintOffTheWire(lengths.size, b);
      var values := ItemsAreWritten(item, n.value.number, [], n.rest);
      assert [] + values == values;
      VectorOnTheWire(lengths, item, values);
      BeginsInTurn(Encode(lengths, n.value), ItemsInTurn(item, values), b, n.rest, d.rest);
    }
  }

  lemma {:induction false} VariantIsWritten(idOf: Value -> int, choices: seq<Choice>, b: Bytes)
    requires Canonical(Variant(idOf, choices))
    ensures IsWritten(Variant(idOf, choices), b)
    decreases choices, 3, 0
  {
    hide Decode, Encode, Find;
    if b == [] {
      VariantOffTheWire(idOf, choices, 0, []);
    } else {
      var id, rest, at := b[0], b[1..], Find(choices, b[0]);
      assert b == [id] + rest;
      VariantOffTheWire(idOf, choices, id, rest);
      FindsFirst(choices, id);
      if at >= 0 && Decode(choices[at].schema, rest).Decoded? {
        var d := Decode(choices[at].schema, rest);
        NothingElseIsRead(choices[at].schema, rest);
        assert idOf(d.value) == id;
        VariantOnTheWire(idOf, choices, d.value);
        assert [idOf(d.value) % 256] == [id];
        BeginsInTurn(Ok([id]), Encode(choices[at].schema, d.value), b, rest, d.rest);
      }
    }
  }
}
