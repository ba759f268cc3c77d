/**
  The buffers (ts-core/src/net/buffer.ts) and the serializers and deserializers that drive
  them, loop by loop (ts-core/src/serde/array.ts, tuple.ts, object.ts).
*/
module SerdeBuffers {
  import opened Common
  import opened Serde

  /** `Uint8Array.set` */
  method SetBytes(buffer: array<Byte>, offset: nat, bytes: Bytes)
    requires offset + |bytes| <= buffer.Length
    modifies buffer
    ensures buffer[..] == old(buffer[..offset]) + bytes + old(buffer[offset + |bytes|..])
  {
    for i := 0 to |bytes|
      invariant buffer[..offset + i] == old(buffer[..offset]) + bytes[..i]
      invariant buffer[offset + i..] == old(buffer[offset + i..])
    {
      buffer[offset + i] := bytes[i];
      assert buffer[..offset + i + 1] == buffer[..offset + i] + [bytes[i]];
    }
    assert buffer[..] == buffer[..offset + |bytes|] + buffer[offset + |bytes|..];
  }

  class BufferWriter {
    const buffer: array<Byte>
    var offset: nat

    ghost predicate Valid()
      reads this
    {
      offset <= buffer.Length
    }

    ghost function Written(): Bytes
      requires Valid()
      reads this, buffer
    {
      buffer[..offset]
    }

    constructor (buffer: array<Byte>)
      ensures Valid() && this.buffer == buffer && offset == 0
    {
      this.buffer := buffer;
      offset := 0;
    }

    predicate RequireBounds(requested: nat)
      reads this
    {
      offset + requested <= buffer.Length
    }

    /** Writes all the bytes, or none and reports that there is no space. */
    method WriteBytes(bytes: Bytes) returns (ok: bool)
      requires Valid()
      modifies this, buffer
      ensures Valid() && ok == old(RequireBounds(|bytes|))
      ensures Written() == if ok then old(Written()) + bytes else old(Written())
    {
      if !RequireBounds(|bytes|) {
        return false;
      }
      SetBytes(buffer, offset, bytes);
      offset := offset + |bytes|;
      return true;
    }

    /** The buffer, if it was fully written; otherwise this throws. */
    method UnwrapBuffer() returns (result: Option<array<Byte>>)
      requires Valid()
      ensures result == if offset == buffer.Length then Some(buffer) else None
      ensures result.Some? ==> buffer[..] == Written()
    {
      if offset != buffer.Length {
        return None;
      }
      return Some(buffer);
    }
  }

  /** Group by group: succeeds exactly if everything fits into what is left of the buffer. */
  method Serialize(x: Serializer, writer: BufferWriter) returns (ok: bool)
    requires writer.Valid()
    modifies writer, writer.buffer
    ensures writer.Valid()
    ensures ok == (old(writer.offset) + |Encoded(x)| <= writer.buffer.Length)
    ensures ok ==> writer.Written() == old(writer.Written()) + Encoded(x)
    decreases x
  {
    match x {
      case Leaf(_, bytes) =>
        ok := writer.WriteBytes(bytes);
      case Group(parts) =>
        for i := 0 to |parts|
          invariant writer.Valid()
          invariant writer.Written() + AllEncoded(parts[i..]) == old(writer.Written()) + AllEncoded(parts)
        {
          var done := Serialize(parts[i], writer);
          assert parts[i..][1..] == parts[i + 1..];
          if !done {
            return false;
          }
        }
        return true;
    }
  }

  /** `BufferWriter.serialize`: the announced length is what is written, so the buffer never
      overflows and `unwrapBuffer` never throws. */
  method SerializeValue(s: Schema, v: Value) returns (result: Result<array<Byte>>)
    ensures result.Ok? == Encode(s, v).Ok?
    ensures result.Ok? ==> result.value[..] == Encode(s, v).value
  {
    var x := SerializerOf(s, v);
    if x.Err? {
      return Err(x.error);
    }
    LengthIsExact(s, v);
    AnnouncedLength(x.value);
    var buffer := new Byte[SerializedLength(x.value)];
    var writer := new BufferWriter(buffer);
    var done := Serialize(x.value, writer);
    var unwrapped := writer.UnwrapBuffer();
    return Ok(unwrapped.value);
  }

  class BufferReader {
    const buffer: Bytes
    var offset: nat

    ghost predicate Valid()
      reads this
    {
      offset <= |buffer|
    }

    ghost function Rest(): Bytes
      requires Valid()
      reads this
    {
      buffer[offset..]
    }

    constructor (buffer: Bytes)
      ensures Valid() && this.buffer == buffer && Rest() == buffer
    {
      this.buffer := buffer;
      offset := 0;
    }

    predicate RequireBounds(requested: nat)
      reads this
    {
      offset + requested <= |buffer|
    }

    method ReadByte() returns (result: Result<Byte>)
      requires Valid()
      modifies this
      ensures Valid() && result.Ok? == (old(Rest()) != [])
      ensures result.Ok? ==> result.value == old(Rest())[0] && Rest() == old(Rest())[1..]
      ensures result.Err? ==> result.error == NotEnoughBytes && Rest() == old(Rest())
    {
      if !RequireBounds(1) {
        return Err(NotEnoughBytes);
      }
      offset := offset + 1;
      return Ok(buffer[offset - 1]);
    }

    method ReadBytes(length: nat) returns (result: Result<Bytes>)
      requires Valid()
      modifies this
      ensures Valid() && result.Ok? == (length <= |old(Rest())|)
      ensures result.Ok? ==> result.value == old(Rest())[..length] && Rest() == old(Rest())[length..]
      ensures result.Err? ==> result.error == NotEnoughBytes && Rest() == old(Rest())
    {
      if !RequireBounds(length) {
        return Err(NotEnoughBytes);
      }
      offset := offset + length;
      return Ok(buffer[offset - length..offset]);
    }

    function RemainingLength(): nat
      requires Valid()
      reads this
    {
      |buffer| - offset
    }

    /** As many bytes as there are, but no more than asked for. */
    method ReadBytesMax(maxLength: nat) returns (bytes: Bytes)
      requires Valid()
      modifies this
      ensures Valid() && |bytes| == (if maxLength <= |old(Rest())| then maxLength else |old(Rest())|)
      ensures bytes == old(Rest())[..|bytes|] && Rest() == old(Rest())[|bytes|..]
    {
      var readable := |buffer| - offset;
      var result := ReadBytes(if maxLength < readable then maxLength else readable);
      return result.value;
    }

    method ReadRemainingBytes() returns (bytes: Bytes)
      requires Valid()
      modifies this
      ensures Valid() && bytes == old(Rest()) && Rest() == []
    {
      bytes := buffer[offset..];
      offset := |buffer|;
    }
  }

  /** What a deserializer returns and leaves in the reader, against `Decode`. */
  ghost predicate Reads(result: Result<Value>, reader: BufferReader, d: Decoded)
    reads reader
  {
    && reader.Valid()
    && (d.Decoded? ==> result == Ok(d.value) && reader.Rest() == d.rest)
    && (d.Failed? ==> result == Err(d.error))
  }

  method DeserializeUint(size: nat, reader: BufferReader) returns (result: Result<Value>)
    requires reader.Valid()
    modifies reader
    ensures Reads(result, reader, DecodeUint(size, old(reader.Rest())))
    ensures result.Ok? ==> result.value.Number?
  {
    var bytes := reader.ReadBytes(size);
    return if bytes.Ok? then Ok(Number(UintValue(bytes.value))) else Err(bytes.error);
  }

  method DeserializeBool(reader: BufferReader) returns (result: Result<Value>)
    requires reader.Valid()
    modifies reader
    ensures Reads(result, reader, DecodeBool(old(reader.Rest())))
  {
    var byte := reader.ReadByte();
    if byte.Err? {
      return Err(byte.error);
    }
    return match byte.value case 0 => Ok(Boolean(false)) case 1 => Ok(Boolean(true)) case _ => Err(InvalidValue);
  }

  method DeserializeBytes(length: int, reader: BufferReader) returns (result: Result<Value>)
    requires reader.Valid()
    modifies reader
    ensures Reads(result, reader, Take(old(reader.Rest()), length))
  {
    if length < 0 {
      return Err(InvalidValue);
    }
    var bytes := reader.ReadBytes(length);
    return if bytes.Ok? then Ok(Blob(bytes.value)) else Err(bytes.error);
  }

  method Deserialize(s: Schema, reader: BufferReader) returns (result: Result<Value>)
    requires reader.Valid()
    modifies reader
    ensures Reads(result, reader, Decode(s, old(reader.Rest())))
    decreases s, 0
  {
    match s {
      case Bool => result := DeserializeBool(reader);
      case Uint(size) => result := DeserializeUint(size, reader);
      case FixedBytes(length) =>
        if length.None? {
          return Err(Thrown);
        }
        result := DeserializeBytes(length.value, reader);
      case RemainingBytes =>
        var bytes := reader.ReadRemainingBytes();
        result := Ok(Blob(bytes));
      case VariableBytes(lengths) =>
        result := Deserialize(lengths, reader);
        if result.Ok? {
          if !result.value.Number? {
            return Err(InvalidValue);
          }
          result := DeserializeBytes(result.value.number, reader);
        }
      case Tuple(items) => result := DeserializeTuple(items, reader);
      case Object(fields) => result := DeserializeObject(fields, reader);
      case Optional(inner) =>
        result := DeserializeBool(reader);
        if result.Ok? {
          if result.value == Boolean(true) {
            result := Deserialize(inner, reader);
          } else {
            result := Ok(Undefined);
          }
        }
      case Vector(lengths, item) =>
        result := Deserialize(lengths, reader);
        if result.Ok? {
          if !result.value.Number? {
            return Err(InvalidValue);
          }
          result := DeserializeArray(item, result.value.number, reader);
        }
      case Variant(_, choices) =>
        result := DeserializeUint(1, reader);
        if result.Ok? {
          var at := Find(choices, result.value.number);
          if at < 0 {
            return Err(InvalidValue);
          }
          result := Deserialize(choices[at].schema, reader);
        }
      case Transform(inner, forth, _) =>
        result := Deserialize(inner, reader);
        if result.Ok? {
          var transformed := forth(result.value);
          result := if transformed == Undefined then Err(TransformFailed) else Ok(transformed);
        }
      case Enum(members, base) =>
        result := Deserialize(base, reader);
        if result.Ok? && !(result.value.Number? && result.value.number in members) {
          result := Err(InvalidValue);
        }
      case Constant(value) => result := Ok(value);
    }
  }

  method DeserializeTuple(items: seq<Schema>, reader: BufferReader) returns (result: Result<Value>)
    requires reader.Valid()
    modifies reader
    ensures Reads(result, reader, DecodeTuple(items, [], old(reader.Rest())))
    decreases items, 0
  {
    var done: seq<Value> := [];
    for i := 0 to |items|
      invariant reader.Valid()
      invariant DecodeTuple(items, [], old(reader.Rest())) == DecodeTuple(items[i..], done, reader.Rest())
    {
      assert items[i..][1..] == items[i + 1..];
      result := Deserialize(items[i], reader);
      if result.Err? {
        return;
      }
      done := done + [result.value];
    }
    return Ok(List(done));
  }

  method DeserializeArray(item: Schema, length: int, reader: BufferReader) returns (result: Result<Value>)
    requires reader.Valid()
    modifies reader
    ensures Reads(result, reader, DecodeItems(item, length, [], old(reader.Rest())))
    decreases item, 1
  {
    var done: seq<Value> := [];
    var i := 0;
    while i < length
      invariant reader.Valid()
      invariant DecodeItems(item, length, [], old(reader.Rest())) == DecodeItems(item, length - i, done, reader.Rest())
    {
      result := Deserialize(item, reader);
      if result.Err? {
        return;
      }
      done := done + [result.value];
      i := i + 1;
    }
    return Ok(List(done));
  }

  method DeserializeObject(fields: seq<Field>, reader: BufferReader) returns (result: Result<Value>)
    requires reader.Valid()
    modifies reader
    ensures Reads(result, reader, DecodeFields(fields, map[], old(reader.Rest())))
    decreases fields, 0
  {
    var done: map<string, Value> := map[];
    for i := 0 to |fields|
      invariant reader.Valid()
      invariant DecodeFields(fields, map[], old(reader.Rest())) == DecodeFields(fields[i..], done, reader.Rest())
    {
      assert fields[i..][1..] == fields[i + 1..];
      result := Deserialize(fields[i].schema, reader);
      if result.Err? {
        return;
      }
      done := done[fields[i].name := result.value];
    }
    return Ok(Record(done));
  }

  /** Writing a value and reading the buffer again. */
  method WriteAndRead(s: Schema, v: Value) returns (result: Result<Value>)
    requires Proper(s) && Fits(s, v)
    ensures result == Ok(v)
  {
    RoundTrip(s, v, []);
    hide Decode, Encode, Proper, Fits;
    var written := SerializeValue(s, v);
    var bytes := written.value[..];
    assert bytes + [] == bytes;
    var reader := new BufferReader(bytes);
    result := Deserialize(s, reader);
  }
}
