/**
  Frames on a serial line (ts-core/media/serial-core/index.ts): the resumable deserializer,
  fed with chunks of any size, against an automaton that takes one byte at a time.
*/
module SerialDecoder {
  import opened Common
  import opened Serde
  import opened SerdeBuffers

  const PREAMBLE_LENGTH := 8
  const NORMAL_PREAMBLE_VALUE: Byte := 0xAA
  const LAST_PREAMBLE_VALUE: Byte := 0xAB

  /** The byte expected at an index of the preamble. */
  function PreambleAt(i: nat): Byte
    requires i < PREAMBLE_LENGTH
  {
    if i == PREAMBLE_LENGTH - 1 then LAST_PREAMBLE_VALUE else NORMAL_PREAMBLE_VALUE
  }

  function Normal(k: nat): Bytes {
    seq(k, _ => NORMAL_PREAMBLE_VALUE)
  }

  function Preamble(): Bytes {
    Normal(PREAMBLE_LENGTH - 1) + [LAST_PREAMBLE_VALUE]
  }

  /** ts-core/src/net/link/frame.ts:4-11 */
  predicate IsProtocol(p: int) {
    0 <= p <= 5
  }

  datatype SerialFrame = SerialFrame(protocol: int, sender: Byte, receiver: Byte, payload: Bytes)

  // ---------------------------------------------------------------- the encoder

  const PROTOCOL := Field("protocol", Enum({0, 1, 2, 3, 4, 5}, Uint(1)))
  const SENDER := Field("sender", Uint(1))
  const RECEIVER := Field("receiver", Uint(1))
  const LENGTH := Field("length", Uint(1))
  const PAYLOAD := Field("payload", RemainingBytes)
  const FRAME_SCHEMA := Object([PROTOCOL, SENDER, RECEIVER, LENGTH, PAYLOAD])

  function FrameFields(f: SerialFrame): map<string, Value> {
    map["protocol" := Number(f.protocol), "sender" := Number(f.sender), "receiver" := Number(f.receiver),
        "length" := Number(|f.payload|), "payload" := Blob(f.payload)]
  }

  function HeaderBytes(f: SerialFrame): Bytes
    requires IsProtocol(f.protocol)
  {
    [f.protocol, f.sender, f.receiver, |f.payload| % 256]
  }

  function FrameBytes(f: SerialFrame): Bytes
    requires IsProtocol(f.protocol)
  {
    Preamble() + HeaderBytes(f) + f.payload
  }

  /** The line: seven bytes 0xAA and one 0xAB, the protocol, sender, receiver, length and payload. */
  lemma FrameOnTheLine(f: SerialFrame)
    requires 0 <= f.protocol <= 5
    ensures IsProtocol(f.protocol)
    ensures FrameBytes(f) == [0xAA, 0xAA, 0xAA, 0xAA, 0xAA, 0xAA, 0xAA, 0xAB]
                           + [f.protocol, f.sender, f.receiver, |f.payload| % 256] + f.payload
  {
    assert Normal(7) == [0xAA, 0xAA, 0xAA, 0xAA, 0xAA, 0xAA, 0xAA];
  }

  lemma CutTwice(n: int)
    ensures n % WORD % 256 == n % 256
  {
    var q, r := n / WORD, n % WORD;
    LowByte(n, 0x100_0000 * q + r / 256, r % 256);
  }

  lemma LowByte(n: int, q: int, r: int)
    requires n == 256 * q + r && 0 <= r < 256
    ensures n % 256 == r
  {
  }

  lemma OneByteWritten(n: int)
    ensures UintBytes(n, 1) == [n % WORD % 256]
  {
  }

  lemma ByteEncoded(n: int)
    ensures SerializerOf(Uint(1), Number(n)) == Ok(Leaf(1, [n % 256]))
  {
    OneByteWritten(n);
    CutTwice(n);
    hide UintBytes;
  }

  lemma FieldEncoded(f: Field, rest: seq<Field>, values: map<string, Value>, x: Serializer, parts: seq<Serializer>)
    requires ValueAt(values, f.name) != Undefined && SerializerOf(f.schema, ValueAt(values, f.name)) == Ok(x)
    requires FieldSerializers(rest, values) == Ok(parts)
    ensures FieldSerializers([f] + rest, values) == Ok([x] + parts)
    ensures AllEncoded([x] + parts) == Encoded(x) + AllEncoded(parts)
  {
    assert ([f] + rest)[1..] == rest;
    PartsEncoded(x, parts);
  }

  lemma FrameValues(f: SerialFrame)
    ensures ValueAt(FrameFields(f), "protocol") == Number(f.protocol)
    ensures ValueAt(FrameFields(f), "sender") == Number(f.sender)
    ensures ValueAt(FrameFields(f), "receiver") == Number(f.receiver)
    ensures ValueAt(FrameFields(f), "length") == Number(|f.payload|)
    ensures ValueAt(FrameFields(f), "payload") == Blob(f.payload)
  {
    assert "protocol"[0] == 'p' && "receiver"[0] == 'r' && "sender"[0] == 's' && "length"[0] == 'l';
  }

  lemma LengthAndPayload(values: map<string, Value>, bytes: Bytes)
    requires ValueAt(values, "length") == Number(|bytes|) && ValueAt(values, "payload") == Blob(bytes)
    ensures FieldSerializers([LENGTH] + ([PAYLOAD] + []), values)
         == Ok([Leaf(1, [|bytes| % 256])] + ([BytesSerializer(bytes)] + []))
    ensures AllEncoded([Leaf(1, [|bytes| % 256])] + ([BytesSerializer(bytes)] + [])) == [|bytes| % 256] + bytes
  {
    ByteEncoded(|bytes|);
    FieldEncoded(PAYLOAD, [], values, BytesSerializer(bytes), []);
    FieldEncoded(LENGTH, [PAYLOAD] + [], values, Leaf(1, [|bytes| % 256]), [BytesSerializer(bytes)] + []);
  }

  /** What the object serdeable writes behind the preamble.  The length is cut to one byte. */
  lemma FrameSchemaBytes(f: SerialFrame)
    requires IsProtocol(f.protocol)
    ensures Encode(FRAME_SCHEMA, Record(FrameFields(f))) == Ok(HeaderBytes(f) + f.payload)
  {
    var values, n := FrameFields(f), |f.payload|;
    FrameValues(f);
    hide FrameFields, FieldSerializers, AllEncoded, ValueAt;
    LengthAndPayload(values, f.payload);
    var fields3 := [LENGTH] + ([PAYLOAD] + []);
    var parts3 := [Leaf(1, [n % 256])] + ([BytesSerializer(f.payload)] + []);
    ByteEncoded(f.receiver);
    FieldEncoded(RECEIVER, fields3, values, Leaf(1, [f.receiver]), parts3);
    var fields2, parts2 := [RECEIVER] + fields3, [Leaf(1, [f.receiver])] + parts3;
    ByteEncoded(f.sender);
    FieldEncoded(SENDER, fields2, values, Leaf(1, [f.sender]), parts2);
    var fields1, parts1 := [SENDER] + fields2, [Leaf(1, [f.sender])] + parts2;
    ByteEncoded(f.protocol);
    FieldEncoded(PROTOCOL, fields1, values, Leaf(1, [f.protocol]), parts1);
    assert FRAME_SCHEMA.fields == [PROTOCOL] + fields1;
    assert SerializerOf(FRAME_SCHEMA, Record(values)) == Ok(Group([Leaf(1, [f.protocol])] + parts1));
    assert Encoded(Group([Leaf(1, [f.protocol])] + parts1)) == AllEncoded([Leaf(1, [f.protocol])] + parts1);
    assert HeaderBytes(f) + f.payload == [f.protocol] + ([f.sender] + ([f.receiver] + ([n % 256] + f.payload)));
  }

  // ---------------------------------------------------------------- one byte at a time

  datatype Header = Header(protocol: int, sender: Byte, receiver: Byte, length: Byte)

  datatype Phase =
    | InPreamble(index: nat)
    | InHeader(got: Bytes)
    | InBody(header: Header, body: Bytes)
    | Dead   // the generator has thrown

  datatype Progress = Progress(phase: Phase, frames: seq<SerialFrame>)

  const START := InPreamble(0)

  ghost predicate Live(p: Phase) {
    match p
    case InPreamble(i) => i < PREAMBLE_LENGTH
    case InHeader(got) => |got| < 4 && (got != [] ==> IsProtocol(got[0]))
    case InBody(header, body) => |body| < header.length
    case Dead => true
  }

  /** Once the body has all its bytes the frame is complete. */
  function BodySoFar(header: Header, body: Bytes): Progress {
    if |body| >= header.length
    then Progress(START, [SerialFrame(header.protocol, header.sender, header.receiver, body)])
    else Progress(InBody(header, body), [])
  }

  function Feed(p: Phase, b: Byte): Progress
    requires Live(p)
  {
    match p
    case InPreamble(i) =>
      // A byte that does not match is not looked at again.
      Progress(if b != PreambleAt(i) then START
               else if i + 1 < PREAMBLE_LENGTH then InPreamble(i + 1) else InHeader([]), [])
    case InHeader(got) =>
      if got == [] && !IsProtocol(b) then Progress(Dead, [])
      else if |got| < 3 then Progress(InHeader(got + [b]), [])
      else BodySoFar(Header(got[0], got[1], got[2], b), [])
    case InBody(header, body) => BodySoFar(header, body + [b])
    case Dead => Progress(Dead, [])
  }

  function Run(p: Phase, bytes: Bytes): (r: Progress)
    requires Live(p)
    ensures Live(r.phase)
    decreases |bytes|
  {
    if bytes == [] then Progress(p, [])
    else Then(Feed(p, bytes[0]).frames, Run(Feed(p, bytes[0]).phase, bytes[1..]))
  }

  function Then(frames: seq<SerialFrame>, r: Progress): Progress {
    Progress(r.phase, frames + r.frames)
  }

  /** Where the bytes are cut makes no difference. */
  lemma {:induction false} RunSplits(p: Phase, a: Bytes, b: Bytes)
    requires Live(p)
    ensures Run(p, a + b) == Then(Run(p, a).frames, Run(Run(p, a).phase, b))
    decreases |a|
  {
    if a == [] {
      assert a + b == b;
      WithoutMore(Run(p, b));
    } else {
      var now, rest := Feed(p, a[0]), a[1..];
      assert a == [a[0]] + rest && a + b == [a[0]] + (rest + b);
      OneByte(p, a[0], rest);
      OneByte(p, a[0], rest + b);
      hide Run;
      RunSplits(now.phase, rest, b);
      ThenThen(now.frames, Run(now.phase, rest).frames, Run(Run(now.phase, rest).phase, b));
    }
  }

  lemma ThenThen(x: seq<SerialFrame>, y: seq<SerialFrame>, r: Progress)
    ensures Then(x, Then(y, r)) == Then(x + y, r)
  {
    assert x + (y + r.frames) == x + y + r.frames;
  }

  /** What has been received, and what the rest of a chunk brings. */
  function Ahead(received: seq<SerialFrame>, p: Phase, rest: Bytes): Progress
    requires Live(p)
  {
    Then(received, Run(p, rest))
  }

  lemma RunFurther(received: seq<SerialFrame>, p: Phase, taken: Bytes, rest: Bytes,
                   received': seq<SerialFrame>, p': Phase)
    requires Live(p) && Progress(p', received') == Ahead(received, p, taken)
    ensures Live(p') && Ahead(received, p, taken + rest) == Ahead(received', p', rest)
  {
    hide Run;
    RunSplits(p, taken, rest);
    ThenThen(received, Run(p, taken).frames, Run(p', rest));
  }

  lemma AheadOne(received: seq<SerialFrame>, p: Phase, b: Byte)
    requires Live(p)
    ensures Ahead(received, p, [b]) == Then(received, Feed(p, b))
  {
    OneByte(p, b, []);
    assert [b] + [] == [b];
    NoBytes(Feed(p, b));
  }

  lemma NothingAhead(received: seq<SerialFrame>, p: Phase, rest: Bytes)
    requires Live(p) && (rest == [] || p.Dead?)
    ensures Ahead(received, p, rest) == Progress(p, received)
  {
    if p.Dead? {
      DeadRun(rest);
    }
    assert received + [] == received;
  }

  function Flatten(chunks: seq<Bytes>): Bytes {
    if chunks == [] then [] else chunks[0] + Flatten(chunks[1..])
  }

  function RunChunks(p: Phase, chunks: seq<Bytes>): Progress
    requires Live(p)
    decreases |chunks|
  {
    if chunks == [] then Progress(p, [])
    else Then(Run(p, chunks[0]).frames, RunChunks(Run(p, chunks[0]).phase, chunks[1..]))
  }

  lemma {:induction false} ChunksDoNotMatter(p: Phase, chunks: seq<Bytes>)
    requires Live(p)
    ensures RunChunks(p, chunks) == Run(p, Flatten(chunks))
    decreases |chunks|
  {
    if chunks != [] {
      ChunksDoNotMatter(Run(p, chunks[0]).phase, chunks[1..]);
      RunSplits(p, chunks[0], Flatten(chunks[1..]));
    }
  }

  // ---------------------------------------------------------------- preamble and body

  lemma RoundAndRound(i: nat, k: nat)
    requires i < PREAMBLE_LENGTH && k > 0
    ensures ((if i + 1 < PREAMBLE_LENGTH then i + 1 else 0) + (k - 1)) % PREAMBLE_LENGTH == (i + k) % PREAMBLE_LENGTH
  {
  }

  /** Normal preamble bytes go round and round. */
  lemma {:induction false} NormalRun(i: nat, k: nat)
    requires i < PREAMBLE_LENGTH
    ensures Run(InPreamble(i), Normal(k)) == Progress(InPreamble((i + k) % PREAMBLE_LENGTH), [])
    decreases k
  {
    if k > 0 {
      var i' := if i + 1 < PREAMBLE_LENGTH then i + 1 else 0;
      assert Normal(k) == [NORMAL_PREAMBLE_VALUE] + Normal(k - 1);
      OneByte(InPreamble(i), NORMAL_PREAMBLE_VALUE, Normal(k - 1));
      hide Run;
      NormalRun(i', k - 1);
      WithoutMore(Run(InPreamble(i'), Normal(k - 1)));
      RoundAndRound(i, k);
    }
  }

  /** A preamble is recognized exactly if the search is at its beginning: otherwise the search
      starts anew behind it, and that frame is lost. */
  lemma PreambleAlignment(i: nat)
    requires i < PREAMBLE_LENGTH
    ensures Run(InPreamble(i), Preamble()) == Progress(if i == 0 then InHeader([]) else START, [])
  {
    hide Run, Normal;
    var j := (i + 7) % PREAMBLE_LENGTH;
    assert j == if i == 0 then 7 else i - 1;
    NormalRun(i, PREAMBLE_LENGTH - 1);
    Silent(InPreamble(i), Normal(PREAMBLE_LENGTH - 1), InPreamble(j), [LAST_PREAMBLE_VALUE]);
    AheadOne([], InPreamble(j), LAST_PREAMBLE_VALUE);
    WithoutMore(Run(InPreamble(j), [LAST_PREAMBLE_VALUE]));
    WithoutMore(Feed(InPreamble(j), LAST_PREAMBLE_VALUE));
  }

  /** The body takes what it needs, and the rest starts a new frame. */
  lemma {:induction false} BodyRun(header: Header, body: Bytes, bytes: Bytes)
    requires |body| < header.length && |body| + |bytes| <= header.length && bytes != []
    ensures Run(InBody(header, body), bytes) == BodySoFar(header, body + bytes)
    decreases |bytes|
  {
    var b, rest := bytes[0], bytes[1..];
    assert bytes == [b] + rest && body + [b] + rest == body + bytes;
    OneByte(InBody(header, body), b, rest);
    hide Run;
    if rest == [] {
      NoBytes(BodySoFar(header, body + [b]));
      assert body + bytes == body + [b];
    } else {
      BodyRun(header, body + [b], rest);
      WithoutMore(BodySoFar(header, body + bytes));
    }
  }

  lemma NoBytes(r: Progress)
    requires Live(r.phase)
    ensures Then(r.frames, Run(r.phase, [])) == r
  {
    assert r.frames + [] == r.frames;
  }

  lemma HeaderStep(got: Bytes, b: Byte, rest: Bytes)
    requires |got| < 3 && IsProtocol((got + [b])[0])
    ensures Run(InHeader(got), [b] + rest) == Run(InHeader(got + [b]), rest)
  {
    OneByte(InHeader(got), b, rest);
    WithoutMore(Run(InHeader(got + [b]), rest));
  }

  lemma HeaderEnds(got: Bytes, b: Byte)
    requires |got| == 3 && IsProtocol(got[0])
    ensures Run(InHeader(got), [b]) == BodySoFar(Header(got[0], got[1], got[2], b), [])
  {
    OneByte(InHeader(got), b, []);
    assert [b] + [] == [b];
  }

  lemma HeaderRun(h: Bytes)
    requires |h| == 4 && IsProtocol(h[0])
    ensures Run(InHeader([]), h) == BodySoFar(Header(h[0], h[1], h[2], h[3]), [])
  {
    hide Run;
    assert h == [h[0]] + h[1..] && h[1..] == [h[1]] + h[2..] && h[2..] == [h[2]] + [h[3]];
    HeaderStep([], h[0], h[1..]);
    HeaderStep([h[0]], h[1], h[2..]);
    HeaderStep([h[0], h[1]], h[2], [h[3]]);
    assert [] + [h[0]] == [h[0]] && [h[0]] + [h[1]] == [h[0], h[1]] && [h[0], h[1]] + [h[2]] == [h[0], h[1], h[2]];
    HeaderEnds([h[0], h[1], h[2]], h[3]);
  }

  lemma WithoutMore(r: Progress)
    ensures Then([], r) == r
  {
    assert [] + r.frames == r.frames;
  }

  lemma OneByte(p: Phase, b: Byte, rest: Bytes)
    requires Live(p)
    ensures Run(p, [b] + rest) == Then(Feed(p, b).frames, Run(Feed(p, b).phase, rest))
  {
    assert ([b] + rest)[1..] == rest;
  }

  lemma {:induction false} DeadRun(bytes: Bytes)
    ensures Run(Dead, bytes) == Progress(Dead, [])
    decreases |bytes|
  {
    if bytes != [] {
      DeadRun(bytes[1..]);
    }
  }

  /** An unknown protocol number ends the decoding for good. */
  lemma UnknownProtocolIsFatal(protocol: Byte, rest: Bytes)
    requires protocol > 5
    ensures Run(START, Preamble() + [protocol] + rest) == Progress(Dead, [])
  {
    PreambleAlignment(0);
    RunSplits(START, Preamble(), [protocol] + rest);
    assert Preamble() + [protocol] + rest == Preamble() + ([protocol] + rest);
    assert ([protocol] + rest)[1..] == rest;
    DeadRun(rest);
  }

  // ---------------------------------------------------------------- frames

  lemma PayloadRun(header: Header, payload: Bytes)
    requires |payload| >= header.length
    ensures Then(BodySoFar(header, []).frames, Run(BodySoFar(header, []).phase, payload))
         == Then([SerialFrame(header.protocol, header.sender, header.receiver, payload[..header.length])],
                 Run(START, payload[header.length..]))
  {
    var n := header.length;
    assert payload == payload[..n] + payload[n..];
    if n > 0 {
      BodyRun(header, [], payload[..n]);
      RunSplits(InBody(header, []), payload[..n], payload[n..]);
      assert [] + payload[..n] == payload[..n];
    } else {
      assert payload[..n] == [] && payload[n..] == payload;
    }
  }

  /** A frame is decoded, whatever follows, as the frame with as much of its payload as the
      length byte says. */
  lemma FrameRun(f: SerialFrame)
    requires IsProtocol(f.protocol)
    ensures var n := |f.payload| % 256;
            Run(START, FrameBytes(f)) == Then([f.(payload := f.payload[..n])], Run(START, f.payload[n..]))
  {
    var n, h := |f.payload| % 256, HeaderBytes(f);
    assert FrameBytes(f) == Preamble() + (h + f.payload);
    assert f.(payload := f.payload[..n]) == SerialFrame(h[0], h[1], h[2], f.payload[..h[3]]);
    hide Preamble, Run, BodySoFar, HeaderBytes, FrameBytes, Normal, PreambleAt, Then, Feed;
    PreambleAlignment(0);
    Silent(START, Preamble(), InHeader([]), h + f.payload);
    HeaderAndPayloadRun(h, f.payload);
  }

  lemma HeaderAndPayloadRun(h: Bytes, payload: Bytes)
    requires |h| == 4 && IsProtocol(h[0]) && h[3] <= |payload|
    ensures Run(InHeader([]), h + payload)
         == Then([SerialFrame(h[0], h[1], h[2], payload[..h[3]])], Run(START, payload[h[3]..]))
  {
    hide Run;
    HeaderRun(h);
    RunSplits(InHeader([]), h, payload);
    PayloadRun(Header(h[0], h[1], h[2], h[3]), payload);
  }

  lemma Silent(p: Phase, taken: Bytes, q: Phase, rest: Bytes)
    requires Live(p) && Run(p, taken) == Progress(q, [])
    ensures Run(p, taken + rest) == Run(q, rest)
  {
    RunSplits(p, taken, rest);
    assert [] + Run(q, rest).frames == Run(q, rest).frames;
  }

  /** A frame comes through alone exactly if its payload is at most 255 bytes long. */
  lemma FrameRoundTrip(f: SerialFrame)
    requires IsProtocol(f.protocol)
    ensures Run(START, FrameBytes(f)) == Progress(START, [f]) <==> |f.payload| <= 255
  {
    FrameRun(f);
    var n := |f.payload| % 256;
    if |f.payload| <= 255 {
      assert f.payload[..n] == f.payload && f.payload[n..] == [];
    } else {
      assert |f.payload[..n]| != |f.payload|;
      assert Run(START, FrameBytes(f)).frames[0] != f;
    }
  }

  predicate Sendable(f: SerialFrame) {
    IsProtocol(f.protocol) && |f.payload| <= 255
  }

  predicate AllSendable(frames: seq<SerialFrame>) {
    forall i :: 0 <= i < |frames| ==> Sendable(frames[i])
  }

  function FramesBytes(frames: seq<SerialFrame>): Bytes
    requires AllSendable(frames)
  {
    if frames == [] then [] else FrameBytes(frames[0]) + FramesBytes(frames[1..])
  }

  lemma {:induction false} FramesRun(frames: seq<SerialFrame>)
    requires AllSendable(frames)
    ensures Run(START, FramesBytes(frames)) == Progress(START, frames)
    decreases |frames|
  {
    if frames != [] {
      FrameRoundTrip(frames[0]);
      FramesRun(frames[1..]);
      RunSplits(START, FrameBytes(frames[0]), FramesBytes(frames[1..]));
    }
  }

  // ---------------------------------------------------------------- noise

  /** How many normal preamble bytes stand at the end. */
  function Trailing(noise: Bytes): nat {
    if noise == [] || noise[|noise| - 1] != NORMAL_PREAMBLE_VALUE then 0 else 1 + Trailing(noise[..|noise| - 1])
  }

  /** A last preamble byte behind 7 normal ones, or 15, or 23, ... */
  predicate CompletesAt(noise: Bytes, i: nat) {
    i < |noise| && noise[i] == LAST_PREAMBLE_VALUE && Trailing(noise[..i]) % PREAMBLE_LENGTH == PREAMBLE_LENGTH - 1
  }

  ghost predicate HoldsPreamble(noise: Bytes) {
    exists i: nat :: CompletesAt(noise, i)
  }

  /** The index at which a search stands that has not found a preamble. */
  function Searched(noise: Bytes): Progress {
    Progress(InPreamble(Trailing(noise) % PREAMBLE_LENGTH), [])
  }

  lemma NextIndex(t: nat)
    ensures (t + 1) % PREAMBLE_LENGTH
         == if t % PREAMBLE_LENGTH + 1 < PREAMBLE_LENGTH then t % PREAMBLE_LENGTH + 1 else 0
  {
  }

  lemma OneMoreByte(noise: Bytes, b: Byte)
    ensures Trailing(noise + [b]) == if b == NORMAL_PREAMBLE_VALUE then Trailing(noise) + 1 else 0
    ensures HoldsPreamble(noise) ==> HoldsPreamble(noise + [b])
    ensures HoldsPreamble(noise + [b]) ==> HoldsPreamble(noise) || CompletesAt(noise + [b], |noise|)
    ensures CompletesAt(noise + [b], |noise|)
       <==> b == LAST_PREAMBLE_VALUE && Trailing(noise) % PREAMBLE_LENGTH == PREAMBLE_LENGTH - 1
  {
    assert (noise + [b])[..|noise|] == noise;
    forall i: nat | i < |noise| ensures CompletesAt(noise + [b], i) <==> CompletesAt(noise, i) {
      assert (noise + [b])[..i] == noise[..i];
    }
    if i: nat :| CompletesAt(noise, i) {
      assert CompletesAt(noise + [b], i);
    }
    if i: nat :| CompletesAt(noise + [b], i) && i != |noise| {
      assert CompletesAt(noise, i);
    }
  }

  lemma {:induction false} SearchGoesOn(noise: Bytes)
    requires !HoldsPreamble(noise)
    ensures Run(START, noise) == Searched(noise)
    decreases |noise|
  {
    if noise != [] {
      var n := |noise| - 1;
      var before, b := noise[..n], noise[n];
      assert noise == before + [b];
      OneMoreByte(before, b);
      SearchGoesOn(before);
      NextIndex(Trailing(before));
      Silent(START, before, InPreamble(Trailing(before) % PREAMBLE_LENGTH), [b]);
      LastByte(InPreamble(Trailing(before) % PREAMBLE_LENGTH), b);
    }
  }

  lemma LastByte(p: Phase, b: Byte)
    requires Live(p)
    ensures Run(p, [b]) == Feed(p, b)
  {
    OneByte(p, b, []);
    assert [b] + [] == [b];
    NoBytes(Feed(p, b));
  }

  /** Behind noise that holds no preamble, a preamble is recognized exactly if the noise ends
      in a multiple of eight normal preamble bytes, none being the usual case. */
  lemma NoiseThenPreamble(noise: Bytes)
    requires !HoldsPreamble(noise)
    ensures Run(START, noise + Preamble())
         == Progress(if Trailing(noise) % PREAMBLE_LENGTH == 0 then InHeader([]) else START, [])
  {
    var i := Trailing(noise) % PREAMBLE_LENGTH;
    SearchGoesOn(noise);
    Silent(START, noise, InPreamble(i), Preamble());
    PreambleAlignment(i);
  }

  /** Once a preamble was found, the search does not begin again without a frame. */
  ghost predicate Found(r: Progress) {
    r.frames != [] || !r.phase.InPreamble?
  }

  lemma {:induction false} FoundStays(p: Phase, bytes: Bytes)
    requires Live(p) && !p.InPreamble?
    ensures Found(Run(p, bytes))
    decreases |bytes|
  {
    if bytes != [] {
      var now := Feed(p, bytes[0]);
      if !now.phase.InPreamble? {
        FoundStays(now.phase, bytes[1..]);
      }
    }
  }

  /** The search has found nothing exactly if the noise holds no preamble. */
  lemma {:induction false} NoiseExactly(noise: Bytes)
    ensures Run(START, noise) == Searched(noise) <==> !HoldsPreamble(noise)
    decreases |noise|
  {
    if !HoldsPreamble(noise) {
      SearchGoesOn(noise);
    } else {
      var n := |noise| - 1;
      var before, b := noise[..n], noise[n];
      assert noise == before + [b];
      OneMoreByte(before, b);
      NoiseExactly(before);
      if HoldsPreamble(before) {
        PreambleFound(before);
        RunSplits(START, before, [b]);
        FoundGoesOn(Run(START, before), b);
      } else {
        Silent(START, before, InPreamble(PREAMBLE_LENGTH - 1), [b]);
        LastByte(InPreamble(PREAMBLE_LENGTH - 1), b);
      }
    }
  }

  lemma FoundGoesOn(r: Progress, b: Byte)
    requires Live(r.phase) && Found(r)
    ensures Found(Then(r.frames, Run(r.phase, [b])))
  {
    if r.frames == [] {
      FoundStays(r.phase, [b]);
    }
  }

  lemma {:induction false} PreambleFound(noise: Bytes)
    requires HoldsPreamble(noise)
    ensures Found(Run(START, noise))
    decreases |noise|
  {
    var n := |noise| - 1;
    var before, b := noise[..n], noise[n];
    assert noise == before + [b];
    OneMoreByte(before, b);
    if HoldsPreamble(before) {
      PreambleFound(before);
      RunSplits(START, before, [b]);
      FoundGoesOn(Run(START, before), b);
    } else {
      SearchGoesOn(before);
      Silent(START, before, InPreamble(PREAMBLE_LENGTH - 1), [b]);
      LastByte(InPreamble(PREAMBLE_LENGTH - 1), b);
    }
  }

  /** Bytes already taken of the frame that is being read. */
  function Taken(p: Phase): nat {
    match p
    case InPreamble(i) => i
    case InHeader(got) => PREAMBLE_LENGTH + |got|
    case InBody(_, body) => PREAMBLE_LENGTH + 4 + |body|
    case Dead => 0
  }

  /** The bytes of these frames on the line. */
  function Room(frames: seq<SerialFrame>): nat {
    if frames == [] then 0 else PREAMBLE_LENGTH + 4 + |frames[0].payload| + Room(frames[1..])
  }

  lemma {:induction false} RoomOfBoth(x: seq<SerialFrame>, y: seq<SerialFrame>)
    ensures Room(x + y) == Room(x) + Room(y)
    decreases |x|
  {
    if x == [] {
      assert x + y == y;
    } else {
      assert (x + y)[1..] == x[1..] + y;
      RoomOfBoth(x[1..], y);
    }
  }

  lemma FeedTakesRoom(p: Phase, b: Byte)
    requires Live(p)
    ensures Room(Feed(p, b).frames) + Taken(Feed(p, b).phase) <= Taken(p) + 1
  {
  }

  /** No frames are decoded from fewer bytes than they have together. */
  lemma {:induction false} FramesTakeRoom(p: Phase, bytes: Bytes)
    requires Live(p)
    ensures Room(Run(p, bytes).frames) <= Taken(p) + |bytes|
    decreases |bytes|
  {
    if bytes != [] {
      var now := Feed(p, bytes[0]);
      FeedTakesRoom(p, bytes[0]);
      FramesTakeRoom(now.phase, bytes[1..]);
      RoomOfBoth(now.frames, Run(now.phase, bytes[1..]).frames);
    }
  }

  lemma {:induction false} EachTakesRoom(frames: seq<SerialFrame>, f: SerialFrame)
    requires f in frames
    ensures PREAMBLE_LENGTH + 4 + |f.payload| <= Room(frames)
    decreases |frames|
  {
    if f != frames[0] {
      EachTakesRoom(frames[1..], f);
    }
  }

  /** Behind noise that holds no preamble, a frame is decoded exactly if the noise ends in a
      multiple of eight normal preamble bytes; then it is all that is decoded. */
  lemma NoiseThenFrame(noise: Bytes, f: SerialFrame)
    requires !HoldsPreamble(noise) && Sendable(f)
    ensures f in Run(START, noise + FrameBytes(f)).frames <==> Trailing(noise) % PREAMBLE_LENGTH == 0
    ensures Trailing(noise) % PREAMBLE_LENGTH == 0 ==> Run(START, noise + FrameBytes(f)) == Progress(START, [f])
  {
    hide Run;
    var i, rest := Trailing(noise) % PREAMBLE_LENGTH, HeaderBytes(f) + f.payload;
    SearchGoesOn(noise);
    Silent(START, noise, InPreamble(i), FrameBytes(f));
    if i == 0 {
      FrameRoundTrip(f);
    } else {
      PreambleAlignment(i);
      assert FrameBytes(f) == Preamble() + rest;
      Silent(InPreamble(i), Preamble(), START, rest);
      if f in Run(START, rest).frames {
        FramesTakeRoom(START, rest);
        EachTakesRoom(Run(START, rest).frames, f);
      }
    }
  }

  /** Noise without normal preamble bytes never gets in the way. */
  lemma NoiseIsSkipped(noise: Bytes, f: SerialFrame)
    requires NORMAL_PREAMBLE_VALUE !in noise && Sendable(f)
    ensures Run(START, noise + FrameBytes(f)) == Progress(START, [f])
  {
    forall i: nat ensures !CompletesAt(noise, i) {
      if i <= |noise| {
        assert forall x <- noise[..i] :: x in noise;
        NoneTrailing(noise[..i]);
      }
    }
    NoneTrailing(noise);
    NoiseThenFrame(noise, f);
  }

  lemma NoneTrailing(noise: Bytes)
    requires NORMAL_PREAMBLE_VALUE !in noise
    ensures Trailing(noise) == 0
  {
  }

  // ---------------------------------------------------------------- the deserializer

  /** What a new deserializer makes of the chunks dispatched to it.  The first one only starts
      its generator: the argument of the first `next` is lost. */
  function Dispatched(chunks: seq<Bytes>): Progress {
    if chunks == [] then Progress(START, []) else RunChunks(START, chunks[1..])
  }

  /** However the encoded frames are cut into chunks, empty ones included: dispatched after a
      first chunk, they arrive, all and in order. */
  lemma DeserializerInvertsSerializer(chunks: seq<Bytes>, frames: seq<SerialFrame>)
    requires chunks != [] && AllSendable(frames) && Flatten(chunks[1..]) == FramesBytes(frames)
    ensures Dispatched(chunks) == Progress(START, frames)
  {
    ChunksDoNotMatter(START, chunks[1..]);
    FramesRun(frames);
  }

  lemma {:induction false} FramesHaveRoom(frames: seq<SerialFrame>)
    requires AllSendable(frames)
    ensures |FramesBytes(frames)| == Room(frames)
    decreases |frames|
  {
    if frames != [] {
      FramesHaveRoom(frames[1..]);
    }
  }

  /** Of any partition of the encoding the frames arrive exactly if its first chunk is empty:
      a single byte in the first chunk costs a frame. */
  lemma AnyPartitionExactly(chunks: seq<Bytes>, frames: seq<SerialFrame>)
    requires chunks != [] && AllSendable(frames) && Flatten(chunks) == FramesBytes(frames)
    ensures Dispatched(chunks).frames == frames <==> chunks[0] == []
  {
    var rest := Flatten(chunks[1..]);
    ChunksDoNotMatter(START, chunks[1..]);
    if chunks[0] == [] {
      assert Flatten(chunks) == rest;
      FramesRun(frames);
    } else {
      FramesTakeRoom(START, rest);
      FramesHaveRoom(frames);
    }
  }

  datatype Stage = Hunting | ReadingHeader | ReadingBody | Broken

  class SerialFrameDeserializer {
    var started: bool
    var stage: Stage
    var index: nat          // in the preamble
    var got: Bytes          // of the header
    var header: Header
    var body: array<Byte>
    var offset: nat         // in the body
    var received: seq<SerialFrame>

    ghost predicate Valid()
      reads this, body
    {
      && Live(View())
      && (stage.ReadingBody? ==> offset < body.Length == header.length)
      && (!started ==> View() == START && received == [])
    }

    ghost function View(): Phase
      reads this, body
    {
      match stage
      case Hunting => InPreamble(index)
      case ReadingHeader => InHeader(got)
      case ReadingBody => InBody(header, if offset <= body.Length then body[..offset] else [])
      case Broken => Dead
    }

    constructor ()
      ensures Valid() && fresh(body) && !started
    {
      started, stage, index, got, offset, received := false, Hunting, 0, [], 0, [];
      header := Header(0, 0, 0, 0);
      body := new Byte[0];
    }

    ghost predicate Ready(reader: BufferReader)
      reads this, body, reader
    {
      Valid() && started && reader.Valid()
    }

    method NextPreambleByte(reader: BufferReader) returns (ghost taken: Bytes)
      requires Ready(reader) && stage.Hunting? && reader.Rest() != []
      modifies this, reader
      ensures Ready(reader) && body == old(body)
      ensures taken != [] && old(reader.Rest()) == taken + reader.Rest()
      ensures Progress(View(), received) == Ahead(old(received), old(View()), taken)
    {
      var byte := reader.ReadByte();
      taken := [byte.value];
      AheadOne(received, View(), byte.value);
      if byte.value != PreambleAt(index) {
        index := 0;
      } else if index + 1 < PREAMBLE_LENGTH {
        index := index + 1;
      } else {
        stage, got := ReadingHeader, [];
      }
    }

    method NextHeaderByte(reader: BufferReader) returns (ghost taken: Bytes)
      requires Ready(reader) && stage.ReadingHeader? && reader.Rest() != []
      modifies this, reader
      ensures Ready(reader) && (body == old(body) || fresh(body))
      ensures taken != [] && old(reader.Rest()) == taken + reader.Rest()
      ensures Progress(View(), received) == Ahead(old(received), old(View()), taken)
    {
      var byte := reader.ReadByte();
      taken := [byte.value];
      AheadOne(received, View(), byte.value);
      if got == [] && !IsProtocol(byte.value) {
        stage := Broken;
      } else if |got| < 3 {
        got := got + [byte.value];
      } else {
        header := Header(got[0], got[1], got[2], byte.value);
        stage, body, offset := ReadingBody, new Byte[header.length], 0;
        FinishBody();
      }
    }

    /** Up to as many bytes as are missing are copied at once. */
    method NextBodyBytes(reader: BufferReader) returns (ghost taken: Bytes)
      requires Ready(reader) && stage.ReadingBody? && reader.Rest() != []
      modifies this, body, reader
      ensures Ready(reader) && body == old(body)
      ensures taken != [] && old(reader.Rest()) == taken + reader.Rest()
      ensures Progress(View(), received) == Ahead(old(received), old(View()), taken)
    {
      var bytes := reader.ReadBytesMax(header.length - offset);
      taken := bytes;
      BodyRun(header, body[..offset], bytes);
      SetBytes(body, offset, bytes);
      assert body[..offset + |bytes|] == old(body[..offset]) + bytes;
      offset := offset + |bytes|;
      FinishBody();
    }

    /** When the body is complete the callback gets the frame, and the search for the next one
        begins. */
    method FinishBody()
      requires started && stage.ReadingBody? && offset <= body.Length == header.length
      modifies this
      ensures Valid() && started && body == old(body)
      ensures Progress(View(), received) == Then(old(received), BodySoFar(old(header), old(body[..offset])))
    {
      if offset == header.length {
        assert body[..offset] == body[..];
        received := received + [SerialFrame(header.protocol, header.sender, header.receiver, body[..])];
        stage, index := Hunting, 0;
      }
    }

    /** One stretch of the generator, as far as it gets without another chunk. */
    method Resume(reader: BufferReader)
      requires Ready(reader) && !stage.Broken? && reader.Rest() != []
      modifies this, body, reader
      ensures Ready(reader) && (body == old(body) || fresh(body))
      ensures |reader.Rest()| < |old(reader.Rest())|
      ensures Ahead(received, View(), reader.Rest()) == old(Ahead(received, View(), reader.Rest()))
    {
      hide Run, Ahead, BodySoFar;
      ghost var p, before, taken := View(), received, [];
      match stage {
        case Hunting => taken := NextPreambleByte(reader);
        case ReadingHeader => taken := NextHeaderByte(reader);
        case ReadingBody => taken := NextBodyBytes(reader);
      }
      RunFurther(before, p, taken, reader.Rest(), received, View());
    }

    /** Until the chunk is used up, or the generator has thrown. */
    method ResumeAll(reader: BufferReader)
      requires Ready(reader)
      modifies this, body, reader
      ensures Ready(reader) && (body == old(body) || fresh(body))
      ensures Progress(View(), received) == old(Ahead(received, View(), reader.Rest()))
    {
      hide Run, Ahead, View;
      ghost var r := Ahead(received, View(), reader.Rest());
      while reader.RemainingLength() > 0 && !stage.Broken?
        invariant Ready(reader) && (body == old(body) || fresh(body))
        invariant Ahead(received, View(), reader.Rest()) == r
        decreases reader.RemainingLength()
      {
        Resume(reader);
      }
      BrokenIsDead();
      NothingAhead(received, View(), reader.Rest());
    }

    lemma BrokenIsDead()
      ensures stage.Broken? <==> View().Dead?
    {
    }

    method DispatchReceivedBytes(buffer: Bytes) returns (ok: bool)
      requires Valid()
      modifies this, body
      ensures Valid() && started && (body == old(body) || fresh(body))
      ensures !old(started) ==> ok && View() == START && received == []
      ensures old(started) ==> Progress(View(), received) == Ahead(old(received), old(View()), buffer)
      ensures old(started) ==> ok == !View().Dead?
    {
      hide Run, Ahead, Live, View;
      if !started {
        Prime();
        return true;
      }
      var reader := new BufferReader(buffer);
      ResumeAll(reader);
      BrokenIsDead();
      return !stage.Broken?;
    }

    /** The generator runs up to its first `yield`. */
    method Prime()
      requires Valid() && !started
      modifies this
      ensures Valid() && started && body == old(body) && View() == START && received == []
    {
      started := true;
    }
  }

  /** A whole connection: the chunks one after another, to a new deserializer. */
  method Receive(chunks: seq<Bytes>) returns (received: seq<SerialFrame>)
    ensures received == Dispatched(chunks).frames
  {
    var d := new SerialFrameDeserializer();
    for i := 0 to |chunks|
      invariant d.Valid() && fresh(d) && fresh(d.body)
      invariant i == 0 ==> !d.started
      invariant i > 0 ==> d.started && Dispatched(chunks) == Then(d.received, RunChunks(d.View(), chunks[i..]))
    {
      assert i > 0 ==> chunks[i..][1..] == chunks[i + 1..];
      var ok := d.DispatchReceivedBytes(chunks[i]);
    }
    return d.received;
  }
}
