/**
  The 16-bit checksum of a trusted frame (ts-core/src/net/trusted/checksum.ts, frame.ts):
  which frames verify, and which corruptions are noticed.
*/
module Checksum {
  import opened Common

  const WORD := 0x1_0000
  const WIDE := 0x1_0000_0000

  /** Little-endian 16-bit words added up; a last odd byte stands alone. */
  function WordSum(b: Bytes): nat {
    if |b| == 0 then 0
    else if |b| == 1 then b[0]
    else b[0] + 256 * b[1] + WordSum(b[2..])
  }

  /** The carry is folded back once, not repeatedly. */
  function Fold(sum: nat): nat { sum % WORD + sum / WORD }

  /** `~x & 0xffff` for a non-negative x. */
  function Complement(x: nat): nat { WORD - 1 - x % WORD }

  function ChecksumOf(sum: nat): nat { Complement(Fold(sum)) }

  predicate Accepts(sum: nat) { Fold(sum) % WORD == WORD - 1 }

  lemma {:induction false} WordSumSnoc(b: Bytes, last: Byte)
    ensures WordSum(b + [last]) == WordSum(b) + if |b| % 2 == 0 then last else 256 * last
    decreases |b|
  {
    if |b| == 1 {
      assert WordSum((b + [last])[2..]) == 0;
    } else if |b| >= 2 {
      assert (b + [last])[2..] == b[2..] + [last];
      WordSumSnoc(b[2..], last);
    }
  }

  /** `ChecksumWriter` with its word accumulator and calculator. */
  class ChecksumWriter {
    var sum: nat
    var prevByte: Option<Byte>
    ghost var written: Bytes

    ghost predicate Valid()
      reads this
    {
      && (prevByte.Some? <==> |written| % 2 == 1)
      && WordSum(written) == sum + (if prevByte.Some? then prevByte.value else 0)
    }

    constructor ()
      ensures Valid() && written == []
    {
      sum, prevByte, written := 0, None, [];
    }

    method WriteByte(byte: Byte)
      requires Valid()
      modifies this
      ensures Valid() && written == old(written) + [byte]
    {
      WordSumSnoc(written, byte);
      if prevByte.None? {
        prevByte := Some(byte);
      } else {
        sum := sum + prevByte.value + 256 * byte;
        prevByte := None;
      }
      written := written + [byte];
    }

    method WriteBytes(bytes: Bytes)
      requires Valid()
      modifies this
      ensures Valid() && written == old(written) + bytes
    {
      for i := 0 to |bytes|
        invariant Valid() && written == old(written) + bytes[..i]
      {
        WriteByte(bytes[i]);
      }
    }

    /** The odd byte, if any, becomes a word: nothing may be written afterwards. */
    method Pad()
      requires Valid()
      modifies this
      ensures sum == WordSum(old(written)) && prevByte == None && written == old(written)
    {
      if prevByte.Some? {
        sum := sum + prevByte.value;
        prevByte := None;
      }
    }

    method Checksum() returns (c: nat)
      requires Valid()
      modifies this
      ensures c == ChecksumOf(WordSum(old(written)))
      ensures var sum := WordSum(old(written)); c == 0xffff - (sum % 0x1_0000 + sum / 0x1_0000) % 0x1_0000
    {
      Pad();
      c := Complement(sum % WORD + sum / WORD);
    }

    method Verify() returns (ok: bool)
      requires Valid()
      modifies this
      ensures ok == Accepts(WordSum(old(written)))
      ensures var sum := WordSum(old(written)); ok <==> (sum % 0x1_0000 + sum / 0x1_0000) % 0x1_0000 == 0xffff
    {
      Pad();
      ok := (sum % WORD + sum / WORD) % WORD == WORD - 1;
    }
  }

  /** A frame with its pseudo header: the checksum field is the first word. */
  function WithField(checksum: nat, rest: Bytes): Bytes
    requires checksum < WORD
  {
    [checksum % 256, checksum / 256] + rest
  }

  lemma FieldAdds(checksum: nat, rest: Bytes)
    requires checksum < WORD
    ensures WordSum(WithField(checksum, rest)) == checksum + WordSum(rest)
  {
    assert WithField(checksum, rest)[2..] == rest;
  }

  /** `TrustedFrame.create`: computed with a zero field, then put in its place. */
  method Create(rest: Bytes) returns (frame: Bytes)
    ensures frame == WithField(ChecksumOf(WordSum(rest)), rest)
  {
    var writer := new ChecksumWriter();
    writer.WriteBytes(WithField(0, rest));
    assert writer.written == WithField(0, rest);
    var c := writer.Checksum();
    FieldAdds(0, rest);
    frame := WithField(c, rest);
  }

  method VerifyFrame(frame: Bytes) returns (ok: bool)
    ensures ok == Accepts(WordSum(frame))
  {
    var writer := new ChecksumWriter();
    writer.WriteBytes(frame);
    assert writer.written == frame;
    ok := writer.Verify();
  }

  lemma {:induction false} SumBound(b: Bytes)
    ensures WordSum(b) <= 0xffff * ((|b| + 1) / 2)
    decreases |b|
  {
    if |b| >= 2 {
      SumBound(b[2..]);
    }
  }

  // ---------------------------------------------------------------- what is accepted

  /** Below 2^32 the accepted sums are the positive multiples of 65535, but for 2^32 - 1. */
  lemma AcceptedSums(sum: nat)
    requires sum < WIDE
    ensures Accepts(sum) <==> sum % 0xffff == 0 && 0 < sum < WIDE - 1
  {
    var hi, lo := sum / WORD, sum % WORD;
    assert sum == 0xffff * hi + (hi + lo);
    if sum % 0xffff == 0 && 0 < sum < WIDE - 1 {
      var k := sum / 0xffff;
      assert sum == (k - 1) * WORD + (WORD - k);
    }
  }

  lemma OneFoldAccepted(s: nat)
    requires s < WIDE && Fold(s) < WORD
    ensures Accepts(ChecksumOf(s) + s)
  {
    var hi, lo := s / WORD, s % WORD;
    assert ChecksumOf(s) + s == hi * WORD + (WORD - 1 - hi);
  }

  lemma TwoFoldsRejected(s: nat)
    requires s < WIDE && Fold(s) >= WORD
    ensures !Accepts(ChecksumOf(s) + s)
  {
    var hi, t := s / WORD, ChecksumOf(s) + s;
    assert t == 0xffff * (hi + 2) + 1;
    if t < WIDE {
      hide Accepts;
      AcceptedSums(t);
    } else {
      assert t == WIDE;
    }
  }

  /** A frame that arrives intact is accepted exactly if folding the carry once was enough. */
  lemma IntactFramesVerify(rest: Bytes)
    requires WordSum(rest) < WIDE
    ensures Accepts(WordSum(WithField(ChecksumOf(WordSum(rest)), rest))) <==> Fold(WordSum(rest)) < WORD
  {
    var s := WordSum(rest);
    FieldAdds(ChecksumOf(s), rest);
    hide Accepts, Fold, WordSum;
    if Fold(s) < WORD {
      OneFoldAccepted(s);
    } else {
      TwoFoldsRejected(s);
    }
  }

  /** The receiver's answer to what the sender created. */
  method CreateAndVerify(rest: Bytes) returns (ok: bool)
    requires WordSum(rest) < WIDE
    ensures ok <==> Fold(WordSum(rest)) < WORD
  {
    IntactFramesVerify(rest);
    hide Accepts, Fold, WordSum;
    var frame := Create(rest);
    ok := VerifyFrame(frame);
  }

  // ---------------------------------------------------------------- frames

  /** Node and cluster, as ts-core/src/net/node/source.ts and destination.ts write them. */
  datatype Place = Place(nodeType: Byte, nodeBody: Bytes, cluster: Byte)

  /** ts-core/src/net/node/nodeId.ts:8-36: serial, UHF, IPv4, WebSocket, loopback, broadcast. */
  predicate IsPlace(p: Place) {
    match p.nodeType
    case 0x01 => |p.nodeBody| == 1
    case 0x02 => |p.nodeBody| == 1
    case 0x03 => |p.nodeBody| == 6
    case 0x04 => |p.nodeBody| == 6
    case 0x7f => p.nodeBody == []
    case 0xff => p.nodeBody == []
    case _ => false
  }

  type Word = x: int | 0 <= x < WORD

  datatype PseudoHeader = PseudoHeader(source: Place, destination: Place, sourcePort: Word, destinationPort: Word)

  datatype TrustedBody =
    | Control(frameType: Byte)   // SYN 1, SYN-ACK 2, FIN 3, FIN-ACK 4
    | Data(seqNo: Word, ackNo: Word, payload: Bytes)
    | DataAck(ackNo: Word)

  function WordBytes(x: Word): Bytes {
    [x % 256, x / 256]
  }

  function PlaceBytes(p: Place): Bytes {
    [p.nodeType] + p.nodeBody + [p.cluster]
  }

  function BodyBytes(b: TrustedBody): Bytes {
    match b
    case Control(t) => [t]
    case Data(n, k, payload) => [5] + WordBytes(n) + WordBytes(k) + payload
    case DataAck(k) => [6] + WordBytes(k)
  }

  function PseudoBytes(h: PseudoHeader, length: nat): Bytes {
    PlaceBytes(h.source) + PlaceBytes(h.destination)
    + WordBytes(h.sourcePort) + WordBytes(h.destinationPort) + [length % 256]
  }

  /** All that is summed up of a frame behind its checksum; the frame's length counts that too. */
  function SummedBytes(b: TrustedBody, h: PseudoHeader): Bytes {
    BodyBytes(b) + PseudoBytes(h, 2 + |BodyBytes(b)|)
  }

  /** The layout in bytes: what the checksum of a frame is about. */
  lemma FrameLayout(b: TrustedBody, h: PseudoHeader)
    ensures SummedBytes(b, h)
         == (match b
             case Control(t) => [t]
             case Data(n, k, payload) => [5, n % 256, n / 256, k % 256, k / 256] + payload
             case DataAck(k) => [6, k % 256, k / 256])
          + [h.source.nodeType] + h.source.nodeBody + [h.source.cluster]
          + [h.destination.nodeType] + h.destination.nodeBody + [h.destination.cluster]
          + [h.sourcePort % 256, h.sourcePort / 256, h.destinationPort % 256, h.destinationPort / 256]
          + [(match b
              case Control(_) => 3
              case Data(_, _, payload) => (7 + |payload|) % 256
              case DataAck(_) => 5)]
  {
  }

  predicate IsHeader(h: PseudoHeader) {
    IsPlace(h.source) && IsPlace(h.destination)
  }

  /** What the receiver of an undisturbed frame answers. */
  predicate ArrivesWell(b: TrustedBody, h: PseudoHeader) {
    var rest := SummedBytes(b, h);
    Accepts(WordSum(WithField(ChecksumOf(WordSum(rest)), rest)))
  }

  lemma {:induction false} SumOfParts(a: Bytes, b: Bytes)
    requires |a| % 2 == 0
    ensures WordSum(a + b) == WordSum(a) + WordSum(b)
    decreases |a|
  {
    if a == [] {
      assert a + b == b;
    } else {
      assert (a + b)[0] == a[0] && (a + b)[1] == a[1] && (a + b)[2..] == a[2..] + b;
      SumOfParts(a[2..], b);
    }
  }

  /** Five payload bytes: one to reach a word boundary, and two words. */
  function Filler(x: Word, y: Word): Bytes {
    [0] + WordBytes(x) + WordBytes(y)
  }

  /** What the words of the filler add to the rest of the frame. */
  lemma FilledSum(seqNo: Word, ackNo: Word, h: PseudoHeader, x: Word, y: Word)
    ensures WordSum(SummedBytes(Data(seqNo, ackNo, Filler(x, y)), h))
         == WordSum([5] + WordBytes(seqNo) + WordBytes(ackNo) + [0]) + x + y + WordSum(PseudoBytes(h, 12))
  {
    var b := Data(seqNo, ackNo, Filler(x, y));
    var front, tail := [5] + WordBytes(seqNo) + WordBytes(ackNo) + [0], PseudoBytes(h, 12);
    var words := WordBytes(x) + WordBytes(y);
    assert SummedBytes(b, h) == front + (words + tail);
    SumOfParts(front, words + tail);
    SumOfParts(words, tail);
    SumOfParts(WordBytes(x), WordBytes(y));
    assert WordBytes(x)[2..] == [] && WordBytes(y)[2..] == [];
  }

  /** "A frame that arrives intact is accepted" is false between any two nodes: for any
      numbers and ports, some payload of five bytes makes a frame that is rejected. */
  lemma IntactFrameRejected(seqNo: Word, ackNo: Word, h: PseudoHeader) returns (payload: Bytes)
    requires IsHeader(h)
    ensures |payload| == 5 && !ArrivesWell(Data(seqNo, ackNo, payload), h)
  {
    var base := WordSum([5] + WordBytes(seqNo) + WordBytes(ackNo) + [0]) + WordSum(PseudoBytes(h, 12));
    FrontIsPositive(seqNo, ackNo);
    var x, y := FillingWords(base);
    payload := Filler(x, y);
    var rest := SummedBytes(Data(seqNo, ackNo, payload), h);
    FilledSum(seqNo, ackNo, h, x, y);
    HeaderSize(seqNo, ackNo, payload, h);
    SumBound(rest);
    IntactFramesVerify(rest);
    hide WordSum, Accepts, Fold, SummedBytes, Filler, PseudoBytes, WordBytes, WithField, ChecksumOf, IsPlace;
  }

  /** Two words that take a sum to the last value before a carry, beyond the first. */
  lemma FillingWords(base: nat) returns (x: Word, y: Word)
    requires base > 0
    ensures Fold(base + x + y) >= WORD
  {
    var gap := WORD - 1 - base % WORD;
    if base < WORD {
      x, y := gap + 1, WORD - 1;
      assert base + x + y == WORD + (WORD - 1);
    } else {
      x, y := gap, 0;
      assert base + x + y == (base / WORD) * WORD + (WORD - 1);
    }
  }

  lemma HeaderSize(seqNo: Word, ackNo: Word, payload: Bytes, h: PseudoHeader)
    requires IsHeader(h) && |payload| == 5
    ensures |SummedBytes(Data(seqNo, ackNo, payload), h)| <= 31
  {
    assert |PlaceBytes(h.source)| <= 8 && |PlaceBytes(h.destination)| <= 8;
  }

  lemma FrontIsPositive(seqNo: Word, ackNo: Word)
    ensures WordSum([5] + WordBytes(seqNo) + WordBytes(ackNo) + [0]) >= 5
  {
    var front := [5] + WordBytes(seqNo) + WordBytes(ackNo) + [0];
    assert front[0] == 5;
  }

  const EXAMPLE_HEADER := PseudoHeader(Place(1, [1], 0), Place(1, [2], 0), 0x400, 1)

  /** Such a frame: the first of a session, from one serial node to another. */
  lemma RejectedExample()
    ensures !ArrivesWell(Data(0, 0, [0, 0xeb, 0xf9, 0xff, 0xff]), EXAMPLE_HEADER)
  {
    hide WordSum, Accepts, SummedBytes, Filler, PseudoBytes, WithField, ChecksumOf, WordBytes;
    ExampleBytes();
    FilledSum(0, 0, EXAMPLE_HEADER, 0xf9eb, 0xffff);
    FrontSum();
    TailSum(PseudoBytes(EXAMPLE_HEADER, 12));
    IntactFramesVerify(SummedBytes(Data(0, 0, Filler(0xf9eb, 0xffff)), EXAMPLE_HEADER));
  }

  lemma ExampleBytes()
    ensures Filler(0xf9eb, 0xffff) == [0, 0xeb, 0xf9, 0xff, 0xff]
    ensures PseudoBytes(EXAMPLE_HEADER, 12) == [1, 1, 0, 1, 2, 0, 0, 4, 1, 0, 12]
  {
  }

  lemma TwoBytes(x: Byte, y: Byte, rest: Bytes)
    ensures WordSum([x, y] + rest) == x + 256 * y + WordSum(rest)
  {
    assert ([x, y] + rest)[2..] == rest;
  }

  lemma FrontSum()
    ensures WordSum([5] + WordBytes(0) + WordBytes(0) + [0]) == 5
  {
    assert [5] + WordBytes(0) + WordBytes(0) + [0] == [5, 0] + ([0, 0] + ([0, 0] + []));
    TwoBytes(5, 0, [0, 0] + ([0, 0] + []));
    TwoBytes(0, 0, [0, 0] + []);
    TwoBytes(0, 0, []);
  }

  lemma TailSum(tail: Bytes)
    requires tail == [1, 1, 0, 1, 2, 0, 0, 4, 1, 0, 12]
    ensures WordSum(tail) == 1552
  {
    hide WordSum;
    var t5: Bytes := [12];
    assert WordSum(t5) == 12 by { LastByte(12); }
    var t4, t3 := [1, 0] + t5, [0, 4] + ([1, 0] + t5);
    TwoBytes(1, 0, t5);
    TwoBytes(0, 4, t4);
    TwoBytes(2, 0, t3);
    TwoBytes(0, 1, [2, 0] + t3);
    TwoBytes(1, 1, [0, 1] + ([2, 0] + t3));
    assert tail == [1, 1] + ([0, 1] + ([2, 0] + t3));
  }

  lemma LastByte(x: Byte)
    ensures WordSum([x]) == x
  {
  }

  // ---------------------------------------------------------------- what is noticed

  lemma {:induction false} OneByteChanges(b: Bytes, i: nat, x: Byte)
    requires i < |b|
    ensures WordSum(b[i := x]) - WordSum(b) == (x - b[i]) * (if i % 2 == 0 then 1 else 256)
    decreases |b|
  {
    if i >= 2 {
      assert b[i := x][2..] == b[2..][i - 2 := x];
      OneByteChanges(b[2..], i - 2, x);
    } else if |b| >= 2 {
      assert b[i := x][2..] == b[2..];
    }
  }

  lemma MultiplesApart(a: int, b: int)
    requires a % 0xffff == 0 && b % 0xffff == 0
    ensures (b - a) % 0xffff == 0
  {
    assert b - a == 0xffff * (b / 0xffff - a / 0xffff);
  }

  /** An accepted frame whose sum then changes by no multiple of 65535 is rejected. */
  lemma CorruptionNoticed(sent: Bytes, got: Bytes)
    requires WordSum(sent) < WIDE && WordSum(got) < WIDE
    requires Accepts(WordSum(sent)) && (WordSum(got) - WordSum(sent)) % 0xffff != 0
    ensures !Accepts(WordSum(got))
  {
    hide Accepts, WordSum;
    AcceptedSums(WordSum(sent));
    AcceptedSums(WordSum(got));
    if Accepts(WordSum(got)) {
      MultiplesApart(WordSum(sent), WordSum(got));
    }
  }

  /** In a frame of up to 128 KiB, a change of any single byte is noticed. */
  lemma SingleByteNoticed(sent: Bytes, i: nat, x: Byte)
    requires i < |sent| <= 0x2_0000 && x != sent[i]
    requires Accepts(WordSum(sent))
    ensures !Accepts(WordSum(sent[i := x]))
  {
    SumBound(sent);
    SumBound(sent[i := x]);
    OneByteChanges(sent, i, x);
    hide Accepts, WordSum;
    assert -0xffff < WordSum(sent[i := x]) - WordSum(sent) < 0xffff;
    CorruptionNoticed(sent, sent[i := x]);
  }
}
