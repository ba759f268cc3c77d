/**
  Resumable reading of one line (arduino/lib/nb/src/nb/serde/de.h:429-525), on a reader
  whose bytes come with waits in between.
*/
module LineReader {
  import opened Common

  const CR: Byte := 13
  const LF: Byte := 10

  datatype DeserializeResult = Ok | NotEnoughLength | Invalid
  datatype Poll = Pending | Ready(result: DeserializeResult)

  // ---------------------------------------------------------------- lines

  predicate CrlfAt(b: Bytes, i: nat) {
    i + 1 < |b| && b[i] == CR && b[i + 1] == LF
  }

  /** No line break yet. */
  ghost predicate Unbroken(b: Bytes) {
    forall i: nat :: !CrlfAt(b, i)
  }

  /** Ends with its first line break. */
  ghost predicate IsLine(b: Bytes) {
    |b| >= 2 && CrlfAt(b, |b| - 2) && Unbroken(b[..|b| - 1])
  }

  /** How long the first line of a stream is. */
  function FirstLine(b: Bytes): (end: Option<nat>)
    ensures end.Some? ==> 2 <= end.value <= |b|
  {
    if |b| < 2 then None
    else if b[0] == CR && b[1] == LF then Some(2)
    else
      var rest := FirstLine(b[1..]);
      if rest.None? then None else Some(rest.value + 1)
  }

  /** The first line ends with the first LF, 10, that stands behind a CR, 13. */
  predicate EndsAt(b: Bytes, end: nat) {
    2 <= end <= |b| && b[end - 2] == 13 && b[end - 1] == 10
  }

  lemma {:induction false} FirstLineExactly(b: Bytes, end: nat)
    ensures FirstLine(b) == Some(end) <==> EndsAt(b, end) && forall i: nat :: i < end ==> !EndsAt(b, i)
    decreases |b|
  {
    if |b| >= 2 {
      if EndsAt(b, 2) {
        assert end > 2 ==> EndsAt(b, 2);
      } else {
        var rest := b[1..];
        assert forall i: nat :: i >= 1 && i != 2 ==> (EndsAt(b, i) <==> EndsAt(rest, i - 1));
        if end > 0 {
          FirstLineExactly(rest, end - 1);
          assert forall i: nat :: EndsAt(rest, i) ==> EndsAt(b, i + 1);
        }
      }
    }
  }

  lemma {:induction false} FirstLineOf(b: Bytes, line: Bytes)
    requires line <= b && IsLine(line)
    ensures FirstLine(b) == Some(|line|)
    decreases |b|
  {
    if |line| > 2 {
      var front, tail := line[..|line| - 1], line[1..][..|line| - 2];
      assert !CrlfAt(front, 0);
      forall i: nat ensures !CrlfAt(tail, i) {
        assert !CrlfAt(front, i + 1);
      }
      assert CrlfAt(line[1..], |line| - 3);
      FirstLineOf(b[1..], line[1..]);
    }
  }

  lemma {:induction false} NoFirstLine(b: Bytes)
    requires Unbroken(b)
    ensures FirstLine(b) == None
    decreases |b|
  {
    if |b| >= 2 {
      assert !CrlfAt(b, 0);
      forall i: nat ensures !CrlfAt(b[1..], i) {
        assert !CrlfAt(b, i + 1);
      }
      NoFirstLine(b[1..]);
    }
  }

  predicate EndsWithCr(b: Bytes) {
    b != [] && b[|b| - 1] == CR
  }

  lemma OneMore(b: Bytes, x: Byte)
    requires Unbroken(b)
    ensures var c := b + [x];
            if EndsWithCr(b) && x == LF then IsLine(c) else Unbroken(c)
  {
    var c := b + [x];
    assert c[..|c| - 1] == b;
    forall i: nat | !(EndsWithCr(b) && x == LF) ensures !CrlfAt(c, i) {
      assert !CrlfAt(b, i);
    }
  }

  // ---------------------------------------------------------------- the reader

  /** What happens at the next attempt to read: a byte is there, or it is not yet there, or
      the reader reports an error of its own. */
  datatype Event = Arrives(byte: Byte) | Waits | Fails(error: Failure)

  type Failure = r: DeserializeResult | r != Ok witness NotEnoughLength

  function BytesOf(script: seq<Event>): Bytes {
    if script == [] then []
    else (if script[0].Arrives? then [script[0].byte] else []) + BytesOf(script[1..])
  }

  ghost predicate Within(after: seq<Event>, before: seq<Event>) {
    |after| <= |before| && forall e :: e in after ==> e in before
  }

  lemma AllWithin(script: seq<Event>)
    ensures Within(script, script)
  {
  }

  /** What one attempt leaves of a script. */
  lemma OneLess(after: seq<Event>, before: seq<Event>, origin: seq<Event>)
    requires Within(before, origin) && after == if before == [] then [] else before[1..]
    ensures Within(after, origin) && (before != [] ==> before[0] in origin && |after| < |origin|)
  {
  }

  lemma SuffixGrows(start: Bytes, line: Bytes, byte: Byte)
    requires start <= line
    ensures start <= line + [byte] && (line + [byte])[|start|..] == line[|start|..] + [byte]
  {
  }

  class Readable {
    var script: seq<Event>
    ghost var taken: Bytes

    constructor (script: seq<Event>)
      ensures this.script == script && taken == []
    {
      this.script := script;
      taken := [];
    }

    ghost function All(): Bytes
      reads this
    {
      taken + BytesOf(script)
    }

    /** A byte if `Ready(Ok)`.  Behind the script nothing arrives any more. */
    method Read() returns (poll: Poll, byte: Byte)
      modifies this
      ensures All() == old(All())
      ensures taken == if poll == Ready(Ok) then old(taken) + [byte] else old(taken)
      ensures if old(script) == [] then script == [] && poll == Pending else script == old(script)[1..]
      ensures old(script) != [] ==> poll == match old(script)[0]
        case Arrives(_) => Ready(Ok)
        case Waits => Pending
        case Fails(e) => Ready(e)
    {
      byte := 0;
      if script == [] {
        return Pending, 0;
      }
      match script[0] {
        case Arrives(b) =>
          poll, byte := Ready(Ok), b;
          taken := taken + [b];
        case Waits => poll := Pending;
        case Fails(e) => poll := Ready(e);
      }
      script := script[1..];
    }
  }

  // ---------------------------------------------------------------- the deserializers

  class AsyncDiscardingSingleLineDeserializer {
    var isLastCr: bool
    var done: bool
    ghost var line: Bytes   // read by this object, behind what came before it

    ghost predicate Valid()
      reads this
    {
      if done then IsLine(line) else Unbroken(line) && isLastCr == EndsWithCr(line)
    }

    /** `before`, read by somebody else, contains no line break, and ends with `lastChar`. */
    constructor (lastChar: Byte, ghost before: Bytes)
      requires Unbroken(before) && before != [] && before[|before| - 1] == lastChar
      ensures Valid() && !done && line == before
    {
      isLastCr, done, line := lastChar == CR, false, before;
    }

    constructor AtStart()
      ensures Valid() && !done && line == []
    {
      isLastCr, done, line := false, false, [];
    }

    method Deserialize(readable: Readable) returns (poll: Poll)
      requires Valid()
      modifies this, readable
      ensures Valid() && Within(readable.script, old(readable.script)) && readable.All() == old(readable.All())
      ensures old(line) <= line && readable.taken == old(readable.taken) + line[|old(line)|..]
      ensures done ==> poll == Ready(Ok)
      ensures old(done) ==> line == old(line)
      ensures !done ==> poll != Ready(Ok)
      ensures !done && poll == Pending && readable.script != [] ==> |readable.script| < |old(readable.script)|
      ensures !done && poll != Pending ==> exists e :: e in old(readable.script) && e.Fails?
    {
      hide IsLine, Unbroken, Within, BytesOf;
      AllWithin(readable.script);
      if done {
        return Ready(Ok);
      }
      while true
        invariant Valid() && !done
        invariant Within(readable.script, old(readable.script)) && readable.All() == old(readable.All())
        invariant old(line) <= line && readable.taken == old(readable.taken) + line[|old(line)|..]
        decreases |readable.script|
      {
        ghost var before := readable.script;
        var byte;
        poll, byte := readable.Read();
        OneLess(readable.script, before, old(readable.script));
        if poll != Ready(Ok) {
          return;
        }
        OneMore(line, byte);
        SuffixGrows(old(line), line, byte);
        line := line + [byte];
        if isLastCr && byte == LF {
          done := true;
          return Ready(Ok);
        }
        isLastCr := byte == CR;
      }
    }
  }

  predicate IsCompleteLine(line: Bytes) {
    if |line| < 2 then false
    else
      var last := |line| - 1;
      line[last - 1] == CR && line[last] == LF
  }

  lemma CompletePrefix(part: Bytes, line: Bytes)
    requires part <= line && (IsLine(line) || Unbroken(line)) && IsCompleteLine(part)
    ensures part == line && IsLine(line)
  {
    var i := |part| - 2;
    assert CrlfAt(line, i);
    assert |part| < |line| ==> CrlfAt(line[..|line| - 1], i);
  }

  /** The bytes written into the buffer, and the rest of a line too long for it, are the line
      read so far. */
  class AsyncMaxLengthSingleLineBytesDeserializer {
    const maxLength: nat
    var buffer: Bytes
    var discarding: AsyncDiscardingSingleLineDeserializer?
    ghost var line: Bytes

    ghost predicate Valid()
      reads this, discarding
    {
      && 2 <= maxLength && |buffer| <= maxLength
      && (IsLine(line) || Unbroken(line))
      && if discarding == null then line == buffer
         else |buffer| == maxLength && !IsLine(buffer) && discarding.Valid() && buffer <= line == discarding.line
    }

    constructor (maxLength: nat)
      requires 2 <= maxLength
      ensures Valid() && this.maxLength == maxLength && line == [] && discarding == null
    {
      this.maxLength := maxLength;
      buffer, discarding, line := [], null, [];
    }

    method Reset()
      requires Valid()
      modifies this
      ensures Valid() && line == [] && discarding == null
    {
      buffer, discarding, line := [], null, [];
    }

    predicate IsComplete()
      reads this
    {
      IsCompleteLine(buffer)
    }

    lemma CompleteOrNot()
      requires Valid()
      ensures IsComplete() <==> IsLine(line) && |line| <= maxLength
      ensures IsComplete() ==> buffer == line
    {
      if IsComplete() {
        CompletePrefix(buffer, line);
      }
    }

    /** The first part: until the buffer is full or the line is complete. */
    method FillBuffer(readable: Readable) returns (poll: Poll)
      requires Valid() && Unbroken(line)
      modifies this`buffer, this`line, readable
      ensures Valid()
      ensures Within(readable.script, old(readable.script)) && readable.All() == old(readable.All())
      ensures old(line) <= line && readable.taken == old(readable.taken) + line[|old(line)|..]
      ensures poll == Ready(Ok) ==> IsComplete() || |buffer| == maxLength
      ensures poll != Ready(Ok) ==> Unbroken(line)
      ensures poll == Pending && readable.script != [] ==> |readable.script| < |old(readable.script)|
      ensures poll != Pending && poll != Ready(Ok) ==> exists e :: e in old(readable.script) && e.Fails?
      ensures |buffer| == |old(buffer)| ==> line == old(line)
    {
      hide IsLine, Unbroken, IsCompleteLine, EndsWithCr, Within, BytesOf;
      CompleteOrNot();
      AllWithin(readable.script);
      poll := Ready(Ok);
      while |buffer| < maxLength
        invariant Valid() && Unbroken(line) && poll == Ready(Ok) && |old(buffer)| <= |buffer|
        invariant Within(readable.script, old(readable.script)) && readable.All() == old(readable.All())
        invariant old(line) <= line && readable.taken == old(readable.taken) + line[|old(line)|..]
        invariant |buffer| == |old(buffer)| ==> line == old(line)
        decreases maxLength - |buffer|
      {
        ghost var before := readable.script;
        var byte;
        poll, byte := readable.Read();
        OneLess(readable.script, before, old(readable.script));
        if poll != Ready(Ok) {
          return;
        }
        OneMore(line, byte);
        SuffixGrows(old(line), line, byte);
        buffer, line := buffer + [byte], line + [byte];
        CompleteOrNot();
        if IsComplete() {
          return;
        }
      }
    }

    /** The second part: what does not fit is thrown away up to its line break. */
    method Discard(readable: Readable) returns (poll: Poll)
      requires Valid() && |buffer| == maxLength && !IsLine(buffer)
      modifies this`discarding, this`line, discarding, readable
      ensures Valid() && (discarding == old(discarding) || fresh(discarding))
      ensures Within(readable.script, old(readable.script)) && readable.All() == old(readable.All())
      ensures old(line) <= line && readable.taken == old(readable.taken) + line[|old(line)|..]
      ensures IsLine(line) ==> poll == Ready(Invalid) && |line| > maxLength
      ensures IsLine(old(line)) ==> line == old(line)
      ensures !IsLine(line) ==> poll != Ready(Ok)
      ensures !IsLine(line) && poll == Pending && readable.script != [] ==> |readable.script| < |old(readable.script)|
      ensures !IsLine(line) && poll != Pending ==> exists e :: e in old(readable.script) && e.Fails?
    {
      if discarding == null {
        discarding := new AsyncDiscardingSingleLineDeserializer(buffer[|buffer| - 1], buffer);
      }
      BrokenOrNot(line);
      poll := discarding.Deserialize(readable);
      line := discarding.line;
      assert |line| == maxLength ==> line == buffer;
      BrokenOrNot(line);
      if poll == Ready(Ok) {
        poll := Ready(Invalid);
      }
    }

    /** Never reads behind the first line break, however often it is called. */
    method Deserialize(readable: Readable) returns (poll: Poll)
      requires Valid()
      modifies this, discarding, readable
      ensures Valid() && (discarding == old(discarding) || fresh(discarding))
      ensures Within(readable.script, old(readable.script)) && readable.All() == old(readable.All())
      ensures old(line) <= line && readable.taken == old(readable.taken) + line[|old(line)|..]
      ensures IsLine(line) ==> poll == Ready(if |line| <= maxLength then Ok else Invalid)
      ensures IsLine(line) && |line| <= maxLength ==> buffer == line
      ensures IsLine(old(line)) ==> line == old(line)
      ensures !IsLine(line) ==> poll != Ready(Ok)
      ensures !IsLine(line) && poll == Pending && readable.script != [] ==> |readable.script| < |old(readable.script)|
      ensures !IsLine(line) && poll != Pending ==> exists e :: e in old(readable.script) && e.Fails?
    {
      CompleteOrNot();
      BrokenOrNot(line);
      if IsComplete() {
        return Ready(Ok);
      }
      if |buffer| < maxLength {
        poll := FillBuffer(readable);
        CompleteOrNot();
        BrokenOrNot(line);
        if poll != Ready(Ok) || IsComplete() {
          return;
        }
      }
      poll := Discard(readable);
    }

    method PollUntilReady(readable: Readable) returns (poll: Poll)
      requires Valid() && NoFailure(readable.script) && discarding == null && line == []
      modifies this, readable
      ensures Valid() && readable.All() == old(readable.All()) && readable.taken == old(readable.taken) + line
      ensures IsLine(line) ==> poll == Ready(if |line| <= maxLength then Ok else Invalid)
      ensures !IsLine(line) ==> poll == Pending && readable.script == []
    {
      hide IsLine, Unbroken;
      poll := Deserialize(readable);
      while poll == Pending && readable.script != []
        invariant Valid() && (discarding == null || fresh(discarding)) && NoFailure(readable.script)
        invariant readable.All() == old(readable.All()) && readable.taken == old(readable.taken) + line
        invariant IsLine(line) ==> poll == Ready(if |line| <= maxLength then Ok else Invalid)
        invariant !IsLine(line) ==> poll == Pending
        decreases if poll == Pending then |readable.script| + 1 else 0
      {
        poll := Deserialize(readable);
      }
    }
  }

  ghost predicate NoFailure(script: seq<Event>) {
    forall e :: e in script ==> !e.Fails?
  }

  lemma BrokenOrNot(line: Bytes)
    ensures !(IsLine(line) && Unbroken(line))
  {
    if IsLine(line) {
      assert CrlfAt(line, |line| - 2);
    }
  }

  lemma FirstLineRead(bytes: Bytes, line: Bytes, rest: Bytes)
    requires bytes == line + rest && (IsLine(line) || (Unbroken(line) && rest == []))
    ensures FirstLine(bytes) == (if IsLine(line) then Some(|line|) else None) && bytes[|line|..] == rest
  {
    if IsLine(line) {
      FirstLineOf(bytes, line);
    } else {
      NoFirstLine(line);
      assert bytes == line;
    }
  }

  /** Polled as often as it takes: whatever the waits between the bytes, exactly the first line
      is taken from the stream, and it is the result if and only if it fits. */
  method ReadLine(maxLength: nat, script: seq<Event>) returns (poll: Poll, line: Bytes, rest: seq<Event>)
    requires 2 <= maxLength && NoFailure(script)
    ensures match FirstLine(BytesOf(script))
      case Some(end) =>
        && poll == Ready(if end <= maxLength then Ok else Invalid)
        && line == BytesOf(script)[..if end <= maxLength then end else maxLength]
        && BytesOf(rest) == BytesOf(script)[end..]
      case None => poll == Pending && rest == []
  {
    hide IsLine, Unbroken, FirstLine;
    var readable := new Readable(script);
    var d := new AsyncMaxLengthSingleLineBytesDeserializer(maxLength);
    poll := d.PollUntilReady(readable);
    assert readable.taken == d.line;
    FirstLineRead(BytesOf(script), d.line, BytesOf(readable.script));
    d.CompleteOrNot();
    return poll, d.buffer, readable.script;
  }
}
