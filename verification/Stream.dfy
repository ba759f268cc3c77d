/**
  Messages over the trusted transport (ts-core/src/net/stream/socket.ts): each message is
  cut into payloads, the last one carries `fin`, and the receiver joins them again.
*/
module Stream {
  import opened Common
  import opened TrustedNetwork
  import TrustedDelivery
  import Serde
  import SerdeWire

  datatype StreamFrame = StreamFrame(fin: bool, data: Bytes)

  /** A message taken by the send loop with the payload limit asked for at that moment. */
  datatype Entry = Entry(data: Bytes, limit: nat)

  function Fragment(data: Bytes, limit: nat): seq<StreamFrame>
    requires limit > 0
    decreases |data|
  {
    if data == [] then []
    else
      var n := Min(limit, |data|);
      [StreamFrame(n == |data|, data[..n])] + Fragment(data[n..], limit)
  }

  function Datas(frames: seq<StreamFrame>): (r: seq<Bytes>)
    ensures |r| == |frames| && forall i :: 0 <= i < |r| ==> r[i] == frames[i].data
  {
    if frames == [] then [] else [frames[0].data] + Datas(frames[1..])
  }

  /** How many pieces of at most `limit` make `n`. */
  function PieceCount(n: nat, limit: nat): nat
    requires limit > 0
  {
    (n + limit - 1) / limit
  }

  lemma {:induction false} TimesGrows(d: nat, a: nat, b: nat)
    requires a < b
    ensures d * a + d <= d * b
  {
    assert d * (b - 1) + d == d * b;
    if a < b - 1 {
      TimesGrows(d, a, b - 1);
    }
  }

  lemma QuotientIs(n: nat, d: nat, q: nat, r: nat)
    requires r < d && n == d * q + r
    ensures n / d == q
  {
    var q', r' := n / d, n % d;
    assert n == d * q' + r';
    if q' < q {
      TimesGrows(d, q', q);
    } else if q < q' {
      TimesGrows(d, q, q');
    }
  }

  lemma OneMoreTimes(a: nat, d: nat)
    requires d > 0
    ensures (a + d) / d == a / d + 1
  {
    var q, r := a / d, a % d;
    assert a == d * q + r;
    assert d * (q + 1) == d * q + d;
    QuotientIs(a + d, d, q + 1, r);
  }

  lemma NoPieces(limit: nat)
    requires limit > 0
    ensures PieceCount(0, limit) == 0
  {
    QuotientIs(limit - 1, limit, 0, limit - 1);
  }

  lemma OnePieceLess(n: nat, limit: nat)
    requires 0 < limit && 0 < n
    ensures PieceCount(n, limit) == 1 + PieceCount(n - Min(limit, n), limit)
  {
    OneMoreTimes(n - 1, limit);
    NoPieces(limit);
    if n <= limit {
      QuotientIs(n - 1, limit, 0, n - 1);
    }
  }

  /** As few frames as possible: every frame but the last is full, none is empty, only the last
      one is marked, and together they hold the message. */
  ghost predicate CutsUp(frames: seq<StreamFrame>, data: Bytes, limit: nat)
    requires limit > 0
  {
    && |frames| == PieceCount(|data|, limit)
    && (forall i :: 0 <= i < |frames| - 1 ==> |frames[i].data| == limit)
    && (forall i :: 0 <= i < |frames| ==> 0 < |frames[i].data| <= limit)
    && (forall i :: 0 <= i < |frames| ==> (frames[i].fin <==> i == |frames| - 1))
    && Concat(Datas(frames)) == data
  }

  lemma {:induction false} FragmentsCutUp(data: Bytes, limit: nat)
    requires limit > 0
    ensures CutsUp(Fragment(data, limit), data, limit)
    decreases |data|
  {
    hide PieceCount;
    NoPieces(limit);
    if data != [] {
      var n := Min(limit, |data|);
      var first, rest := StreamFrame(n == |data|, data[..n]), Fragment(data[n..], limit);
      FragmentsCutUp(data[n..], limit);
      OnePieceLess(|data|, limit);
      if n < |data| {
        OnePieceLess(|data[n..]|, limit);
      }
      OneMoreFrame(first, rest);
      assert data[..n] + data[n..] == data;
    }
  }

  lemma OneMoreFrame(first: StreamFrame, rest: seq<StreamFrame>)
    ensures Concat(Datas([first] + rest)) == first.data + Concat(Datas(rest))
  {
    assert ([first] + rest)[1..] == rest;
    assert Datas([first] + rest) == [first.data] + Datas(rest);
  }

  /** The loop body of the sender. */
  method SendEntry(data: Bytes, limit: nat) returns (frames: seq<StreamFrame>)
    requires limit > 0
    ensures frames == Fragment(data, limit)
    ensures |frames| == (|data| + limit - 1) / limit
    ensures forall i :: 0 <= i < |frames| - 1 ==> |frames[i].data| == limit
    ensures forall f <- frames :: 0 < |f.data| <= limit
    ensures forall i :: 0 <= i < |frames| ==> (frames[i].fin <==> i == |frames| - 1)
    ensures Concat(Datas(frames)) == data
  {
    FragmentsCutUp(data, limit);
    frames := [];
    var buffer := data;
    while |buffer| > 0
      invariant Fragment(data, limit) == frames + Fragment(buffer, limit)
      decreases |buffer|
    {
      var n := Min(limit, |buffer|);
      var payload := buffer[..n];
      buffer := buffer[n..];
      frames := frames + [StreamFrame(|buffer| == 0, payload)];
    }
  }

  predicate Sendable(entries: seq<Entry>) {
    forall e <- entries :: e.limit > 0
  }

  function FragmentAll(entries: seq<Entry>): seq<StreamFrame>
    requires Sendable(entries)
  {
    if entries == [] then [] else Fragment(entries[0].data, entries[0].limit) + FragmentAll(entries[1..])
  }

  function Concat(payloads: seq<Bytes>): Bytes {
    if payloads == [] then [] else payloads[0] + Concat(payloads[1..])
  }

  lemma {:induction false} ConcatSnoc(payloads: seq<Bytes>, last: Bytes)
    ensures Concat(payloads + [last]) == Concat(payloads) + last
  {
    if payloads == [] {
      assert Concat([last]) == last + [];
    } else {
      ConcatSnoc(payloads[1..], last);
      assert (payloads + [last])[1..] == payloads[1..] + [last];
    }
  }

  /** What the receiver has reported and what it still holds. */
  datatype Inbox = Inbox(held: Bytes, messages: seq<Bytes>)

  const EMPTY_INBOX := Inbox([], [])

  function Take(inbox: Inbox, f: StreamFrame): Inbox {
    var held := inbox.held + f.data;
    if f.fin then Inbox([], inbox.messages + [held]) else inbox.(held := held)
  }

  function TakeAll(inbox: Inbox, frames: seq<StreamFrame>): Inbox
    decreases |frames|
  {
    if frames == [] then inbox else TakeAll(Take(inbox, frames[0]), frames[1..])
  }

  class FrameAccumulator {
    var payloads: seq<Bytes>

    constructor ()
      ensures payloads == []
    {
      payloads := [];
    }

    method Add(payload: Bytes)
      modifies this
      ensures payloads == old(payloads) + [payload]
    {
      payloads := payloads + [payload];
    }

    method Take() returns (result: array<Byte>)
      modifies this
      ensures fresh(result) && result[..] == Concat(old(payloads)) && payloads == []
    {
      var length := 0;
      for i := 0 to |payloads|
        invariant payloads == old(payloads) && length == |Concat(payloads[..i])|
      {
        ConcatSnoc(payloads[..i], payloads[i]);
        assert payloads[..i] + [payloads[i]] == payloads[..i + 1];
        length := length + |payloads[i]|;
      }
      assert payloads[..|payloads|] == payloads;
      result := new Byte[length];
      var offset := 0;
      for i := 0 to |payloads|
        invariant payloads == old(payloads) && result.Length == |Concat(payloads)|
        invariant offset == |Concat(payloads[..i])| <= result.Length
        invariant result[..offset] == Concat(payloads[..i])
      {
        ConcatSnoc(payloads[..i], payloads[i]);
        assert payloads[..i] + [payloads[i]] == payloads[..i + 1];
        ConcatPrefix(payloads, i + 1);
        var p := payloads[i];
        forall k | 0 <= k < |p| {
          result[offset + k] := p[k];
        }
        assert result[..offset + |p|] == Concat(payloads[..i]) + p;
        offset := offset + |p|;
      }
      assert payloads[..|payloads|] == payloads;
      payloads := [];
    }
  }

  lemma {:induction false} ConcatPrefix(payloads: seq<Bytes>, i: nat)
    requires i <= |payloads|
    ensures |Concat(payloads[..i])| <= |Concat(payloads)|
    decreases |payloads| - i
  {
    if i == |payloads| {
      assert payloads[..i] == payloads;
    } else {
      ConcatSnoc(payloads[..i], payloads[i]);
      assert payloads[..i] + [payloads[i]] == payloads[..i + 1];
      ConcatPrefix(payloads, i + 1);
    }
  }

  /** The receiving half of a stream socket. */
  class StreamReceiver {
    const accumulator: FrameAccumulator
    var messages: seq<Bytes>

    constructor ()
      ensures fresh(accumulator) && View() == EMPTY_INBOX
    {
      accumulator := new FrameAccumulator();
      messages := [];
    }

    function View(): Inbox
      reads this, accumulator
    {
      Inbox(Concat(accumulator.payloads), messages)
    }

    /** What does not deserialize is ignored. */
    method OnReceive(frame: Option<StreamFrame>)
      modifies this, accumulator
      ensures frame.None? ==> View() == old(View())
      ensures frame.Some? && !frame.value.fin ==>
                && messages == old(messages)
                && Concat(accumulator.payloads) == old(Concat(accumulator.payloads)) + frame.value.data
      ensures frame.Some? && frame.value.fin ==>
                && messages == old(messages) + [old(Concat(accumulator.payloads)) + frame.value.data]
                && accumulator.payloads == []
      ensures frame.Some? ==> View() == Take(old(View()), frame.value)
    {
      if frame.None? {
        return;
      }
      var f := frame.value;
      ConcatSnoc(accumulator.payloads, f.data);
      accumulator.Add(f.data);
      if f.fin {
        var message := accumulator.Take();
        messages := messages + [message[..]];
      }
    }
  }

  // ---------------------------------------------------------------- reassembly

  lemma {:induction false} TakeAllAppend(inbox: Inbox, x: seq<StreamFrame>, y: seq<StreamFrame>)
    ensures TakeAll(inbox, x + y) == TakeAll(TakeAll(inbox, x), y)
    decreases |x|
  {
    if x == [] {
      assert x + y == y;
    } else {
      assert (x + y)[1..] == x[1..] + y;
      TakeAllAppend(Take(inbox, x[0]), x[1..], y);
    }
  }

  /** The fragments of one message, whole or cut short. */
  lemma {:induction false} FragmentsJoin(inbox: Inbox, data: Bytes, limit: nat, n: nat)
    requires limit > 0 && n <= |Fragment(data, limit)|
    ensures var r := TakeAll(inbox, Fragment(data, limit)[..n]);
            if n == |Fragment(data, limit)| && data != []
            then r == Inbox([], inbox.messages + [inbox.held + data])
            else r.messages == inbox.messages && (n == 0 ==> r == inbox)
    decreases |data|
  {
    var frames := Fragment(data, limit);
    if data != [] && n > 0 {
      var cut := Min(limit, |data|);
      assert frames[..n][1..] == Fragment(data[cut..], limit)[..n - 1];
      FragmentsJoin(Take(inbox, frames[0]), data[cut..], limit, n - 1);
      if cut < |data| {
        assert inbox.held + data[..cut] + data[cut..] == inbox.held + data;
      } else {
        assert data[..cut] == data;
        assert frames[1..] == [];
      }
    }
  }

  /** The messages the receiver should report: an empty message sends nothing. */
  function Shown(e: Entry): seq<Bytes> {
    if e.data == [] then [] else [e.data]
  }

  function Visible(entries: seq<Entry>): seq<Bytes> {
    if entries == [] then [] else Shown(entries[0]) + Visible(entries[1..])
  }

  lemma EntryJoins(inbox: Inbox, e: Entry)
    requires e.limit > 0 && inbox.held == []
    ensures TakeAll(inbox, Fragment(e.data, e.limit)) == Inbox([], inbox.messages + Shown(e))
  {
    var first := Fragment(e.data, e.limit);
    FragmentsJoin(inbox, e.data, e.limit, |first|);
    assert first[..|first|] == first;
    assert [] + e.data == e.data && inbox.messages + [] == inbox.messages;
  }

  lemma {:induction false} PrefixReassembles(inbox: Inbox, entries: seq<Entry>, n: nat)
    requires Sendable(entries) && n <= |FragmentAll(entries)| && inbox.held == []
    ensures TakeAll(inbox, FragmentAll(entries)[..n]).messages <= inbox.messages + Visible(entries)
    ensures n == |FragmentAll(entries)| ==>
              TakeAll(inbox, FragmentAll(entries)[..n]) == Inbox([], inbox.messages + Visible(entries))
    decreases |entries|
  {
    if entries != [] {
      var e, rest := entries[0], entries[1..];
      var first, tail := Fragment(e.data, e.limit), FragmentAll(rest);
      if n < |first| {
        FragmentsJoin(inbox, e.data, e.limit, n);
        assert FragmentAll(entries)[..n] == first[..n];
      } else {
        var inbox1, m := Inbox([], inbox.messages + Shown(e)), n - |first|;
        EntryJoins(inbox, e);
        assert FragmentAll(entries)[..n] == first + tail[..m];
        hide TakeAll, Fragment;
        TakeAllAppend(inbox, first, tail[..m]);
        PrefixReassembles(inbox1, rest, m);
        assert inbox1.messages + Visible(rest) == inbox.messages + Visible(entries);
      }
    }
  }

  /** Fragmenting and joining gives back the same messages in the same order. */
  lemma ReassemblesExactly(entries: seq<Entry>)
    requires Sendable(entries)
    ensures TakeAll(EMPTY_INBOX, FragmentAll(entries)) == Inbox([], Visible(entries))
  {
    PrefixReassembles(EMPTY_INBOX, entries, |FragmentAll(entries)|);
    assert FragmentAll(entries)[..|FragmentAll(entries)|] == FragmentAll(entries);
    assert [] + Visible(entries) == Visible(entries);
  }

  // ---------------------------------------------------------------- end to end

  /** ts-core/src/net/stream/frame.ts:12-19 */
  const FRAME_SCHEMA := Serde.Object([Serde.Field("fin", Serde.Bool), Serde.Field("data", Serde.RemainingBytes)])

  function FrameFields(f: StreamFrame): map<string, Serde.Value> {
    map["fin" := Serde.Boolean(f.fin), "data" := Serde.Blob(f.data)]
  }

  /** The frame's object serdeable writes the mark, 1 or 0, and then the data. */
  lemma FrameOnTheWire(f: StreamFrame)
    ensures Serde.Encode(FRAME_SCHEMA, Serde.Record(FrameFields(f))) == Serde.Ok(Encode(f))
    ensures Encode(f) == [if f.fin then 1 else 0] + f.data
  {
    var values, fields := FrameFields(f), FRAME_SCHEMA.fields;
    assert "fin" != "data" by {
      assert "fin"[0] == 'f' && "data"[0] == 'd';
    }
    assert fields[1..] == [fields[1]] && fields[1..][1..] == [];
    SerdeWire.ObjectOnTheWire(fields, values);
    SerdeWire.ObjectOnTheWire(fields[1..], values);
    SerdeWire.ObjectOnTheWire([], values);
    SerdeWire.BoolOnTheWire(f.fin, 0, []);
    assert f.data + [] == f.data;
  }

  /** What it reads, and what it rejects: no byte at all, or a mark other than 0 and 1. */
  lemma FrameOffTheWire(payload: Bytes)
    ensures Decode(payload).None? <==> Serde.Decode(FRAME_SCHEMA, payload).Failed?
    ensures Decode(payload).Some? ==>
              Serde.Decode(FRAME_SCHEMA, payload) == Serde.Decoded(Serde.Record(FrameFields(Decode(payload).value)), [])
  {
    var fields := FRAME_SCHEMA.fields;
    assert fields[1..] == [fields[1]] && fields[1..][1..] == [];
    if payload != [] {
      assert payload == [payload[0]] + payload[1..];
      SerdeWire.BoolOnTheWire(true, payload[0], payload[1..]);
    }
  }

  function Encode(f: StreamFrame): Bytes {
    [if f.fin then 1 else 0] + f.data
  }

  /** A boolean byte other than 0 and 1, or none at all, is a deserialization error. */
  function Decode(payload: Bytes): Option<StreamFrame> {
    if payload == [] || payload[0] > 1 then None else Some(StreamFrame(payload[0] == 1, payload[1..]))
  }

  lemma DecodeEncode(f: StreamFrame)
    ensures Decode(Encode(f)) == Some(f)
  {
    assert Encode(f)[1..] == f.data;
  }

  function EncodeAll(frames: seq<StreamFrame>): (r: seq<Bytes>)
    ensures |r| == |frames|
    ensures forall i :: 0 <= i < |r| ==> r[i] == Encode(frames[i])
  {
    if frames == [] then [] else [Encode(frames[0])] + EncodeAll(frames[1..])
  }

  /** What the receiver makes of payloads: broken ones are skipped with a warning. */
  function Collect(inbox: Inbox, payloads: seq<Bytes>): Inbox
    decreases |payloads|
  {
    if payloads == [] then inbox
    else
      var f := Decode(payloads[0]);
      Collect(if f.Some? then Take(inbox, f.value) else inbox, payloads[1..])
  }

  lemma {:induction false} CollectEncoded(inbox: Inbox, frames: seq<StreamFrame>)
    ensures Collect(inbox, EncodeAll(frames)) == TakeAll(inbox, frames)
    decreases |frames|
  {
    if frames != [] {
      DecodeEncode(frames[0]);
      assert EncodeAll(frames)[1..] == EncodeAll(frames[1..]);
      CollectEncoded(Take(inbox, frames[0]), frames[1..]);
    }
  }

  /** What `q` has received amounts to a prefix of the messages, and no part of any other. */
  ghost predicate Conveyed(q: Endpoint, entries: seq<Entry>)
    requires Sendable(entries)
  {
    Collect(EMPTY_INBOX, q.received).messages <= Visible(entries)
  }

  ghost predicate Handed(p: Endpoint, entries: seq<Entry>)
    requires Sendable(entries)
  {
    p.accepted <= EncodeAll(FragmentAll(entries))
  }

  lemma PrefixArrives(p: Endpoint, q: Endpoint, entries: seq<Entry>)
    requires Sendable(entries) && TrustedDelivery.InOrder(p, q) && Handed(p, entries)
    ensures Conveyed(q, entries)
  {
    var got, frames := q.received, FragmentAll(entries);
    var n := |got|;
    assert got <= EncodeAll(frames);
    assert got == EncodeAll(frames[..n]);
    CollectEncoded(EMPTY_INBOX, frames[..n]);
    PrefixReassembles(EMPTY_INBOX, entries, n);
    assert [] + Visible(entries) == Visible(entries);
  }

  /** Over every run of the transport, in both directions: as long as the send loop is what hands
      payloads to one side, the other reports a prefix of the messages its application sent. */
  lemma EndToEnd(s: System, entries: seq<Entry>)
    requires Reachable(s) && Sendable(entries)
    ensures Handed(s.a, entries) ==> Conveyed(s.b, entries)
    ensures Handed(s.b, entries) ==> Conveyed(s.a, entries)
  {
    TrustedDelivery.ExactlyOnceInOrder(s);
    hide Handed, Conveyed, Reachable;
    if Handed(s.a, entries) {
      PrefixArrives(s.a, s.b, entries);
    }
    if Handed(s.b, entries) {
      PrefixArrives(s.b, s.a, entries);
    }
  }
}
