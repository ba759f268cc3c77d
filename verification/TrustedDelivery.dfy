/**
  What every run of `TrustedNetwork` keeps: delivery in order and exactly once, honest
  confirmations, and both sides' agreement on opening and closing.
*/
module TrustedDelivery {
  import opened Common
  import opened TrustedState
  import opened TrustedLifecycle
  import opened TrustedNetwork

  // ---------------------------------------------------------------- the invariant

  /** The data machine of a running endpoint agrees with the history. */
  ghost predicate Book(p: Endpoint) {
    var d := p.socket.data;
    && |p.confirmed| == d.nextSend
    && |p.received| == d.nextReceive
    && |p.framed| == d.nextSend + (if d.sending.Some? then 1 else 0)
    && |p.framed| + |d.pending| == |p.accepted|
    && (d.sending.Some? ==>
          var f := d.sending.value;
          f.id == f.body.seqNo == d.nextSend && f.body.payload == p.framed[d.nextSend])
    && (forall i :: 0 <= i < |d.pending| ==>
          d.pending[i] == Waiting(p.accepted[|p.framed| + i], |p.framed| + i))
  }

  /** History that only grows, so it survives the end of the session. */
  ghost predicate Ledger(p: Endpoint) {
    && p.framed <= p.accepted
    && |p.confirmed| < WIRE && |p.framed| <= WIRE
    && forall i :: 0 <= i < |p.confirmed| ==> p.confirmed[i] == i
  }

  /** `q` holds a prefix of what `p` framed, at most one behind, and all that `p` saw confirmed. */
  ghost predicate Paired(p: Endpoint, q: Endpoint) {
    && q.received <= p.framed
    && |p.confirmed| <= |q.received|
    && |p.framed| <= |q.received| + 1
  }

  /** A handshake half is entered only after hearing the request it answers. */
  ghost predicate Agreed(p: Endpoint, q: Endpoint, strayed: bool) {
    forall c: Control :: c == Fin || !strayed ==>
      && (ShakeOf(p.socket, c).incoming != Yet ==> c in p.heard)
      && (ShakeOf(p.socket, c).outgoing == Full ==> c in q.heard)
      && (c in p.reported ==> c in p.heard && c in q.heard)
  }

  ghost predicate VouchedData(b: DataBody, framed: seq<Bytes>, got: nat) {
    b.seqNo < |framed| && b.payload == framed[b.seqNo] && b.ackNo <= got
  }

  ghost predicate Vouched(a: Action, framed: seq<Bytes>, got: nat, heard: set<Control>) {
    match a
    case SendData(b, _, _) => VouchedData(b, framed, got)
    case DataTimeout(b, _) => VouchedData(b, framed, got)
    case SendDataAck(n, _) => n <= got
    case SendControlAck(c, _) => c in heard
    case Delay(_, actions) => forall i :: 0 <= i < |actions| ==> Vouched(actions[i], framed, got, heard)
    case _ => true
  }

  ghost predicate VouchedBy(a: Action, p: Endpoint) {
    Vouched(a, p.framed, |p.received|, p.heard)
  }

  ghost predicate VouchedFrame(f: Body, p: Endpoint, strayed: bool) {
    match f
    case Request(_) => true
    case RequestAck(c) => c in p.heard || (c == Syn && strayed)
    case DataFrame(b) => VouchedData(b, p.framed, |p.received|) && b.ackNo < WIRE
    case DataAck(n) => n <= |p.received| && n < WIRE
  }

  ghost predicate Half(p: Endpoint, q: Endpoint, sent: set<Body>, strayed: bool) {
    && (!p.ended ==> Book(p) && Consistent(p.socket))
    && Ledger(p) && Paired(p, q) && Agreed(p, q, strayed)
    && (forall a <- p.todo :: VouchedBy(a, p))
    && (forall a <- p.inLink :: VouchedBy(a, p))
    && (forall f <- sent :: VouchedFrame(f, p, strayed))
  }

  ghost predicate Invariant(s: System) {
    Half(s.a, s.b, s.toB, s.strayed) && Half(s.b, s.a, s.toA, s.strayed)
  }

  // ---------------------------------------------------------------- growth

  ghost predicate Grows(p: Endpoint, p': Endpoint) {
    p.framed <= p'.framed && p.received <= p'.received && p.heard <= p'.heard
  }

  lemma {:induction false} VouchedGrows(a: Action, p: Endpoint, p': Endpoint)
    requires VouchedBy(a, p) && Grows(p, p')
    ensures VouchedBy(a, p')
    decreases a
  {
    if a.Delay? {
      forall i | 0 <= i < |a.actions| ensures VouchedBy(a.actions[i], p') {
        assert VouchedBy(a.actions[i], p);
        VouchedGrows(a.actions[i], p, p');
      }
    }
  }

  // ---------------------------------------------------------------- the data machine

  /** The history after a handler, before the hook. */
  function Absorb(p: Endpoint, r: DataResult): Endpoint {
    p.(socket := p.socket.(data := r.data),
       framed := p.framed + Created(p.socket.data.sending, r.data.sending),
       received := p.received + Payloads(r.actions),
       confirmed := p.confirmed + Confirmations(r.resolved))
  }

  ghost predicate Kept(p: Endpoint, q: Endpoint, p': Endpoint, issued: seq<Action>) {
    && Book(p') && Ledger(p') && Paired(p', q) && Paired(q, p') && Grows(p, p')
    && forall a <- issued :: VouchedBy(a, p')
  }

  lemma KeptThenKept(p: Endpoint, q: Endpoint, p1: Endpoint, x: seq<Action>, p2: Endpoint, y: seq<Action>)
    requires Kept(p, q, p1, x) && Kept(p1, q, p2, y)
    ensures Kept(p, q, p2, x + y)
  {
    forall a | a in x + y ensures VouchedBy(a, p2) {
      if a in x {
        VouchedGrows(a, p1, p2);
      }
    }
  }

  ghost predicate Sound(p: Endpoint, q: Endpoint, r: DataResult) {
    Kept(p, q, Absorb(p, r), r.actions)
  }

  lemma IdleIsSound(p: Endpoint, q: Endpoint)
    requires Book(p) && Ledger(p) && Paired(p, q) && Paired(q, p)
    ensures Sound(p, q, SendIfIdle(p.socket.data, []))
    ensures Payloads(SendIfIdle(p.socket.data, []).actions) == []
  {
    assert p.framed + [] == p.framed && p.received + [] == p.received;
  }

  /** `p` with its newest submission queued. */
  function Queue(p: Endpoint, payload: Bytes): Endpoint {
    var d := p.socket.data;
    p.(accepted := p.accepted + [payload],
       socket := p.socket.(data := d.(pending := d.pending + [Waiting(payload, |p.accepted|)])))
  }

  lemma SubmitIsSound(p: Endpoint, q: Endpoint, payload: Bytes)
    requires Book(p) && Ledger(p) && Paired(p, q) && Paired(q, p)
    ensures Sound(p.(accepted := p.accepted + [payload]), q, SendPayload(p.socket.data, payload, |p.accepted|))
  {
    var p1 := Queue(p, payload);
    IdleIsSound(p1, q);
    assert Absorb(p1, SendIfIdle(p1.socket.data, []))
        == Absorb(p.(accepted := p.accepted + [payload]), SendPayload(p.socket.data, payload, |p.accepted|));
  }

  /** `p` after its frame in flight was acknowledged. */
  function Confirm(p: Endpoint, ack: nat): Endpoint
    requires p.socket.data.sending.Some?
  {
    var d := p.socket.data;
    p.(confirmed := p.confirmed + [d.sending.value.id],
       socket := p.socket.(data := d.(sending := None, nextSend := ack)))
  }

  lemma ConfirmIsSound(p: Endpoint, q: Endpoint, ack: nat)
    requires Book(p) && Ledger(p) && Paired(p, q) && Paired(q, p)
    requires p.socket.data.sending.Some? && p.socket.data.sending.value.body.seqNo < ack
    requires ack <= |q.received| && ack < WIRE
    ensures Kept(p, q, Confirm(p, ack), [])
  {
  }

  /** Acknowledging a frame is confirming it and then sending what waits. */
  lemma AckInTwoSteps(p: Endpoint, ack: nat)
    requires p.socket.data.sending.Some? && p.socket.data.sending.value.body.seqNo < ack
    ensures var p1 := Confirm(p, ack);
            var r1, r := SendIfIdle(p1.socket.data, []), HandleAck(p.socket.data, ack);
            r.actions == r1.actions && Absorb(p, r) == Absorb(p1, r1)
  {
    var r := HandleAck(p.socket.data, ack);
    assert Confirmations(r.resolved) == [p.socket.data.sending.value.id];
  }

  lemma AckIsSound(p: Endpoint, q: Endpoint, ack: nat)
    requires Book(p) && Ledger(p) && Paired(p, q) && Paired(q, p)
    requires ack <= |q.received| && ack < WIRE
    ensures Sound(p, q, HandleAck(p.socket.data, ack))
    ensures Payloads(HandleAck(p.socket.data, ack).actions) == []
  {
    var d := p.socket.data;
    if d.sending.None? || ack <= d.sending.value.body.seqNo {
      assert Absorb(p, HandleAck(d, ack)) == p;
    } else {
      ConfirmIsSound(p, q, ack);
      var p1 := Confirm(p, ack);
      IdleIsSound(p1, q);
      var r1 := SendIfIdle(p1.socket.data, []);
      KeptThenKept(p, q, p1, [], Absorb(p1, r1), r1.actions);
      assert [] + r1.actions == r1.actions;
      AckInTwoSteps(p, ack);
    }
  }

  lemma {:induction false} PayloadsAppend(x: seq<Action>, y: seq<Action>)
    ensures Payloads(x + y) == Payloads(x) + Payloads(y)
    decreases |x|
  {
    if x == [] {
      assert x + y == y;
    } else {
      assert (x + y)[0] == x[0] && (x + y)[1..] == x[1..] + y;
      PayloadsAppend(x[1..], y);
    }
  }

  lemma AcceptIsSound(p: Endpoint, q: Endpoint, body: DataBody)
    requires Book(p) && Ledger(p) && Paired(p, q) && Paired(q, p)
    requires VouchedData(body, q.framed, |q.received|)
    ensures Sound(p, q, AcceptData(p.socket.data, body))
    ensures AcceptData(p.socket.data, body).data.sending == p.socket.data.sending
  {
    var r := AcceptData(p.socket.data, body);
    if |r.actions| == 2 {
      assert Payloads(r.actions[1..]) == [];
      assert Payloads(r.actions) == [body.payload];
    } else {
      assert Payloads(r.actions) == [];
    }
  }

  /** A data frame is its acknowledgement, and then its payload. */
  lemma DataInTwoSteps(p: Endpoint, body: DataBody)
    requires p.socket.data.isOpen
    requires HandleAck(p.socket.data, body.ackNo).data.isOpen
    ensures var r1 := HandleAck(p.socket.data, body.ackNo);
            var r2, r := AcceptData(r1.data, body), OnDataReceived(p.socket.data, body);
            && r.actions == r1.actions + r2.actions
            && (r2.data.sending == r1.data.sending ==> Absorb(Absorb(p, r1), r2) == Absorb(p, r))
  {
    var r1 := HandleAck(p.socket.data, body.ackNo);
    var r2 := AcceptData(r1.data, body);
    PayloadsAppend(r1.actions, r2.actions);
    hide HandleAck, AcceptData, Payloads;
    assert p.received + Payloads(r1.actions) + Payloads(r2.actions) == p.received + Payloads(r1.actions + r2.actions);
    assert r2.resolved == [] by {
      NothingResolved(r1.data, body);
    }
    if r2.data.sending == r1.data.sending {
      assert Created(r1.data.sending, r2.data.sending) == [];
    }
  }

  lemma NothingResolved(d: Data, body: DataBody)
    ensures AcceptData(d, body).resolved == []
  {
  }

  lemma StaysOpen(d: Data, ack: nat)
    ensures HandleAck(d, ack).data.isOpen == d.isOpen
  {
  }

  lemma DataIsSound(p: Endpoint, q: Endpoint, body: DataBody)
    requires Book(p) && Ledger(p) && Paired(p, q) && Paired(q, p)
    requires VouchedData(body, q.framed, |q.received|) && body.ackNo < WIRE
    requires p.socket.data.isOpen
    ensures Sound(p, q, OnDataReceived(p.socket.data, body))
  {
    hide HandleAck, AcceptData, OnDataReceived, Book, Ledger, Paired;
    var r1 := HandleAck(p.socket.data, body.ackNo);
    AckIsSound(p, q, body.ackNo);
    StaysOpen(p.socket.data, body.ackNo);
    var p1 := Absorb(p, r1);
    var r2 := AcceptData(r1.data, body);
    AcceptIsSound(p1, q, body);
    DataInTwoSteps(p, body);
    KeptThenKept(p, q, p1, r1.actions, Absorb(p1, r2), r2.actions);
  }

  // ---------------------------------------------------------------- one event

  ghost predicate VouchedEvent(e: Event, p: Endpoint, q: Endpoint, strayed: bool) {
    match e
    case Received(f) => VouchedFrame(f, q, strayed)
    case SendOk(a) => VouchedBy(a, p)
    case SendErr(a) => VouchedBy(a, p)
    case TimedOut(a) => VouchedBy(a, p)
    case Send(_, id) => id == |p.accepted|
    case _ => true
  }

  /** What the event itself adds to the history. */
  function Noted(p: Endpoint, e: Event): Endpoint {
    var p1 := if e.Received? && e.frame.Request? then p.(heard := p.heard + {e.frame.control}) else p;
    if e.Send? then p1.(accepted := p1.accepted + [e.payload]) else p1
  }

  function DataPart(r: Handled): DataResult
    requires r.Handled?
  {
    DataResult(r.socket.data, r.actions, r.resolved)
  }

  /** Handlers that leave the data machine alone and deliver nothing. */
  lemma IdleEventIsSound(p: Endpoint, q: Endpoint, p0: Endpoint, r: Handled)
    requires Book(p) && Ledger(p) && Paired(p, q) && Paired(q, p)
    requires p0 == p.(heard := p0.heard) && p.heard <= p0.heard
    requires r.Handled? && r.socket.data == p.socket.data && Confirmations(r.resolved) == []
    requires forall a <- r.actions :: !a.Receive? && VouchedBy(a, p0)
    ensures Kept(p, q, Absorb(p0, DataPart(r)), r.actions)
    ensures Payloads(r.actions) == []
  {
    NoPayloads(r.actions);
    assert Absorb(p0, DataPart(r)) == p0;
  }

  lemma {:induction false} NoPayloads(actions: seq<Action>)
    requires forall a <- actions :: !a.Receive?
    ensures Payloads(actions) == []
  {
    if actions != [] {
      assert actions[0] in actions;
      NoPayloads(actions[1..]);
    }
  }

  predicate MovesData(e: Event) {
    e.Send? || (e.Received? && (e.frame.DataFrame? || e.frame.DataAck?))
  }

  lemma IdleEventsAreIdle(p: Endpoint, q: Endpoint, e: Event, strayed: bool)
    requires WellTyped(e) && !MovesData(e) && VouchedEvent(e, p, q, strayed)
    requires |p.received| == p.socket.data.nextReceive
    requires Handle(p.socket, e).Handled?
    ensures var r := Handle(p.socket, e);
            && r.socket.data == p.socket.data
            && Confirmations(r.resolved) == []
            && forall a <- r.actions :: !a.Receive? && VouchedBy(a, Noted(p, e))
  {
    match e
    case SendOk(SendControl(c, _, n)) => VouchedDelay(AckTimeout, ControlTimeout(c, n), p);
    case SendOk(SendData(b, _, n)) => VouchedDelay(AckTimeout, DataTimeout(b, n), p);
    case SendErr(a) => RetryIsVouched(a, p);
    case TimedOut(a) => RetryIsVouched(a, p);
    case _ =>
  }

  lemma VouchedDelay(d: Duration, a: Action, p: Endpoint)
    requires VouchedBy(a, p)
    ensures VouchedBy(Delay(d, [a]), p)
  {
  }

  lemma RetryIsVouched(a: Action, p: Endpoint)
    requires a.IsSend() || a.IsTimeout()
    requires VouchedBy(a, p)
    ensures a.Retryable() ==> VouchedBy(a.Retry(), p) && VouchedBy(Delay(RetryInterval, [a.Retry()]), p)
  {
    if a.Retryable() {
      VouchedDelay(RetryInterval, a.Retry(), p);
    }
  }

  lemma EventIsSound(p: Endpoint, q: Endpoint, e: Event, strayed: bool)
    requires WellTyped(e) && VouchedEvent(e, p, q, strayed)
    requires Book(p) && Ledger(p) && Paired(p, q) && Paired(q, p)
    requires Handle(p.socket, e).Handled?
    ensures var r := Handle(p.socket, e);
            var p' := Absorb(Noted(p, e), DataPart(r));
            Kept(p, q, p', r.actions)
  {
    var r := Handle(p.socket, e);
    if !MovesData(e) {
      IdleEventsAreIdle(p, q, e, strayed);
      IdleEventIsSound(p, q, Noted(p, e), r);
    } else if !p.socket.data.isOpen {
      NothingIsSound(p, q, DataPart(r));
    } else if e.Send? {
      SubmitIsSound(p, q, e.payload);
    } else if e.frame.DataFrame? {
      DataIsSound(p, q, e.frame.body);
    } else {
      AckIsSound(p, q, e.frame.ackNo);
    }
  }

  lemma NothingIsSound(p: Endpoint, q: Endpoint, r: DataResult)
    requires Book(p) && Ledger(p) && Paired(p, q) && Paired(q, p)
    requires r == DataResult(p.socket.data, [], [])
    ensures Sound(p, q, r)
  {
    assert Absorb(p, r) == p;
  }

  // ---------------------------------------------------------------- the hook

  lemma {:induction false} ConfirmationsAppend(x: seq<Resolution>, y: seq<Resolution>)
    ensures Confirmations(x + y) == Confirmations(x) + Confirmations(y)
    decreases |x|
  {
    if x == [] {
      assert x + y == y;
    } else {
      assert (x + y)[0] == x[0] && (x + y)[1..] == x[1..] + y;
      ConfirmationsAppend(x[1..], y);
    }
  }

  lemma {:induction false} AbandonedConfirmsNothing(pending: seq<Waiting>)
    ensures Confirmations(Abandoned(pending)) == []
  {
    if pending != [] {
      AbandonedConfirmsNothing(pending[1..]);
      assert Abandoned(pending)[1..] == Abandoned(pending[1..]);
    }
  }

  /** A handler that closes leaves the data machine as it was. */
  lemma ClosingMovesNothing(s: Socket, e: Event)
    requires WellTyped(e) && Handle(s, e).Handled? && IsClose(Handle(s, e).actions)
    ensures Handle(s, e).socket.data == s.data
  {
  }

  lemma ClosesIs(actions: seq<Action>)
    requires Lifecycle(actions)
    ensures Closes(actions) == IsClose(actions)
  {
    if |actions| == 1 {
      assert actions[0] in actions;
    }
  }

  lemma ReportedConfirms(r: Handled)
    requires r.Handled?
    ensures Confirmations(Reported(r)) == Confirmations(r.resolved)
  {
    var rest := if IsClose(r.actions) then Abandoned(r.socket.data.pending) else [];
    AbandonedConfirmsNothing(r.socket.data.pending);
    ConfirmationsAppend(r.resolved, rest);
  }

  /** The hook changes what is in flight only by closing, and then no frame was created. */
  lemma CreatedIs(s: Socket, e: Event)
    requires WellTyped(e) && Handle(s, e).Handled? && Lifecycle(Handle(s, e).actions)
    ensures Created(s.data.sending, Settled(Handle(s, e).socket, Handle(s, e).actions).data.sending)
         == Created(s.data.sending, Handle(s, e).socket.data.sending)
  {
    if IsClose(Handle(s, e).actions) {
      ClosingMovesNothing(s, e);
    }
  }

  /** `React` is the handler's work on the history plus the hook's on the socket. */
  lemma ReactIs(p: Endpoint, e: Event)
    requires WellTyped(e) && Handle(p.socket, e).Handled? && !p.ended
    ensures var r := Handle(p.socket, e);
            var p1, p' := Absorb(Noted(p, e), DataPart(r)), React(p, e);
            && Lifecycle(r.actions)
            && p' == p1.(socket := Settled(r.socket, r.actions), todo := p.todo + multiset(r.actions),
                         ended := IsClose(r.actions), reported := p.reported + Completions(r.actions))
  {
    var r := Handle(p.socket, e);
    HandleIsLifecycle(p.socket, e);
    HookSettles(p.socket.state, r);
    ClosesIs(r.actions);
    ReportedConfirms(r);
    CreatedIs(p.socket, e);
    ActionsKept(p.socket.state, r);
    assert Step(p.socket, e) == Hook(p.socket.state, r);
  }

  lemma ActionsKept(prev: StateType, r: Handled)
    requires r.Handled?
    ensures Hook(prev, r).Done? && Hook(prev, r).actions == r.actions
  {
  }

  // ---------------------------------------------------------------- agreement

  ghost predicate Witnessed(s: Socket, c: Control, heard: set<Control>, heardByPeer: set<Control>) {
    && (ShakeOf(s, c).incoming != Yet ==> c in heard)
    && (ShakeOf(s, c).outgoing == Full ==> c in heardByPeer)
  }

  ghost predicate StaysWitnessed(s: Socket, r: Handled, c: Control, heard: set<Control>, heardByPeer: set<Control>)
    requires r.Handled?
  {
    && Witnessed(r.socket, c, heard, heardByPeer)
    && (Completion(c) in r.actions ==> ShakeOf(r.socket, c).Finished())
  }

  lemma ReceiveIsWitnessed(p: Endpoint, q: Endpoint, f: Body, strayed: bool, c: Control)
    requires VouchedFrame(f, q, strayed) && (c == Fin || !strayed)
    requires Witnessed(p.socket, c, p.heard, q.heard)
    ensures StaysWitnessed(p.socket, OnReceive(p.socket, f), c, Noted(p, Received(f)).heard, q.heard)
  {
  }

  lemma SentIsWitnessed(p: Endpoint, q: Endpoint, a: Action, c: Control)
    requires a.IsSend() && Witnessed(p.socket, c, p.heard, q.heard)
    ensures StaysWitnessed(p.socket, OnSendSuccess(p.socket, a), c, p.heard, q.heard)
  {
  }

  lemma FailedIsWitnessed(p: Endpoint, q: Endpoint, a: Action, c: Control)
    requires a.IsSend() && OnSendFailure(p.socket, a).Handled?
    requires Witnessed(p.socket, c, p.heard, q.heard)
    ensures StaysWitnessed(p.socket, OnSendFailure(p.socket, a), c, p.heard, q.heard)
  {
  }

  lemma HandleIsWitnessed(p: Endpoint, q: Endpoint, e: Event, strayed: bool, c: Control)
    requires WellTyped(e) && VouchedEvent(e, p, q, strayed) && Handle(p.socket, e).Handled?
    requires c == Fin || !strayed
    requires Witnessed(p.socket, c, p.heard, q.heard)
    ensures StaysWitnessed(p.socket, Handle(p.socket, e), c, Noted(p, e).heard, q.heard)
  {
    match e
    case Received(f) => ReceiveIsWitnessed(p, q, f, strayed, c);
    case SendOk(a) => SentIsWitnessed(p, q, a, c);
    case SendErr(a) => FailedIsWitnessed(p, q, a, c);
    case _ =>
  }

  /** The hook resets both handshakes or neither. */
  lemma SettledIsWitnessed(s: Socket, r: Handled, c: Control, heard: set<Control>, heardByPeer: set<Control>)
    requires r.Handled? && Lifecycle(r.actions) && StaysWitnessed(s, r, c, heard, heardByPeer)
    ensures Witnessed(Settled(r.socket, r.actions), c, heard, heardByPeer)
    ensures c in Completions(r.actions) ==> c in heard && c in heardByPeer
  {
  }

  lemma EventAgrees(p: Endpoint, q: Endpoint, e: Event, strayed: bool)
    requires WellTyped(e) && VouchedEvent(e, p, q, strayed) && !p.ended
    requires Handle(p.socket, e).Handled?
    requires Agreed(p, q, strayed) && Agreed(q, p, strayed)
    ensures Agreed(React(p, e), q, strayed) && Agreed(q, React(p, e), strayed)
  {
    ReactIs(p, e);
    hide React, Handle, Settled, Completions, Lifecycle, VouchedEvent, Confirmations, Payloads, Created;
    var p', r := React(p, e), Handle(p.socket, e);
    assert p'.heard == Noted(p, e).heard && p.heard <= p'.heard;
    forall c: Control | c == Fin || !strayed
      ensures Witnessed(p'.socket, c, p'.heard, q.heard)
      ensures c in p'.reported ==> c in p'.heard && c in q.heard
    {
      HandleIsWitnessed(p, q, e, strayed, c);
      SettledIsWitnessed(p.socket, r, c, p'.heard, q.heard);
    }
  }

  // ---------------------------------------------------------------- one move

  /** All that `Half` says of the mover and of its peer, except the messages. */
  ghost predicate Running(p: Endpoint, q: Endpoint, strayed: bool) {
    && (!p.ended ==> Book(p) && Consistent(p.socket))
    && Ledger(p) && Paired(p, q) && Paired(q, p)
    && Agreed(p, q, strayed) && Agreed(q, p, strayed)
  }

  ghost predicate AllVouched(actions: multiset<Action>, p: Endpoint) {
    forall a <- actions :: VouchedBy(a, p)
  }

  lemma AllVouchedGrows(actions: multiset<Action>, p: Endpoint, p': Endpoint)
    requires AllVouched(actions, p) && Grows(p, p')
    ensures AllVouched(actions, p')
  {
    forall a | a in actions ensures VouchedBy(a, p') { VouchedGrows(a, p, p'); }
  }

  ghost predicate Advanced(p: Endpoint, q: Endpoint, p': Endpoint, strayed: bool) {
    && Running(p', q, strayed) && Grows(p, p')
    && AllVouched(p'.todo, p') && AllVouched(p'.inLink, p')
  }

  /** The hook's part of a reaction touches nothing the books speak of. */
  lemma HookKeepsBooks(p1: Endpoint, q: Endpoint, p': Endpoint)
    requires Ledger(p1) && Paired(p1, q) && Paired(q, p1)
    requires p' == p1.(socket := p'.socket, todo := p'.todo, ended := p'.ended, reported := p'.reported)
    ensures Ledger(p') && Paired(p', q) && Paired(q, p')
    ensures Book(p1) && p'.socket.data == p1.socket.data.(isOpen := p'.socket.data.isOpen) ==> Book(p')
    ensures forall a :: VouchedBy(a, p1) ==> VouchedBy(a, p')
  {
  }

  lemma SettledData(r: Handled)
    requires r.Handled? && Lifecycle(r.actions) && !IsClose(r.actions)
    ensures var d := Settled(r.socket, r.actions).data; d == r.socket.data.(isOpen := d.isOpen)
  {
  }

  lemma ReactAdvances(p: Endpoint, q: Endpoint, e: Event, strayed: bool)
    requires WellTyped(e) && VouchedEvent(e, p, q, strayed) && !p.ended
    requires Running(p, q, strayed) && AllVouched(p.todo, p) && AllVouched(p.inLink, p)
    ensures Advanced(p, q, React(p, e), strayed)
  {
    var p', r := React(p, e), Handle(p.socket, e);
    if r.Handled? {
      EventIsSound(p, q, e, strayed);
      ReactIs(p, e);
      EventAgrees(p, q, e, strayed);
      StepKeepsConsistent(p.socket, e);
      Consolidate(p, q, Absorb(Noted(p, e), DataPart(r)), p', r, strayed);
    } else {
      RefusalAdvances(p, q, e, strayed);
    }
  }

  lemma Consolidate(p: Endpoint, q: Endpoint, p1: Endpoint, p': Endpoint, r: Handled, strayed: bool)
    requires AllVouched(p.todo, p) && AllVouched(p.inLink, p)
    requires r.Handled? && Lifecycle(r.actions)
    requires Kept(p, q, p1, r.actions) && p1.inLink == p.inLink && p1.socket.data == r.socket.data
    requires p' == p1.(socket := Settled(r.socket, r.actions), todo := p.todo + multiset(r.actions),
                       ended := IsClose(r.actions), reported := p'.reported)
    requires Agreed(p', q, strayed) && Agreed(q, p', strayed) && Consistent(p'.socket)
    ensures Advanced(p, q, p', strayed)
  {
    HookKeepsBooks(p1, q, p');
    if !p'.ended {
      SettledData(r);
    }
    AllVouchedGrows(p.todo, p, p');
    AllVouchedGrows(p.inLink, p, p');
    forall a | a in p'.todo ensures VouchedBy(a, p') {
      if a !in p.todo {
        assert a in r.actions;
      }
    }
  }

  lemma RefusalAdvances(p: Endpoint, q: Endpoint, e: Event, strayed: bool)
    requires WellTyped(e) && !Handle(p.socket, e).Handled? && !p.ended
    requires Running(p, q, strayed) && AllVouched(p.todo, p) && AllVouched(p.inLink, p)
    ensures Advanced(p, q, React(p, e), strayed)
  {
    assert React(p, e) == p;
  }

  /** Moving actions from one list to another changes nothing that the books speak of. */
  lemma ShuffleAdvances(p: Endpoint, q: Endpoint, p': Endpoint, strayed: bool)
    requires Running(p, q, strayed) && AllVouched(p.todo, p) && AllVouched(p.inLink, p)
    requires p' == p.(todo := p'.todo, inLink := p'.inLink)
    requires forall a <- p'.todo :: VouchedBy(a, p)
    requires forall a <- p'.inLink :: VouchedBy(a, p)
    ensures Advanced(p, q, p', strayed)
  {
    AllVouchedGrows(p'.todo, p, p');
    AllVouchedGrows(p'.inLink, p, p');
  }

  predicate Schedules(p: Endpoint, m: Move) {
    m.Transmit? || (m.Wake? && m.action.Delay?)
  }

  lemma ScheduleAdvances(p: Endpoint, q: Endpoint, inbox: set<Body>, m: Move, strayed: bool)
    requires Running(p, q, strayed) && AllVouched(p.todo, p) && AllVouched(p.inLink, p)
    requires Schedules(p, m)
    ensures Advanced(p, q, Act(p, inbox, m), strayed)
  {
    var p' := Act(p, inbox, m);
    if p' != p && m.Wake? {
      assert VouchedBy(m.action, p);
      assert forall b <- m.action.actions :: VouchedBy(b, p);
    }
    ShuffleAdvances(p, q, p', strayed);
  }

  lemma TaskAdvances(p: Endpoint, q: Endpoint, inbox: set<Body>, m: Move, strayed: bool)
    requires Running(p, q, strayed) && AllVouched(p.todo, p) && AllVouched(p.inLink, p) && !p.ended
    requires m.LinkOk? || m.LinkErr? || m.Unsent? || (m.Wake? && !m.action.Delay?)
    ensures Advanced(p, q, Act(p, inbox, m), strayed)
  {
    hide React, Running, Advanced, AllVouched;
    Everything(p);
    ShuffleAdvances(p, q, p, strayed);
    var a := m.action;
    match m
    case LinkOk(_) => if a in p.inLink && a.IsSend() { TakeAndReact(p, q, a, SendOk(a), true, strayed); }
    case LinkErr(_) => if a in p.inLink && a.IsSend() { TakeAndReact(p, q, a, SendErr(a), true, strayed); }
    case Unsent(_) => if a in p.todo && a.IsSend() { TakeAndReact(p, q, a, SendErr(a), false, strayed); }
    case Wake(_) => if a in p.todo && a.IsTimeout() { TakeAndReact(p, q, a, TimedOut(a), false, strayed); }
  }

  lemma Everything(p: Endpoint)
    requires AllVouched(p.todo, p) && AllVouched(p.inLink, p)
    ensures forall a <- p.todo :: VouchedBy(a, p)
    ensures forall a <- p.inLink :: VouchedBy(a, p)
  {
  }

  lemma ActAdvances(p: Endpoint, q: Endpoint, inbox: set<Body>, m: Move, strayed: bool)
    requires Running(p, q, strayed) && AllVouched(p.todo, p) && AllVouched(p.inLink, p)
    requires forall f <- inbox :: VouchedFrame(f, q, strayed)
    ensures Advanced(p, q, Act(p, inbox, m), strayed)
  {
    hide React, Running, Advanced, VouchedFrame, Vouched, AllVouched;
    Everything(p);
    ShuffleAdvances(p, q, p, strayed);
    if !p.ended {
      match m
      case Command(c) => ReactAdvances(p, q, if c == Syn then Connect else Shutdown, strayed);
      case Submit(payload) => ReactAdvances(p, q, Send(payload, |p.accepted|), strayed);
      case Deliver(f) => if f in inbox { ReactAdvances(p, q, Received(f), strayed); }
      case Transmit(_) => ScheduleAdvances(p, q, inbox, m, strayed);
      case Wake(a) =>
        if a.Delay? { ScheduleAdvances(p, q, inbox, m, strayed); } else { TaskAdvances(p, q, inbox, m, strayed); }
      case _ => TaskAdvances(p, q, inbox, m, strayed);
    }
  }

  /** `p` with one action taken from its list. */
  function Taken(p: Endpoint, a: Action, fromLink: bool): Endpoint {
    if fromLink then p.(inLink := p.inLink - multiset{a}) else p.(todo := p.todo - multiset{a})
  }

  lemma TakeAndReact(p: Endpoint, q: Endpoint, a: Action, e: Event, fromLink: bool, strayed: bool)
    requires Running(p, q, strayed) && AllVouched(p.todo, p) && AllVouched(p.inLink, p) && !p.ended
    requires a in if fromLink then p.inLink else p.todo
    requires e in {SendOk(a), SendErr(a), TimedOut(a)} && WellTyped(e)
    ensures Advanced(p, q, React(Taken(p, a, fromLink), e), strayed)
  {
    var p1 := Taken(p, a, fromLink);
    ShuffleAdvances(p, q, p1, strayed);
    VouchedGrows(a, p, p1);
    ReactAdvances(p1, q, e, strayed);
  }

  lemma FrameGrows(f: Body, p: Endpoint, p': Endpoint, strayed: bool, strayed': bool)
    requires VouchedFrame(f, p, strayed) && Grows(p, p') && (strayed ==> strayed')
    ensures VouchedFrame(f, p', strayed')
  {
  }

  lemma WireIsVouched(a: Action, p: Endpoint, strayed: bool)
    requires a.IsSend() && VouchedBy(a, p) && |p.framed| <= WIRE
    ensures VouchedFrame(Wire(a), p, strayed)
  {
  }

  lemma MoveKeepsInvariant(s: System, m: Move)
    requires Invariant(s)
    ensures Invariant(MoveA(s, m))
  {
    var s' := MoveA(s, m);
    ActAdvances(s.a, s.b, s.toA, m, s.strayed);
    forall f | f in s'.toB ensures VouchedFrame(f, s'.a, s.strayed) {
      if f in s.toB {
        FrameGrows(f, s.a, s'.a, s.strayed, s.strayed);
      } else {
        WireIsVouched(m.action, s.a, s.strayed);
        FrameGrows(f, s.a, s'.a, s.strayed, s.strayed);
      }
    }
  }

  lemma StrayKeepsInvariant(s: System, f: Body)
    requires Invariant(s)
    ensures Invariant(Next(s, Stray(f)))
  {
    var s' := Next(s, Stray(f));
    forall g | g in s'.toB ensures VouchedFrame(g, s'.a, s'.strayed) {
      if g in s.toB { FrameGrows(g, s.a, s'.a, s.strayed, s'.strayed); }
    }
    forall g | g in s'.toA ensures VouchedFrame(g, s'.b, s'.strayed) {
      if g in s.toA { FrameGrows(g, s.b, s'.b, s.strayed, s'.strayed); }
    }
  }

  lemma TurnKeepsInvariant(s: System, t: Turn)
    requires Invariant(s)
    ensures Invariant(Next(s, t))
  {
    hide MoveA;
    match t
    case TurnA(m) => MoveKeepsInvariant(s, m);
    case TurnB(m) => MoveKeepsInvariant(s.Swap(), m);
    case Stray(f) => StrayKeepsInvariant(s, f);
  }

  lemma FreshIsInvariant()
    ensures Invariant(FRESH_SYSTEM)
  {
  }

  lemma ReachableIsInvariant(s: System)
    requires Reachable(s)
    ensures Invariant(s)
  {
    hide Next, Invariant;
    var systems := iset r | Invariant(r);
    FreshIsInvariant();
    forall r, t | r in systems ensures Next(r, t) in systems {
      TurnKeepsInvariant(r, t);
    }
    assert ClosedUnderTurns(systems);
  }

  // ---------------------------------------------------------------- the results

  ghost predicate InOrder(p: Endpoint, q: Endpoint) {
    q.received <= p.framed <= p.accepted && |p.framed| <= |q.received| + 1
  }

  /** In every run, in both directions: what one side reported received is a prefix of what
      the other framed, which is a prefix of what was handed to it; the sender is at most
      one frame ahead. */
  lemma ExactlyOnceInOrder(s: System)
    requires Reachable(s)
    ensures InOrder(s.a, s.b) && InOrder(s.b, s.a)
  {
    ReachableIsInvariant(s);
  }

  ghost predicate Honest(p: Endpoint, q: Endpoint) {
    && |p.confirmed| <= 65535
    && (forall i :: 0 <= i < |p.confirmed| ==>
          p.confirmed[i] == i && i < |q.received| && i < |p.accepted| && q.received[i] == p.accepted[i])
    && (!p.ended && p.socket.data.sending.Some? ==> p.socket.data.sending.value.body.seqNo <= 65535)
  }

  /** Every promise resolved Ok, in order from the first, belongs to a payload the peer has
      reported; 65535 is the most there can be, since the acknowledgement 65536 is 0 on the
      wire, and no larger sequence number is ever used. */
  lemma ConfirmationsAreHonest(s: System)
    requires Reachable(s)
    ensures Honest(s.a, s.b) && Honest(s.b, s.a)
  {
    ReachableIsInvariant(s);
  }

  ghost predicate Agreement(s: System, c: Control) {
    (c == Fin || !s.strayed) && (c in s.a.reported || c in s.b.reported)
    ==> c in s.a.heard && c in s.b.heard
  }

  /** Without forged SYN or SYN-ACK, `Open` and a clean `Close` are reported only after both
      sides received the other's SYN, or FIN. */
  lemma BothSidesAgree(s: System, c: Control)
    requires Reachable(s)
    ensures Agreement(s, c)
  {
    ReachableIsInvariant(s);
  }

  lemma FrameArrives(q: Socket, body: DataBody)
    requires q.data.isOpen && q.data.nextReceive == body.seqNo
    ensures var there := Step(q, Received(DataFrame(body)));
            && there.Done? && there.socket.data.nextReceive == body.seqNo + 1
            && Receive(body.payload) in there.actions && CreateDataAck(body.seqNo + 1) in there.actions
  {
    var e := Received(DataFrame(body));
    var r := Handle(q, e);
    HandleIsLifecycle(q, e);
    HookSettles(q.state, r);
    ActionsKept(q.state, r);
    var tail := AcceptData(HandleAck(q.data, body.ackNo).data, body).actions;
    assert tail[0] == Receive(body.payload) && tail[1] == CreateDataAck(body.seqNo + 1);
    assert tail[0] in r.actions && tail[1] in r.actions;
  }

  lemma AckReturns(p: Socket, ack: nat)
    requires p.data.isOpen && p.data.sending.Some?
    ensures var back := Step(p, Received(DataAck(ack)));
            && back.Done?
            && (Resolution(p.data.sending.value.id, true) in back.resolved <==> ack > p.data.sending.value.body.seqNo)
  {
    var r := Handle(p, Received(DataAck(ack)));
    HandleIsLifecycle(p, Received(DataAck(ack)));
    HookSettles(p.state, r);
    if ack > p.data.sending.value.body.seqNo {
      assert r.resolved[0] == Resolution(p.data.sending.value.id, true);
    }
  }

  /** One frame there and its acknowledgement back deliver the payload and settle the
      promise: exactly for sequence numbers below 65535. */
  lemma RoundTripConfirms(p: Socket, q: Socket, n: nat)
    requires p.data.isOpen && p.data.sending.Some? && p.data.sending.value.body.seqNo == n < WIRE
    requires q.data.isOpen && q.data.nextReceive == n
    ensures var f := p.data.sending.value;
            var there := Step(q, Received(Wire(CreateData(f.body))));
            var reply := CreateDataAck(n + 1);
            var back := Step(p, Received(Wire(reply)));
            && there.Done? && Receive(f.body.payload) in there.actions && reply in there.actions
            && there.socket.data.nextReceive == n + 1
            && back.Done? && (Resolution(f.id, true) in back.resolved <==> n < 65535)
  {
    hide Step;
    FrameArrives(q, Wire(CreateData(p.data.sending.value.body)).body);
    AckReturns(p, (n + 1) % WIRE);
  }
}
