/**
  What the handlers of the trusted transport do to a caller, event by event: for every state
  and event, exactly when a handshake is reported, a payload delivered, a promise settled, a
  frame created or the session given up.
*/
module TrustedHandlers {
  import opened Common
  import opened TrustedState
  import opened TrustedLifecycle

  // ---------------------------------------------------------------- handshakes

  /** The acknowledgement that was still missing: received, or sent. */
  predicate Concludes(s: Socket, e: Event, c: Control) {
    var h := ShakeOf(s, c);
    || (e == Received(RequestAck(c)) && h.incoming == Full && h.outgoing != Yet)
    || (e.SendOk? && e.action.SendControlAck? && e.action.control == c && h.incoming == Half && h.outgoing == Full)
  }

  predicate Reports(s: Socket, e: Event, c: Control, r: Handled)
    requires r.Handled?
  {
    && (Completion(c) in r.actions <==> Concludes(s, e, c))
    && (Concludes(s, e, c) ==> ShakeOf(r.socket, c).Finished())
    && (ShakeOf(r.socket, c).Finished() ==> Concludes(s, e, c) || ShakeOf(s, c).Finished())
  }

  lemma ReceiveReports(s: Socket, f: Body, c: Control)
    ensures Reports(s, Received(f), c, OnReceive(s, f))
  {
    if f.DataFrame? {
      ReceivedActions(s.data, f.body);
    }
  }

  /** Apart from the frame it may create, a data frame leads to a delivery and an answer. */
  lemma ReceivedActions(d: Data, body: DataBody)
    ensures forall a <- OnDataReceived(d, body).actions :: a.SendData? || a.Receive? || a.SendDataAck?
  {
    var r := HandleAck(d, body.ackNo);
    assert forall a <- r.actions :: a.SendData?;
    assert forall a <- AcceptData(r.data, body).actions :: a.Receive? || a.SendDataAck?;
  }

  lemma SentReports(s: Socket, a: Action, c: Control)
    requires a.IsSend()
    ensures Reports(s, SendOk(a), c, OnSendSuccess(s, a))
  {
  }

  lemma FailedReports(s: Socket, a: Action, c: Control)
    requires a.IsSend() && OnSendFailure(s, a).Handled?
    ensures Reports(s, SendErr(a), c, OnSendFailure(s, a))
  {
  }

  /** `Open`, or a clean `Close`, is reported exactly by the acknowledgement that was missing,
      and exactly then the handshake is finished by this event. */
  lemma ReportsExactly(s: Socket, e: Event, c: Control)
    requires WellTyped(e) && Handle(s, e).Handled?
    ensures Reports(s, e, c, Handle(s, e))
  {
    hide OnReceive, OnSendSuccess, OnSendFailure;
    match e
    case Received(f) => ReceiveReports(s, f, c);
    case SendOk(a) => SentReports(s, a, c);
    case SendErr(a) => FailedReports(s, a, c);
    case _ =>
  }

  /** The application's call, or the peer's request when none was sent yet. */
  predicate Asks(s: Socket, e: Event, c: Control) {
    || e == (if c == Syn then Connect else Shutdown)
    || (e == Received(Request(c)) && ShakeOf(s, c).outgoing == Yet)
  }

  predicate IsRetried(e: Event) {
    e.SendErr? || e.TimedOut?
  }

  predicate Answers(s: Socket, e: Event, c: Control, r: Handled)
    requires r.Handled?
  {
    && (CreateControlAck(c) in r.actions <==> e == Received(Request(c)))
    && (!IsRetried(e) ==> (CreateControl(c) in r.actions <==> Asks(s, e, c)))
  }

  lemma ReceiveAnswers(s: Socket, f: Body, c: Control)
    ensures Answers(s, Received(f), c, OnReceive(s, f))
  {
    if f.DataFrame? {
      ReceivedActions(s.data, f.body);
    }
  }

  /** Every request is acknowledged.  Requests of one's own, but for retries, go with the
      acknowledgement if none was sent, or come from the application. */
  lemma AnswersExactly(s: Socket, e: Event, c: Control)
    requires WellTyped(e) && Handle(s, e).Handled?
    ensures Answers(s, e, c, Handle(s, e))
  {
    hide OnReceive;
    if e.Received? {
      ReceiveAnswers(s, e.frame, c);
    }
  }

  // ---------------------------------------------------------------- budgets

  /** The counters an action carries, also inside a delay. */
  predicate InBudget(a: Action) {
    match a
    case SendControl(_, r, k) => 0 <= r <= RETRY_COUNT && 0 <= k <= RETRY_COUNT
    case SendData(_, r, k) => 0 <= r <= RETRY_COUNT && 0 <= k <= RETRY_COUNT
    case ControlTimeout(_, k) => 0 <= k <= RETRY_COUNT
    case DataTimeout(_, k) => 0 <= k <= RETRY_COUNT
    case SendControlAck(_, r) => r == RETRY_COUNT
    case SendDataAck(_, r) => r == RETRY_COUNT
    case Delay(_, actions) => forall i :: 0 <= i < |actions| ==> InBudget(actions[i])
    case _ => true
  }

  predicate Spendable(e: Event) {
    (e.SendOk? || e.SendErr? || e.TimedOut?) ==> InBudget(e.action)
  }

  /** No action ever gets a counter out of range, and acknowledgements keep theirs in full. */
  lemma BudgetsStayInRange(s: Socket, e: Event)
    requires WellTyped(e) && Spendable(e) && Handle(s, e).Handled?
    ensures forall a <- Handle(s, e).actions :: InBudget(a)
  {
    hide OnReceive;
    match e
    case Received(f) => ReceivingIsInBudget(s, f);
    case SendOk(SendControl(c, _, k)) => DelayInBudget(AckTimeout, ControlTimeout(c, k));
    case SendOk(SendData(b, _, k)) => DelayInBudget(AckTimeout, DataTimeout(b, k));
    case SendErr(a) => RetryInBudget(a);
    case TimedOut(a) => RetryInBudget(a);
    case _ =>
  }

  lemma ReceivingIsInBudget(s: Socket, f: Body)
    ensures forall a <- OnReceive(s, f).actions :: InBudget(a)
  {
    if f.DataFrame? {
      var r := HandleAck(s.data, f.body.ackNo);
      assert forall a <- r.actions :: InBudget(a);
      assert forall a <- AcceptData(r.data, f.body).actions :: InBudget(a);
    }
  }

  lemma DelayInBudget(d: Duration, a: Action)
    requires InBudget(a)
    ensures InBudget(Delay(d, [a]))
  {
  }

  lemma RetryInBudget(a: Action)
    requires (a.IsSend() || a.IsTimeout()) && InBudget(a)
    ensures a.Retryable() ==> InBudget(a.Retry()) && InBudget(Delay(RetryInterval, [a.Retry()]))
    ensures a.SendControlAck? || a.SendDataAck? ==> !a.Retryable()
  {
    if a.Retryable() {
      DelayInBudget(RetryInterval, a.Retry());
    }
  }

  /** An acknowledgement whose sending fails is never sent again: it is ignored, gives the
      session up, or throws. */
  lemma AcksAreNeverRetried(s: Socket, a: Action)
    requires (a.SendControlAck? || a.SendDataAck?) && InBudget(a)
    ensures var r := Handle(s, SendErr(a));
            && (r.Crashed? <==> a.SendControlAck? && a.control == Fin && s.fin.incoming == Half)
            && (r.Handled? ==> r.actions == [] || r.actions == [Close(true)])
  {
  }

  /** The action whose failure, or whose timeout, the budget does not cover any more. */
  predicate UsedUp(s: Socket, e: Event) {
    match e
    case TimedOut(ControlTimeout(c, k)) => ShakeOf(s, c).outgoing == Half && k == 0
    case TimedOut(DataTimeout(b, k)) => InFlight(s.data, b) && k == 0
    case SendErr(SendControl(c, r, _)) => ShakeOf(s, c).outgoing == Yet && r == 0
    case SendErr(SendData(b, r, _)) => InFlight(s.data, b) && r == 0
    case SendErr(SendControlAck(c, _)) => c == Syn && s.syn.incoming == Half
    case SendErr(SendDataAck(n, _)) => s.data.isOpen && s.data.sending.Some? && n == s.data.nextReceive
    case _ => false
  }

  /** The session is given up exactly when a budget is used up for something still waited for,
      or when an acknowledgement that is still due cannot be sent. */
  lemma FailsExactly(s: Socket, e: Event)
    requires WellTyped(e) && Spendable(e) && Handle(s, e).Handled?
    ensures Close(true) in Handle(s, e).actions <==> UsedUp(s, e)
  {
    hide OnReceive;
    if e.Received? {
      ReceivingNeverFails(s, e.frame);
    }
  }

  lemma ReceivingNeverFails(s: Socket, f: Body)
    ensures Close(true) !in OnReceive(s, f).actions
  {
    if f.DataFrame? {
      ReceivedActions(s.data, f.body);
    }
  }

  // ---------------------------------------------------------------- data

  /** A payload is delivered exactly if it comes with the number that is expected, and that
      number then moves on by one. */
  lemma DeliversExactly(s: Socket, e: Event, payload: Bytes)
    requires WellTyped(e) && Handle(s, e).Handled?
    ensures var expected := e.Received? && e.frame.DataFrame? && s.data.isOpen
              && e.frame.body.seqNo == s.data.nextReceive;
            && (Receive(payload) in Handle(s, e).actions <==> expected && e.frame.body.payload == payload)
            && Handle(s, e).socket.data.nextReceive == s.data.nextReceive + if expected then 1 else 0
  {
    if e.Received? && e.frame.DataFrame? && s.data.isOpen {
      AckMoves(s.data, e.frame.body.ackNo);
      var r := HandleAck(s.data, e.frame.body.ackNo);
      var t := AcceptData(r.data, e.frame.body);
      assert Handle(s, e).actions == r.actions + t.actions;
    }
  }

  /** Frames up to the expected one are acknowledged, with the number expected next; later
      ones are not. */
  lemma AcknowledgesExactly(s: Socket, body: DataBody, n: nat)
    requires s.data.isOpen
    ensures var r := Handle(s, Received(DataFrame(body)));
            CreateDataAck(n) in r.actions <==> body.seqNo <= s.data.nextReceive && n == r.socket.data.nextReceive
  {
    AckMoves(s.data, body.ackNo);
    var r := HandleAck(s.data, body.ackNo);
    var t := AcceptData(r.data, body);
    assert Handle(s, Received(DataFrame(body))).actions == r.actions + t.actions;
    assert CreateDataAck(n) in t.actions <==> body.seqNo <= s.data.nextReceive && n == t.data.nextReceive;
  }

  lemma AckMoves(d: Data, ack: nat)
    ensures var r := HandleAck(d, ack);
            && r.data.nextReceive == d.nextReceive && r.data.isOpen == d.isOpen
            && (forall a <- r.actions :: a.SendData?)
  {
  }

  function AckIn(e: Event): Option<nat> {
    match e
    case Received(DataFrame(body)) => Some(body.ackNo)
    case Received(DataAck(n)) => Some(n)
    case _ => None
  }

  /** A promise resolves Ok exactly if it is that of the frame in flight and an acknowledgement
      beyond its number arrives. */
  lemma SettlesExactly(s: Socket, e: Event, id: nat)
    requires WellTyped(e) && Handle(s, e).Handled?
    ensures Resolution(id, true) in Handle(s, e).resolved
       <==> && s.data.isOpen && s.data.sending.Some? && s.data.sending.value.id == id
            && AckIn(e).Some? && AckIn(e).value > s.data.sending.value.body.seqNo
  {
  }

  /** The frame in flight carries the number of the next acknowledgement's predecessor. */
  predicate Numbered(d: Data) {
    d.sending.Some? ==> d.sending.value.body.seqNo == d.nextSend
  }

  /** From one frame in flight to the next. */
  predicate Advances(before: Data, after: Data, actions: seq<Action>, body: DataBody) {
    && Numbered(after) && after.nextSend >= before.nextSend
    && (CreateData(body) in actions
        <==> after.sending.Some? && after.sending != before.sending && after.sending.value.body == body)
    && (after.sending.Some? && after.sending != before.sending ==>
          before.sending.None? || after.nextSend > before.nextSend)
  }

  lemma AckAdvances(d: Data, ack: nat, body: DataBody)
    requires Numbered(d)
    ensures Advances(d, HandleAck(d, ack).data, HandleAck(d, ack).actions, body)
  {
  }

  lemma ReceiveAdvances(d: Data, got: DataBody, body: DataBody)
    requires Numbered(d)
    ensures Advances(d, OnDataReceived(d, got).data, OnDataReceived(d, got).actions, body)
  {
    if d.isOpen {
      AckAdvances(d, got.ackNo, body);
      var r := HandleAck(d, got.ackNo);
      var t := AcceptData(r.data, got);
      assert CreateData(body) in r.actions + t.actions <==> CreateData(body) in r.actions;
    }
  }

  /** Stop and wait: but for retries, a data frame is created exactly when another one than
      before is in flight afterwards.  It has the next number, which never goes back. */
  lemma StopAndWait(s: Socket, e: Event, body: DataBody)
    requires WellTyped(e) && Handle(s, e).Handled? && Numbered(s.data) && !IsRetried(e)
    ensures Advances(s.data, Handle(s, e).socket.data, Handle(s, e).actions, body)
  {
    hide OnDataReceived, HandleAck;
    match e
    case Received(DataFrame(got)) => ReceiveAdvances(s.data, got, body);
    case Received(DataAck(n)) => AckAdvances(s.data, n, body);
    case _ =>
  }

  // ---------------------------------------------------------------- promises

  function Ids(pending: seq<Waiting>): (ids: seq<nat>)
    ensures |ids| == |pending|
  {
    if pending == [] then [] else [pending[0].id] + Ids(pending[1..])
  }

  /** The promises still open, in the order they were made. */
  function Owed(d: Data): seq<nat> {
    (if d.sending.Some? then [d.sending.value.id] else []) + Ids(d.pending)
  }

  function SettledIds(resolved: seq<Resolution>): seq<nat> {
    if resolved == [] then [] else [resolved[0].id] + SettledIds(resolved[1..])
  }

  lemma {:induction false} IdsAppend(x: seq<Waiting>, y: seq<Waiting>)
    ensures Ids(x + y) == Ids(x) + Ids(y)
    decreases |x|
  {
    if x == [] {
      assert x + y == y;
    } else {
      assert (x + y)[1..] == x[1..] + y;
      IdsAppend(x[1..], y);
    }
  }

  lemma {:induction false} SettledAppend(x: seq<Resolution>, y: seq<Resolution>)
    ensures SettledIds(x + y) == SettledIds(x) + SettledIds(y)
    decreases |x|
  {
    if x == [] {
      assert x + y == y;
    } else {
      assert (x + y)[1..] == x[1..] + y;
      SettledAppend(x[1..], y);
    }
  }

  lemma {:induction false} AbandonedIds(pending: seq<Waiting>)
    ensures SettledIds(Abandoned(pending)) == Ids(pending)
    decreases |pending|
  {
    if pending != [] {
      assert Abandoned(pending)[1..] == Abandoned(pending[1..]);
      AbandonedIds(pending[1..]);
    }
  }

  function Made(e: Event): seq<nat> {
    if e.Send? then [e.id] else []
  }

  lemma IdleKeepsPromises(d: Data)
    ensures Owed(SendIfIdle(d, []).data) == Owed(d)
  {
  }

  lemma AckKeepsPromises(d: Data, ack: nat)
    ensures var r := HandleAck(d, ack); Owed(d) == SettledIds(r.resolved) + Owed(r.data)
  {
    if d.sending.Some? && ack > d.sending.value.body.seqNo {
      var settled := [Resolution(d.sending.value.id, true)];
      IdleKeepsPromises(d.(sending := None, nextSend := ack));
      assert settled[1..] == [] && SettledIds(settled) == [d.sending.value.id];
      assert Owed(d) == [d.sending.value.id] + Ids(d.pending);
    }
  }

  lemma SendKeepsPromises(d: Data, payload: Bytes, id: nat)
    ensures Owed(SendPayload(d, payload, id).data) == Owed(d) + [id]
    ensures SendPayload(d, payload, id).resolved == []
  {
    IdsAppend(d.pending, [Waiting(payload, id)]);
    IdleKeepsPromises(d.(pending := d.pending + [Waiting(payload, id)]));
  }

  lemma ReceiveKeepsPromises(d: Data, body: DataBody)
    ensures var r := OnDataReceived(d, body); Owed(d) == SettledIds(r.resolved) + Owed(r.data)
  {
    AckKeepsPromises(d, body.ackNo);
    hide HandleAck;
  }

  lemma OthersKeepPromises(s: Socket, e: Event)
    requires WellTyped(e) && Handle(s, e).Handled? && !IsClose(Handle(s, e).actions)
    requires !e.Send? && AckIn(e).None?
    ensures Handle(s, e).resolved == [] && Handle(s, e).socket.data == s.data
  {
  }

  lemma HandlerKeepsPromises(s: Socket, e: Event)
    requires WellTyped(e) && Handle(s, e).Handled? && !IsClose(Handle(s, e).actions)
    ensures var r := Handle(s, e); Owed(s.data) + Made(e) == SettledIds(r.resolved) + Owed(r.socket.data)
  {
    hide OnDataReceived, HandleAck, SendPayload, OnSendSuccess, OnSendFailure, OnReceiveAckTimeout;
    if e.Send? {
      SendKeepsPromises(s.data, e.payload, e.id);
    } else if AckIn(e).None? {
      OthersKeepPromises(s, e);
    } else if e.frame.DataFrame? {
      ReceiveKeepsPromises(s.data, e.frame.body);
    } else if s.data.isOpen {
      AckKeepsPromises(s.data, AckIn(e).value);
    }
  }

  /** A close other than by the acknowledgement timeout of the frame in flight forgets that
      frame's promise. */
  function Forgotten(s: Socket, e: Event): seq<nat>
    requires WellTyped(e) && Handle(s, e).Handled?
  {
    if IsClose(Handle(s, e).actions) && s.data.sending.Some? && !(e.TimedOut? && e.action.DataTimeout?)
    then [s.data.sending.value.id] else []
  }

  /** Promises are conserved: those owed before a step and the one it makes are, in this order,
      the one it forgets, those it settles, and those owed after it. */
  lemma PromisesAreConserved(s: Socket, e: Event)
    requires WellTyped(e) && Handle(s, e).Handled?
    ensures Step(s, e).Done?
    ensures Owed(s.data) + Made(e) == Forgotten(s, e) + SettledIds(Step(s, e).resolved) + Owed(Step(s, e).socket.data)
  {
    hide Handle, Hook, Settled, Owed, SettledIds, Ids, Lifecycle;
    var r := Handle(s, e);
    HandleIsLifecycle(s, e);
    HookSettles(s.state, r);
    SettledOwes(r);
    if IsClose(r.actions) {
      ClosingKeepsPending(s, e);
      ClosingSettles(s.data, r.resolved);
    } else {
      HandlerKeepsPromises(s, e);
      assert Reported(r) == r.resolved;
    }
  }

  /** A close settles, after the frame in flight or instead of it, everything that waits. */
  lemma ClosingSettles(d: Data, resolved: seq<Resolution>)
    requires resolved == [] || (d.sending.Some? && resolved == [Resolution(d.sending.value.id, false)])
    ensures (if d.sending.Some? && resolved == [] then [d.sending.value.id] else [])
          + SettledIds(resolved + Abandoned(d.pending)) == Owed(d)
  {
    AbandonedIds(d.pending);
    SettledAppend(resolved, Abandoned(d.pending));
  }

  lemma SettledOwes(r: Handled)
    requires r.Handled? && Lifecycle(r.actions)
    ensures Owed(Settled(r.socket, r.actions).data) == if IsClose(r.actions) then [] else Owed(r.socket.data)
  {
  }

  lemma ClosingKeepsPending(s: Socket, e: Event)
    requires WellTyped(e) && Handle(s, e).Handled? && IsClose(Handle(s, e).actions)
    ensures var r := Handle(s, e);
            && r.socket.data == s.data && !e.Send?
            && r.resolved == if e.TimedOut? && e.action.DataTimeout?
                             then [Resolution(s.data.sending.value.id, false)] else []
    ensures e.TimedOut? && e.action.DataTimeout? ==> s.data.sending.Some?
  {
  }
}
