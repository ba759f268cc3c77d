/**
  The machine of the trusted transport event by event, in terms of its fields and actions alone:
  which timers start, which sends and retries are issued, how the fields move, and that nothing
  else happens.
*/
module TrustedExact {
  import opened Common
  import opened TrustedState
  import opened TrustedLifecycle

  // ---------------------------------------------------------------- timers and retries

  /** The timers a successful transmission starts: that of the frame just sent, with the
      acknowledgement budget it was sent with. */
  predicate StartsTimer(s: Socket, e: Event, timeout: Action) {
    match e
    case SendOk(SendControl(c, _, k)) => timeout == ControlTimeout(c, k)
    case SendOk(SendData(body, _, k)) => s.data.isOpen && s.data.sending.Some? && timeout == DataTimeout(body, k)
    case _ => false
  }

  /** Waiting for the acknowledgement of `body`. */
  predicate AwaitsData(s: Socket, body: DataBody) {
    s.data.isOpen && s.data.sending.Some? && s.data.sending.value.body.seqNo == body.seqNo
  }

  predicate OwesDataAck(s: Socket, n: nat) {
    s.data.isOpen && s.data.sending.Some? && s.data.nextReceive == n
  }

  /** The sends that are repeated after a wait: refused ones with one link attempt less, data
      whose acknowledgement is missing with one acknowledgement less; the other budget is full
      again.  Acknowledgements are issued with five attempts left and never with less than none. */
  predicate RetriesLater(s: Socket, e: Event, again: Action) {
    match e
    case SendErr(SendControl(c, r, _)) =>
      ShakeOf(s, c).outgoing == Yet && r > 0 && again == SendControl(c, r - 1, 5)
    case SendErr(SendData(body, r, _)) =>
      AwaitsData(s, body) && r > 0 && again == SendData(body, r - 1, 5)
    case TimedOut(DataTimeout(body, k)) =>
      AwaitsData(s, body) && k > 0 && again == SendData(body, 5, k - 1)
    case SendErr(SendControlAck(c, r)) =>
      ShakeOf(s, c).incoming == Half && r < 0 && again == SendControlAck(c, r - 1)
    case SendErr(SendDataAck(n, r)) => OwesDataAck(s, n) && r < 0 && again == SendDataAck(n, r - 1)
    case _ => false
  }

  // ---------------------------------------------------------------- sends

  /** The application's call on a handshake nobody began, or the peer's request before one's own. */
  predicate FirstRequest(s: Socket, e: Event, c: Control) {
    || e == (if c == Syn then Connect else Shutdown)
    || (e == Received(Request(c)) && ShakeOf(s, c).outgoing == Yet)
  }

  /** The acknowledgement number a frame brings. */
  function AckOf(e: Event): Option<nat> {
    match e
    case Received(DataFrame(body)) => Some(body.ackNo)
    case Received(DataAck(n)) => Some(n)
    case _ => None
  }

  /** The frame in flight is acknowledged. */
  predicate Settles(s: Socket, e: Event) {
    && s.data.isOpen && s.data.sending.Some?
    && AckOf(e).Some? && AckOf(e).value > s.data.sending.value.body.seqNo
  }

  predicate Sends(s: Socket, e: Event, a: Action, after: Data) {
    match a
    case SendControl(c, r, k) =>
      || (FirstRequest(s, e, c) && r == 5 && k == 5)
      || (e == TimedOut(ControlTimeout(c, k + 1)) && ShakeOf(s, c).outgoing == Half && r == 5 && k >= 0)
    case SendControlAck(c, r) => e == Received(Request(c)) && r == 5
    case SendData(body, r, k) =>
      && after.sending.Some? && after.sending.value.body == body && r == 5 && k == 5
      && (Settles(s, e) || (e.Send? && s.data.sending.None?))
    case SendDataAck(n, r) =>
      && e.Received? && e.frame.DataFrame? && s.data.isOpen && e.frame.body.seqNo <= s.data.nextReceive
      && n == s.data.nextReceive + (if e.frame.body.seqNo < s.data.nextReceive then 0 else 1) && r == 5
    case _ => false
  }

  // ---------------------------------------------------------------- event by event

  /** Nothing is sent and nothing waited for. */
  predicate OnlyEnds(actions: seq<Action>) {
    |actions| <= 1 && forall a <- actions :: a.Open? || a.Close?
  }

  lemma CalledActions(s: Socket, e: Event)
    requires (e.Connect? || e.Shutdown? || e.Send?) && Handle(s, e).Handled?
    ensures var r := Handle(s, e);
            match e
            case Connect => r.actions == [SendControl(Syn, 5, 5)]
            case Shutdown => r.actions == [SendControl(Fin, 5, 5)]
            case Send(_, _) => r.actions == if s.data.sending.None? && r.socket.data.sending.Some?
                                   then [SendData(r.socket.data.sending.value.body, 5, 5)] else []
  {
  }

  lemma TakenActions(s: Socket, a: Action)
    requires a.IsSend()
    ensures var actions := Handle(s, SendOk(a)).actions;
            match a
            case SendControl(c, _, k) => actions == [Delay(AckTimeout, [ControlTimeout(c, k)])]
            case SendData(body, _, k) =>
              actions == if s.data.isOpen && s.data.sending.Some?
                         then [Delay(AckTimeout, [DataTimeout(body, k)])] else []
            case SendControlAck(_, _) => OnlyEnds(actions)
            case SendDataAck(_, _) => OnlyEnds(actions)
  {
  }

  lemma RefusedActions(s: Socket, a: Action)
    requires a.IsSend() && Handle(s, SendErr(a)).Handled?
    ensures var actions := Handle(s, SendErr(a)).actions;
            match a
            case SendControl(c, r, _) =>
              if ShakeOf(s, c).outgoing == Yet && r > 0
              then actions == [Delay(RetryInterval, [SendControl(c, r - 1, 5)])] else OnlyEnds(actions)
            case SendControlAck(c, r) =>
              if ShakeOf(s, c).incoming == Half && r < 0
              then actions == [Delay(RetryInterval, [SendControlAck(c, r - 1)])] else OnlyEnds(actions)
            case SendData(body, r, _) =>
              if AwaitsData(s, body) && r > 0
              then actions == [Delay(RetryInterval, [SendData(body, r - 1, 5)])] else OnlyEnds(actions)
            case SendDataAck(n, r) =>
              if OwesDataAck(s, n) && r < 0
              then actions == [Delay(RetryInterval, [SendDataAck(n, r - 1)])] else OnlyEnds(actions)
  {
  }

  lemma ExpiredActions(s: Socket, a: Action)
    requires a.IsTimeout()
    ensures var actions := Handle(s, TimedOut(a)).actions;
            match a
            case ControlTimeout(c, k) =>
              if ShakeOf(s, c).outgoing == Half && k > 0
              then actions == [SendControl(c, 5, k - 1)] else OnlyEnds(actions)
            case DataTimeout(body, k) =>
              if AwaitsData(s, body) && k > 0
              then actions == [Delay(RetryInterval, [SendData(body, 5, k - 1)])] else OnlyEnds(actions)
  {
  }

  /** The lists a received frame leads to. */
  lemma ReceivedActions(s: Socket, f: Body)
    ensures var r := Handle(s, Received(f));
            match f
            case Request(c) => r.actions == [SendControlAck(c, 5)]
                                          + if ShakeOf(s, c).outgoing == Yet then [SendControl(c, 5, 5)] else []
            case RequestAck(c) => OnlyEnds(r.actions)
            case DataAck(n) => r.actions == Created(s, Received(f), r.socket.data)
            case DataFrame(body) =>
              r.actions == Created(s, Received(f), r.socket.data) + Accepted(s, body)
  {
    match f
    case DataFrame(body) =>
      if s.data.isOpen {
        AckCreates(s.data, body.ackNo);
      }
    case DataAck(n) =>
      if s.data.isOpen {
        AckCreates(s.data, n);
      }
    case _ =>
  }

  /** The data frame that follows one that was acknowledged. */
  function Created(s: Socket, e: Event, after: Data): seq<Action> {
    if Settles(s, e) && after.sending.Some? then [SendData(after.sending.value.body, 5, 5)] else []
  }

  /** The payload, if it is the expected one, and the acknowledgement. */
  function Accepted(s: Socket, body: DataBody): seq<Action> {
    if !s.data.isOpen || body.seqNo > s.data.nextReceive then []
    else if body.seqNo < s.data.nextReceive then [SendDataAck(s.data.nextReceive, 5)]
    else [Receive(body.payload), SendDataAck(s.data.nextReceive + 1, 5)]
  }

  lemma AckCreates(d: Data, ack: nat)
    ensures var r := HandleAck(d, ack);
            && r.data.nextReceive == d.nextReceive && r.data.isOpen == d.isOpen
            && r.actions == if d.sending.Some? && ack > d.sending.value.body.seqNo && r.data.sending.Some?
                            then [SendData(r.data.sending.value.body, 5, 5)] else []
  {
  }

  // ---------------------------------------------------------------- the actions

  lemma OneWait(d: Duration, a: Action, wait: Duration, actions: seq<Action>)
    ensures Delay(wait, actions) in [Delay(d, [a])] <==> wait == d && |actions| == 1 && actions[0] == a
  {
    if |actions| == 1 {
      assert actions == [actions[0]];
    }
  }

  predicate Waits(s: Socket, e: Event, wait: Duration, actions: seq<Action>) {
    |actions| == 1 && if wait == AckTimeout then StartsTimer(s, e, actions[0]) else RetriesLater(s, e, actions[0])
  }

  lemma TakenWaits(s: Socket, a: Action, wait: Duration, actions: seq<Action>)
    requires a.IsSend()
    ensures Delay(wait, actions) in Handle(s, SendOk(a)).actions <==> Waits(s, SendOk(a), wait, actions)
  {
    TakenActions(s, a);
    hide Handle;
    match a
    case SendControl(c, _, k) => OneWait(AckTimeout, ControlTimeout(c, k), wait, actions);
    case SendData(body, _, k) => OneWait(AckTimeout, DataTimeout(body, k), wait, actions);
    case _ =>
  }

  lemma RefusedWaits(s: Socket, a: Action, wait: Duration, actions: seq<Action>)
    requires a.IsSend() && Handle(s, SendErr(a)).Handled?
    ensures Delay(wait, actions) in Handle(s, SendErr(a)).actions <==> Waits(s, SendErr(a), wait, actions)
  {
    RefusedActions(s, a);
    hide Handle;
    match a
    case SendControl(c, r, _) => OneWait(RetryInterval, SendControl(c, r - 1, 5), wait, actions);
    case SendControlAck(c, r) => OneWait(RetryInterval, SendControlAck(c, r - 1), wait, actions);
    case SendData(body, r, _) => OneWait(RetryInterval, SendData(body, r - 1, 5), wait, actions);
    case SendDataAck(n, r) => OneWait(RetryInterval, SendDataAck(n, r - 1), wait, actions);
  }

  lemma ExpiredWaits(s: Socket, a: Action, wait: Duration, actions: seq<Action>)
    requires a.IsTimeout()
    ensures Delay(wait, actions) in Handle(s, TimedOut(a)).actions <==> Waits(s, TimedOut(a), wait, actions)
  {
    ExpiredActions(s, a);
    hide Handle;
    if a.DataTimeout? {
      OneWait(RetryInterval, SendData(a.body, 5, a.ackRetries - 1), wait, actions);
    }
  }

  /** Every wait is for the acknowledgement of what was sent or for a retry, and for one of them. */
  lemma WaitsExactly(s: Socket, e: Event, wait: Duration, actions: seq<Action>)
    requires WellTyped(e) && Handle(s, e).Handled?
    ensures Delay(wait, actions) in Handle(s, e).actions
       <==> |actions| == 1 && if wait == AckTimeout then StartsTimer(s, e, actions[0])
                              else RetriesLater(s, e, actions[0])
  {
    match e
    case Received(f) => ReceivedActions(s, f);
    case SendOk(a) => TakenWaits(s, a, wait, actions);
    case SendErr(a) => RefusedWaits(s, a, wait, actions);
    case TimedOut(a) => ExpiredWaits(s, a, wait, actions);
    case _ => CalledActions(s, e);
    hide Handle;
  }

  lemma ReceivedSends(s: Socket, f: Body, a: Action)
    requires a.IsSend()
    ensures var r := Handle(s, Received(f)); a in r.actions <==> Sends(s, Received(f), a, r.socket.data)
  {
    ReceivedActions(s, f);
    hide Handle;
  }

  lemma LinkSends(s: Socket, e: Event, a: Action)
    requires (e.SendOk? || e.SendErr?) && WellTyped(e) && Handle(s, e).Handled? && a.IsSend()
    ensures a !in Handle(s, e).actions
  {
    match e
    case SendOk(b) => TakenActions(s, b);
    case SendErr(b) => RefusedActions(s, b);
    hide Handle;
  }

  /** The sends that are issued at once.  A request whose acknowledgement is missing is the only
      retry without a wait. */
  lemma SendsExactly(s: Socket, e: Event, a: Action)
    requires WellTyped(e) && Handle(s, e).Handled? && a.IsSend()
    ensures a in Handle(s, e).actions <==> Sends(s, e, a, Handle(s, e).socket.data)
  {
    match e
    case Received(f) => ReceivedSends(s, f, a);
    case SendOk(_) => LinkSends(s, e, a);
    case SendErr(_) => LinkSends(s, e, a);
    case TimedOut(b) => ExpiredActions(s, b);
    case _ => CalledActions(s, e);
    hide Handle;
  }

  // ---------------------------------------------------------------- one list of actions

  /** The order in which the actions of one event stand. */
  function Rank(a: Action): nat {
    match a
    case SendData(_, _, _) => 0
    case Receive(_) => 1
    case SendDataAck(_, _) => 2
    case SendControlAck(_, _) => 3
    case SendControl(_, _, _) => 4
    case _ => 5
  }

  /** No action is issued twice by one event: a new frame comes before the payload that was
      received, that before its acknowledgement, and an acknowledgement before a request. */
  lemma OrderedActions(s: Socket, e: Event)
    requires WellTyped(e) && Handle(s, e).Handled?
    ensures forall i, j :: 0 <= i < j < |Handle(s, e).actions| ==>
              Rank(Handle(s, e).actions[i]) < Rank(Handle(s, e).actions[j])
  {
    match e
    case Received(f) => ReceivedActions(s, f);
    case SendOk(a) => TakenActions(s, a);
    case SendErr(a) => RefusedActions(s, a);
    case TimedOut(a) => ExpiredActions(s, a);
    case _ => CalledActions(s, e);
    hide Handle;
  }

  /** A call is refused exactly if its handshake has begun, or the data machine is shut. */
  lemma RefusesExactly(s: Socket, e: Event)
    requires WellTyped(e)
    ensures Handle(s, e).Refused?
       <==> || (e.Connect? && s.syn != Shake(Yet, Yet))
            || (e.Shutdown? && s.fin != Shake(Yet, Yet))
            || (e.Send? && !s.data.isOpen)
  {
  }

  // ---------------------------------------------------------------- the fields

  predicate IsRequestOf(a: Action, c: Control) {
    a.SendControl? && a.control == c
  }

  predicate IsAckOf(a: Action, c: Control) {
    a.SendControlAck? && a.control == c
  }

  /** A request counts as sent whenever the link says so, and as acknowledged if it was sent; the
      peer's request counts as heard whenever it comes, and as acknowledged when the link has
      taken the acknowledgement. */
  lemma HandshakesMove(s: Socket, e: Event, c: Control)
    requires WellTyped(e) && Handle(s, e).Handled?
    ensures var before, after := ShakeOf(s, c), ShakeOf(Handle(s, e).socket, c);
            && after.outgoing == (if e.SendOk? && IsRequestOf(e.action, c) then Half
                                  else if e == Received(RequestAck(c)) && before.outgoing != Yet then Full
                                  else before.outgoing)
            && after.incoming == (if e == Received(Request(c)) then Half
                                  else if e.SendOk? && IsAckOf(e.action, c) && before.incoming == Half then Full
                                  else before.incoming)
  {
  }

  /** The payloads that were accepted and are not settled, in order: the first is in flight. */
  function Queue(d: Data): seq<Waiting> {
    (if d.sending.Some? then [Waiting(d.sending.value.body.payload, d.sending.value.id)] else []) + d.pending
  }

  function Submitted(e: Event): seq<Waiting> {
    if e.Send? then [Waiting(e.payload, e.id)] else []
  }

  /** The frame made of the first in the queue. */
  function FirstFrame(queue: seq<Waiting>, seqNo: nat, ackNo: nat): Option<Frame> {
    if queue == [] then None else Some(Frame(DataBody(seqNo, ackNo, queue[0].payload), queue[0].id))
  }

  predicate DataMoved(s: Socket, e: Event, d: Data) {
    && d.isOpen == s.data.isOpen
    && d.nextSend == (if Settles(s, e) then AckOf(e).value else s.data.nextSend)
    && Queue(d) == (Queue(s.data) + Submitted(e))[if Settles(s, e) then 1 else 0..]
    && d.sending == (if Settles(s, e) || (e.Send? && s.data.sending.None?)
                     then FirstFrame(Queue(d), d.nextSend, s.data.nextReceive) else s.data.sending)
  }

  lemma AckMovesData(d: Data, ack: nat)
    ensures var r, settles := HandleAck(d, ack).data, d.sending.Some? && ack > d.sending.value.body.seqNo;
            && r.isOpen == d.isOpen && r.nextReceive == d.nextReceive
            && r.nextSend == (if settles then ack else d.nextSend)
            && Queue(r) == Queue(d)[if settles then 1 else 0..]
            && r.sending == if settles then FirstFrame(Queue(r), ack, d.nextReceive) else d.sending
  {
  }

  lemma SendMovesData(d: Data, payload: Bytes, id: nat)
    ensures var r := SendPayload(d, payload, id).data;
            && r.isOpen == d.isOpen && r.nextSend == d.nextSend
            && Queue(r) == Queue(d) + [Waiting(payload, id)]
            && r.sending == if d.sending.None? then FirstFrame(Queue(r), d.nextSend, d.nextReceive) else d.sending
  {
  }

  lemma DataStays(s: Socket, e: Event)
    requires WellTyped(e) && Handle(s, e).Handled? && AckOf(e).None? && !e.Send?
    ensures Handle(s, e).socket.data == s.data
  {
  }

  /** The sequence number moves to the acknowledgement that settles the frame in flight, and the
      next payload goes into a frame with that number and the receive number of that moment. */
  lemma DataMoves(s: Socket, e: Event)
    requires WellTyped(e) && Handle(s, e).Handled?
    ensures DataMoved(s, e, Handle(s, e).socket.data)
  {
    if AckOf(e).Some? {
      AckedDataMoves(s, e);
    } else if e.Send? {
      SendMovesData(s.data, e.payload, e.id);
      hide SendPayload;
    } else {
      DataStays(s, e);
    }
    hide Handle;
  }

  lemma AckedDataMoves(s: Socket, e: Event)
    requires AckOf(e).Some?
    ensures DataMoved(s, e, Handle(s, e).socket.data)
  {
    AckMovesData(s.data, AckOf(e).value);
    assert Queue(s.data) + [] == Queue(s.data);
    hide HandleAck, FirstFrame;
  }

  /** Whatever closes a session leaves the socket as a new one. */
  lemma ClosesToFresh(s: Socket, e: Event)
    requires WellTyped(e) && Step(s, e).Done? && (exists a <- Step(s, e).actions :: a.Close?)
    ensures Step(s, e).socket == Socket(Closed, Shake(Yet, Yet), Data(false, 0, 0, None, []), Shake(Yet, Yet))
  {
    HandleIsLifecycle(s, e);
    HookSettles(s.state, Handle(s, e));
  }
}
