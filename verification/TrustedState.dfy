/**
  The event-to-actions machine of the trusted transport, as functions on values
  (ts-core/src/net/trusted/socket/state.ts).  `TrustedSockets` holds the same machine
  as mutable objects, each method proved against the function of the same name here.

  A promise the caller awaits is an `id`; settling it is a `Resolution`.
*/
module TrustedState {
  import opened Common

  const RETRY_COUNT := 5

  datatype Control = Syn | Fin
  datatype DataBody = DataBody(seqNo: nat, ackNo: nat, payload: Bytes)

  /** A frame body after deserialization. */
  datatype Body =
    | Request(control: Control)
    | RequestAck(control: Control)
    | DataFrame(body: DataBody)
    | DataAck(ackNo: nat)

  datatype Duration = AckTimeout | RetryInterval

  datatype Action =
    | Open
    | Close(error: bool)
    | Receive(data: Bytes)
    | SendControl(control: Control, retries: int, ackRetries: int)
    | ControlTimeout(control: Control, ackRetries: int)
    | SendControlAck(control: Control, retries: int)
    | SendData(body: DataBody, retries: int, ackRetries: int)
    | DataTimeout(body: DataBody, ackRetries: int)
    | SendDataAck(ackNo: nat, retries: int)
    | Delay(duration: Duration, actions: seq<Action>)
  {
    predicate IsSend() {
      SendControl? || SendControlAck? || SendData? || SendDataAck?
    }

    predicate IsTimeout() {
      ControlTimeout? || DataTimeout?
    }

    /** The acknowledgement sends compare with `<`, the others with `>`. */
    predicate Retryable()
      requires IsSend() || IsTimeout()
    {
      match this
      case SendControl(_, retries, _) => retries > 0
      case SendData(_, retries, _) => retries > 0
      case ControlTimeout(_, ackRetries) => ackRetries > 0
      case DataTimeout(_, ackRetries) => ackRetries > 0
      case SendControlAck(_, retries) => retries < 0
      case SendDataAck(_, retries) => retries < 0
    }

    /** Calling it on an exhausted action throws, so that is its precondition. */
    function Retry(): Action
      requires (IsSend() || IsTimeout()) && Retryable()
    {
      match this
      case SendControl(c, retries, _) => SendControl(c, retries - 1, RETRY_COUNT)
      case SendData(b, retries, _) => SendData(b, retries - 1, RETRY_COUNT)
      case ControlTimeout(c, ackRetries) => SendControl(c, RETRY_COUNT, ackRetries - 1)
      case DataTimeout(b, ackRetries) => SendData(b, RETRY_COUNT, ackRetries - 1)
      case SendControlAck(c, retries) => SendControlAck(c, retries - 1)
      case SendDataAck(n, retries) => SendDataAck(n, retries - 1)
    }
  }

  function CreateControl(c: Control): Action { SendControl(c, RETRY_COUNT, RETRY_COUNT) }

  function CreateControlAck(c: Control): Action { SendControlAck(c, RETRY_COUNT) }

  function CreateData(body: DataBody): Action { SendData(body, RETRY_COUNT, RETRY_COUNT) }

  function CreateDataAck(ackNo: nat): Action { SendDataAck(ackNo, RETRY_COUNT) }

  // ---------------------------------------------------------------- handshakes

  datatype Side = Yet | Half | Full

  /** Incoming: yet, received, ack sent.  Outgoing: yet, sent, ack received. */
  datatype Shake = Shake(incoming: Side, outgoing: Side) {
    predicate Finished() { incoming == Full && outgoing == Full }
  }

  const FRESH_SHAKE := Shake(Yet, Yet)

  predicate SynIsOpening(s: Shake) {
    !s.Finished() && !(s.incoming == Yet || s.outgoing == Yet)
  }

  predicate FinIsClosing(s: Shake) {
    !s.Finished() && !(s.incoming == Yet && s.outgoing == Yet)
  }

  /** What finishing the handshake reports. */
  function Completion(c: Control): Action {
    if c == Syn then Open else Close(false)
  }

  datatype ShakeResult = ShakeResult(shake: Shake, actions: seq<Action>)

  function WhenFinished(c: Control, s: Shake): ShakeResult {
    ShakeResult(s, if s.Finished() then [Completion(c)] else [])
  }

  function OnRequestSent(c: Control, s: Shake, ackRetries: int): ShakeResult {
    ShakeResult(s.(outgoing := Half), [Delay(AckTimeout, [ControlTimeout(c, ackRetries)])])
  }

  function OnRequestSendFailure(s: Shake, action: Action): ShakeResult
    requires action.SendControl?
  {
    if s.outgoing != Yet then ShakeResult(s, [])
    else if !action.Retryable() then ShakeResult(s, [Close(true)])
    else ShakeResult(s, [Delay(RetryInterval, [action.Retry()])])
  }

  function OnAckReceived(c: Control, s: Shake): ShakeResult {
    if s.outgoing == Yet then ShakeResult(s, [])
    else WhenFinished(c, s.(outgoing := Full))
  }

  function OnAckTimeout(s: Shake, action: Action): ShakeResult
    requires action.ControlTimeout?
  {
    if s.outgoing != Half then ShakeResult(s, [])
    else if !action.Retryable() then ShakeResult(s, [Close(true)])
    else ShakeResult(s, [action.Retry()])
  }

  function OnRequestReceived(c: Control, s: Shake): ShakeResult {
    ShakeResult(s.(incoming := Half),
                [CreateControlAck(c)] + if s.outgoing == Yet then [CreateControl(c)] else [])
  }

  function OnAckSent(c: Control, s: Shake): ShakeResult {
    if s.incoming != Half then ShakeResult(s, [])
    else WhenFinished(c, s.(incoming := Full))
  }

  /** The two acknowledgement failure paths differ: FIN looks at the count itself and then
      calls a `retry()` that throws. */
  function OnAckSendFailure(s: Shake, action: Action): Option<ShakeResult>
    requires action.SendControlAck?
  {
    if s.incoming != Half then Some(ShakeResult(s, []))
    else if action.control == Syn && !action.Retryable() then Some(ShakeResult(s, [Close(true)]))
    else if action.control == Fin && action.retries == 0 then Some(ShakeResult(s, [Close(true)]))
    else if !action.Retryable() then None
    else Some(ShakeResult(s, [Delay(RetryInterval, [action.Retry()])]))
  }

  // ---------------------------------------------------------------- data

  datatype Frame = Frame(body: DataBody, id: nat)
  datatype Waiting = Waiting(payload: Bytes, id: nat)
  datatype Resolution = Resolution(id: nat, ok: bool)

  datatype Data = Data(isOpen: bool, nextReceive: nat, nextSend: nat,
                       sending: Option<Frame>, pending: seq<Waiting>)

  const FRESH_DATA := Data(false, 0, 0, None, [])

  datatype DataResult = DataResult(data: Data, actions: seq<Action>, resolved: seq<Resolution>)

  function SendIfIdle(d: Data, resolved: seq<Resolution>): DataResult {
    if d.sending.Some? || d.pending == [] then DataResult(d, [], resolved)
    else
      var next := d.pending[0];
      var body := DataBody(d.nextSend, d.nextReceive, next.payload);
      DataResult(d.(sending := Some(Frame(body, next.id)), pending := d.pending[1..]),
                 [CreateData(body)], resolved)
  }

  function HandleAck(d: Data, ack: nat): DataResult {
    if d.sending.None? || ack <= d.sending.value.body.seqNo then DataResult(d, [], [])
    else SendIfIdle(d.(sending := None, nextSend := ack), [Resolution(d.sending.value.id, true)])
  }

  /** An old frame is acknowledged again, one from the future is ignored. */
  function AcceptData(d: Data, body: DataBody): DataResult {
    if body.seqNo < d.nextReceive then DataResult(d, [CreateDataAck(d.nextReceive)], [])
    else if body.seqNo > d.nextReceive then DataResult(d, [], [])
    else
      var next := body.seqNo + 1;
      DataResult(d.(nextReceive := next), [Receive(body.payload), CreateDataAck(next)], [])
  }

  function OnDataReceived(d: Data, body: DataBody): DataResult {
    if !d.isOpen then DataResult(d, [], [])
    else
      var r := HandleAck(d, body.ackNo);
      var t := AcceptData(r.data, body);
      DataResult(t.data, r.actions + t.actions, r.resolved)
  }

  function OnDataAckReceived(d: Data, ack: nat): DataResult {
    if !d.isOpen then DataResult(d, [], []) else HandleAck(d, ack)
  }

  /** The frame in flight is the one the action carries. */
  predicate InFlight(d: Data, body: DataBody) {
    d.isOpen && d.sending.Some? && body.seqNo == d.sending.value.body.seqNo
  }

  function OnDataAckTimeout(d: Data, action: Action): DataResult
    requires action.DataTimeout?
  {
    if !InFlight(d, action.body) then DataResult(d, [], [])
    else if !action.Retryable() then DataResult(d, [Close(true)], [Resolution(d.sending.value.id, false)])
    else DataResult(d, [Delay(RetryInterval, [action.Retry()])], [])
  }

  function SendPayload(d: Data, payload: Bytes, id: nat): DataResult {
    SendIfIdle(d.(pending := d.pending + [Waiting(payload, id)]), [])
  }

  function OnDataSent(d: Data, body: DataBody, ackRetries: int): DataResult {
    if !d.isOpen || d.sending.None? then DataResult(d, [], [])
    else DataResult(d, [Delay(AckTimeout, [DataTimeout(body, ackRetries)])], [])
  }

  /** The promise resolved here is the action's own, which nobody holds. */
  function OnDataSendFailure(d: Data, action: Action): DataResult
    requires action.SendData?
  {
    if !InFlight(d, action.body) then DataResult(d, [], [])
    else if !action.Retryable() then DataResult(d, [Close(true)], [])
    else DataResult(d, [Delay(RetryInterval, [action.Retry()])], [])
  }

  function OnDataAckSendFailure(d: Data, action: Action): DataResult
    requires action.SendDataAck?
  {
    if !d.isOpen || d.sending.None? || action.ackNo != d.nextReceive then DataResult(d, [], [])
    else if !action.Retryable() then DataResult(d, [Close(true)], [])
    else DataResult(d, [Delay(RetryInterval, [action.Retry()])], [])
  }

  /** Closing settles the waiting payloads as timed out; the frame in flight is dropped. */
  function Abandoned(pending: seq<Waiting>): (r: seq<Resolution>)
    ensures |r| == |pending|
    ensures forall i :: 0 <= i < |r| ==> r[i] == Resolution(pending[i].id, false)
  {
    if pending == [] then [] else [Resolution(pending[0].id, false)] + Abandoned(pending[1..])
  }

  // ---------------------------------------------------------------- socket

  datatype StateType = Opening | Opened | Closing | Closed

  datatype Socket = Socket(state: StateType, syn: Shake, data: Data, fin: Shake)

  const FRESH_SOCKET := Socket(Closed, FRESH_SHAKE, FRESH_DATA, FRESH_SHAKE)

  datatype Event =
    | Connect
    | Shutdown
    | Send(payload: Bytes, id: nat)
    | Received(frame: Body)
    | SendOk(action: Action)
    | SendErr(action: Action)
    | TimedOut(action: Action)

  datatype Hooked = Hooked(socket: Socket, resolved: seq<Resolution>)

  function HookOne(h: Hooked, a: Action): Hooked {
    match a
    case Open => h.(socket := h.socket.(state := Opened, data := h.socket.data.(isOpen := true)))
    case Close(_) => Hooked(FRESH_SOCKET, h.resolved + Abandoned(h.socket.data.pending))
    case _ => h
  }

  function HookAll(h: Hooked, actions: seq<Action>): Hooked
    decreases |actions|
  {
    if actions == [] then h else HookAll(HookOne(h, actions[0]), actions[1..])
  }

  function Refresh(s: Socket): Socket {
    var s1 := if SynIsOpening(s.syn) then s.(state := Opening) else s;
    if FinIsClosing(s1.fin) then s1.(state := Closing) else s1
  }

  /** What a sub-machine did, before the hook looks at its actions. */
  datatype Handled =
    | Handled(socket: Socket, actions: seq<Action>, resolved: seq<Resolution>)
    | Refused
    | Crashed

  function ShakeOf(s: Socket, c: Control): Shake { if c == Syn then s.syn else s.fin }

  function WithShake(s: Socket, c: Control, r: ShakeResult): Handled {
    Handled(if c == Syn then s.(syn := r.shake) else s.(fin := r.shake), r.actions, [])
  }

  function WithData(s: Socket, r: DataResult): Handled {
    Handled(s.(data := r.data), r.actions, r.resolved)
  }

  function OnReceive(s: Socket, frame: Body): Handled {
    match frame
    case Request(c) => WithShake(s, c, OnRequestReceived(c, ShakeOf(s, c)))
    case RequestAck(c) => WithShake(s, c, OnAckReceived(c, ShakeOf(s, c)))
    case DataFrame(body) => WithData(s, OnDataReceived(s.data, body))
    case DataAck(ack) => WithData(s, OnDataAckReceived(s.data, ack))
  }

  function OnSendSuccess(s: Socket, a: Action): Handled
    requires a.IsSend()
  {
    match a
    case SendControl(c, _, ackRetries) => WithShake(s, c, OnRequestSent(c, ShakeOf(s, c), ackRetries))
    case SendControlAck(c, _) => WithShake(s, c, OnAckSent(c, ShakeOf(s, c)))
    case SendData(body, _, ackRetries) => WithData(s, OnDataSent(s.data, body, ackRetries))
    case SendDataAck(_, _) => Handled(s, [], [])
  }

  function OnSendFailure(s: Socket, a: Action): Handled
    requires a.IsSend()
  {
    match a
    case SendControl(c, _, _) => WithShake(s, c, OnRequestSendFailure(ShakeOf(s, c), a))
    case SendControlAck(c, _) =>
      (match OnAckSendFailure(ShakeOf(s, c), a)
       case None => Crashed
       case Some(r) => WithShake(s, c, r))
    case SendData(_, _, _) => WithData(s, OnDataSendFailure(s.data, a))
    case SendDataAck(_, _) => WithData(s, OnDataAckSendFailure(s.data, a))
  }

  function OnReceiveAckTimeout(s: Socket, a: Action): Handled
    requires a.IsTimeout()
  {
    if a.ControlTimeout? then WithShake(s, a.control, OnAckTimeout(ShakeOf(s, a.control), a))
    else WithData(s, OnDataAckTimeout(s.data, a))
  }

  /** `connect` asks the SYN machine, `close` the FIN machine: both only when it is untouched. */
  function Initiate(s: Socket, c: Control): Handled {
    if ShakeOf(s, c) == FRESH_SHAKE then Handled(s, [CreateControl(c)], []) else Refused
  }

  function OnSend(s: Socket, payload: Bytes, id: nat): Handled {
    if !s.data.isOpen then Refused else WithData(s, SendPayload(s.data, payload, id))
  }

  predicate WellTyped(e: Event) {
    match e
    case SendOk(a) => a.IsSend()
    case SendErr(a) => a.IsSend()
    case TimedOut(a) => a.IsTimeout()
    case _ => true
  }

  function Handle(s: Socket, e: Event): Handled
    requires WellTyped(e)
  {
    match e
    case Connect => Initiate(s, Syn)
    case Shutdown => Initiate(s, Fin)
    case Send(payload, id) => OnSend(s, payload, id)
    case Received(frame) => OnReceive(s, frame)
    case SendOk(a) => OnSendSuccess(s, a)
    case SendErr(a) => OnSendFailure(s, a)
    case TimedOut(a) => OnReceiveAckTimeout(s, a)
  }

  /** `changed`: the state listeners are told about, if any. */
  datatype Outcome =
    | Done(socket: Socket, actions: seq<Action>, resolved: seq<Resolution>, changed: Option<StateType>)
    | InvalidOperation
    | Threw

  function Hook(prev: StateType, r: Handled): Outcome {
    match r
    case Refused => InvalidOperation
    case Crashed => Threw
    case Handled(s, actions, resolved) =>
      var h := HookAll(Hooked(s, resolved), actions);
      var s1 := Refresh(h.socket);
      Done(s1, actions, h.resolved, if s1.state != prev then Some(s1.state) else None)
  }

  function Step(s: Socket, e: Event): Outcome
    requires WellTyped(e)
  {
    Hook(s.state, Handle(s, e))
  }
}
