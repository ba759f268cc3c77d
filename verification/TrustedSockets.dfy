/**
  The trusted transport's objects (ts-core/src/net/trusted/socket/state.ts).  A socket's
  `Valid()` holds its lifecycle: the cached state is the one the handshakes imply, and the
  listeners have heard every change and none twice.  Each event is one step of the machine in
  `TrustedState`, so what `TrustedHandlers`, `TrustedDelivery` and `TrustedRetry` prove of
  steps holds of the objects.
*/
module TrustedSockets {
  import opened Common
  import opened TrustedState
  import opened TrustedLifecycle
  import opened TrustedHandlers

  /** `SynSocketState` and `FinSocketState`; `control` says which. */
  class HandshakeState {
    const control: Control
    var incoming: Side
    var outgoing: Side

    constructor (control: Control)
      ensures this.control == control && View() == FRESH_SHAKE
    {
      this.control := control;
      incoming, outgoing := Yet, Yet;
    }

    function View(): Shake
      reads this
    {
      Shake(incoming, outgoing)
    }

    method Report() returns (actions: seq<Action>)
      ensures actions == WhenFinished(control, View()).actions
    {
      if incoming == Full && outgoing == Full {
        return [Completion(control)];
      }
      return [];
    }

    method Initiate() returns (actions: Option<seq<Action>>)
      ensures actions.Some? <==> View() == FRESH_SHAKE
      ensures actions.Some? ==> actions.value == [SendControl(control, RETRY_COUNT, RETRY_COUNT)]
    {
      if incoming == Yet && outgoing == Yet {
        return Some([CreateControl(control)]);
      }
      return None;
    }

    method OnRequestSent(action: Action) returns (actions: seq<Action>)
      requires action.SendControl? && action.control == control
      modifies this
      ensures outgoing == Half && incoming == old(incoming)
      ensures ShakeResult(View(), actions) == TrustedState.OnRequestSent(control, old(View()), action.ackRetries)
    {
      outgoing := Half;
      actions := [Delay(AckTimeout, [ControlTimeout(control, action.ackRetries)])];
    }

    method OnRequestSendFailure(action: Action) returns (actions: seq<Action>)
      requires action.SendControl?
      ensures ShakeResult(View(), actions) == TrustedState.OnRequestSendFailure(View(), action)
    {
      if outgoing != Yet {
        return [];
      }
      if !action.Retryable() {
        return [Close(true)];
      }
      return [Delay(RetryInterval, [action.Retry()])];
    }

    method OnAckReceived() returns (actions: seq<Action>)
      modifies this
      ensures incoming == old(incoming) && (outgoing == Yet <==> old(outgoing) == Yet)
      ensures Completion(control) in actions <==> View().Finished()
      ensures ShakeResult(View(), actions) == TrustedState.OnAckReceived(control, old(View()))
    {
      if outgoing == Yet {
        return [];
      }
      outgoing := Full;
      actions := Report();
    }

    method OnAckTimeout(action: Action) returns (actions: seq<Action>)
      requires action.ControlTimeout?
      ensures ShakeResult(View(), actions) == TrustedState.OnAckTimeout(View(), action)
    {
      if outgoing != Half {
        return [];
      }
      if !action.Retryable() {
        return [Close(true)];
      }
      return [action.Retry()];
    }

    method OnRequestReceived() returns (actions: seq<Action>)
      modifies this
      ensures outgoing == old(outgoing) && CreateControlAck(control) in actions
      ensures CreateControl(control) in actions <==> outgoing == Yet
      ensures ShakeResult(View(), actions) == TrustedState.OnRequestReceived(control, old(View()))
    {
      incoming := Half;
      if outgoing == Yet {
        return [CreateControlAck(control), CreateControl(control)];
      }
      return [CreateControlAck(control)];
    }

    method OnAckSent() returns (actions: seq<Action>)
      modifies this
      ensures outgoing == old(outgoing) && (incoming == Yet <==> old(incoming) == Yet)
      ensures Completion(control) in actions <==> View().Finished() && old(incoming) == Half
      ensures ShakeResult(View(), actions) == TrustedState.OnAckSent(control, old(View()))
    {
      if incoming != Half {
        return [];
      }
      incoming := Full;
      actions := Report();
    }

    /** `None` when the handler throws. */
    method OnAckSendFailure(action: Action) returns (actions: Option<seq<Action>>)
      requires action.SendControlAck? && action.control == control
      ensures match TrustedState.OnAckSendFailure(View(), action)
              case None => actions == None
              case Some(r) => r.shake == View() && actions == Some(r.actions)
    {
      if incoming != Half {
        return Some([]);
      }
      if control == Syn && !action.Retryable() {
        return Some([Close(true)]);
      }
      if control == Fin && action.retries == 0 {
        return Some([Close(true)]);
      }
      if !action.Retryable() {
        return None;
      }
      return Some([Delay(RetryInterval, [action.Retry()])]);
    }

    method OnClose()
      modifies this
      ensures View() == FRESH_SHAKE
    {
      incoming, outgoing := Yet, Yet;
    }
  }

  class DataSocketState {
    var isOpen: bool
    var nextReceive: nat
    var nextSend: nat
    var sending: Option<Frame>
    var pending: seq<Waiting>

    constructor ()
      ensures View() == FRESH_DATA
    {
      isOpen, nextReceive, nextSend, sending, pending := false, 0, 0, None, [];
    }

    function View(): Data
      reads this
    {
      Data(isOpen, nextReceive, nextSend, sending, pending)
    }

    method SendIfIdle() returns (actions: seq<Action>)
      modifies this
      ensures Owed(View()) == Owed(old(View())) && (sending.None? ==> pending == [])
      ensures DataResult(View(), actions, []) == TrustedState.SendIfIdle(old(View()), [])
    {
      IdleKeepsPromises(View());
      if sending.Some? || pending == [] {
        return [];
      }
      var next := pending[0];
      pending := pending[1..];
      sending := Some(Frame(DataBody(nextSend, nextReceive, next.payload), next.id));
      return [CreateData(sending.value.body)];
    }

    method HandleAck(ack: nat) returns (actions: seq<Action>, resolved: seq<Resolution>)
      modifies this
      ensures resolved != [] <==> old(sending).Some? && ack > old(sending).value.body.seqNo
      ensures Owed(old(View())) == SettledIds(resolved) + Owed(View())
      ensures old(Numbered(View())) ==> Numbered(View()) && nextSend >= old(nextSend)
      ensures DataResult(View(), actions, resolved) == TrustedState.HandleAck(old(View()), ack)
    {
      AckKeepsPromises(View(), ack);
      if sending.None? {
        return [], [];
      }
      if ack <= sending.value.body.seqNo {
        return [], [];
      }
      resolved := [Resolution(sending.value.id, true)];
      sending := None;
      nextSend := ack;
      actions := SendIfIdle();
    }

    method OnDataReceived(body: DataBody) returns (actions: seq<Action>, resolved: seq<Resolution>)
      modifies this
      ensures nextReceive == old(nextReceive) + if isOpen && body.seqNo == old(nextReceive) then 1 else 0
      ensures Owed(old(View())) == SettledIds(resolved) + Owed(View())
      ensures DataResult(View(), actions, resolved) == TrustedState.OnDataReceived(old(View()), body)
    {
      ReceiveKeepsPromises(View(), body);
      if !isOpen {
        return [], [];
      }
      actions, resolved := HandleAck(body.ackNo);
      if body.seqNo < nextReceive {
        actions := actions + [CreateDataAck(nextReceive)];
        return;
      }
      if body.seqNo > nextReceive {
        assert actions + [] == actions;
        return;
      }
      nextReceive := body.seqNo + 1;
      actions := actions + [Receive(body.payload), CreateDataAck(nextReceive)];
    }

    method OnDataAckReceived(ack: nat) returns (actions: seq<Action>, resolved: seq<Resolution>)
      modifies this
      ensures DataResult(View(), actions, resolved) == TrustedState.OnDataAckReceived(old(View()), ack)
    {
      if !isOpen {
        return [], [];
      }
      actions, resolved := HandleAck(ack);
    }

    method OnDataAckTimeout(action: Action) returns (actions: seq<Action>, resolved: seq<Resolution>)
      requires action.DataTimeout?
      ensures DataResult(View(), actions, resolved) == TrustedState.OnDataAckTimeout(View(), action)
    {
      if !isOpen || sending.None? || action.body.seqNo != sending.value.body.seqNo {
        return [], [];
      }
      if !action.Retryable() {
        return [Close(true)], [Resolution(sending.value.id, false)];
      }
      return [Delay(RetryInterval, [action.Retry()])], [];
    }

    /** `None` for an invalid operation. */
    method SendPayload(payload: Bytes, id: nat) returns (actions: Option<seq<Action>>)
      modifies this
      ensures old(isOpen) ==>
                && actions.Some? && Owed(View()) == Owed(old(View())) + [id]
                && DataResult(View(), actions.value, []) == TrustedState.SendPayload(old(View()), payload, id)
      ensures !old(isOpen) ==> actions == None && View() == old(View())
    {
      if !isOpen {
        return None;
      }
      SendKeepsPromises(View(), payload, id);
      pending := pending + [Waiting(payload, id)];
      var r := SendIfIdle();
      return Some(r);
    }

    method OnDataSent(action: Action) returns (actions: seq<Action>)
      requires action.SendData?
      ensures DataResult(View(), actions, []) == TrustedState.OnDataSent(View(), action.body, action.ackRetries)
    {
      if !isOpen || sending.None? {
        return [];
      }
      return [Delay(AckTimeout, [DataTimeout(action.body, action.ackRetries)])];
    }

    method OnDataSendFailure(action: Action) returns (actions: seq<Action>)
      requires action.SendData?
      ensures DataResult(View(), actions, []) == TrustedState.OnDataSendFailure(View(), action)
    {
      if !isOpen || sending.None? || action.body.seqNo != sending.value.body.seqNo {
        return [];
      }
      if !action.Retryable() {
        return [Close(true)];
      }
      return [Delay(RetryInterval, [action.Retry()])];
    }

    method OnDataAckSendFailure(action: Action) returns (actions: seq<Action>)
      requires action.SendDataAck?
      ensures DataResult(View(), actions, []) == TrustedState.OnDataAckSendFailure(View(), action)
    {
      if !isOpen || sending.None? || action.ackNo != nextReceive {
        return [];
      }
      if !action.Retryable() {
        return [Close(true)];
      }
      return [Delay(RetryInterval, [action.Retry()])];
    }

    method OnOpen()
      modifies this
      ensures View() == old(View()).(isOpen := true)
    {
      isOpen := true;
    }

    method OnClose() returns (resolved: seq<Resolution>)
      modifies this
      ensures View() == FRESH_DATA && resolved == Abandoned(old(pending))
    {
      isOpen, nextReceive, nextSend, sending := false, 0, 0, None;
      resolved := [];
      for i := 0 to |pending|
        invariant pending == old(pending) && |resolved| == i
        invariant forall k :: 0 <= k < i ==> resolved[k] == Resolution(pending[k].id, false)
        invariant View() == FRESH_DATA.(pending := pending)
      {
        resolved := resolved + [Resolution(pending[i].id, false)];
      }
      pending := [];
    }
  }

  class SocketState {
    const syn: HandshakeState
    const data: DataSocketState
    const fin: HandshakeState
    var state: StateType
    /** Everything the state listeners were told, oldest first. */
    var told: seq<StateType>

    ghost predicate Valid()
      reads this, syn, data, fin
    {
      Wired() && Faithful(Past())
    }

    ghost predicate Wired() {
      syn != fin && syn.control == Syn && fin.control == Fin
    }

    function View(): Socket
      reads this, syn, data, fin
    {
      Socket(state, syn.View(), data.View(), fin.View())
    }

    /** The socket and what its listeners were told so far. */
    function Past(): History
      reads this, syn, data, fin
    {
      History(View(), told)
    }

    constructor ()
      ensures Valid() && fresh(syn) && fresh(data) && fresh(fin)
      ensures View() == FRESH_SOCKET && told == []
    {
      FreshIsFaithful();
      syn := new HandshakeState(Syn);
      data := new DataSocketState();
      fin := new HandshakeState(Fin);
      state, told := Closed, [];
    }

    function Sub(c: Control): HandshakeState { if c == Syn then syn else fin }

    /** `before` is the cached state when the call began; only the hook changes it. */
    method Hook(actions: seq<Action>, resolved: seq<Resolution>) returns (settled: seq<Resolution>)
      requires Wired()
      modifies this, syn, data, fin
      ensures TrustedState.Hook(old(state), Handled(old(View()), actions, resolved))
           == Done(View(), actions, settled, if state != old(state) then Some(state) else None)
      ensures told == if state != old(state) then old(told) + [state] else old(told)
    {
      var prev := state;
      settled := resolved;
      for i := 0 to |actions|
        invariant told == old(told)
        invariant HookAll(Hooked(old(View()), resolved), actions) == HookAll(Hooked(View(), settled), actions[i..])
      {
        assert actions[i..][1..] == actions[i + 1..];
        match actions[i] {
          case Open =>
            state := Opened;
            data.OnOpen();
          case Close(_) =>
            state := Closed;
            syn.OnClose();
            var dropped := data.OnClose();
            settled := settled + dropped;
            fin.OnClose();
          case _ =>
        }
      }
      if SynIsOpening(syn.View()) {
        state := Opening;
      }
      if FinIsClosing(fin.View()) {
        state := Closing;
      }
      if prev != state {
        told := told + [state];
      }
    }

    /** The event was one step of the machine, and the lifecycle holds again. */
    ghost predicate Performed(before: History, e: Event, actions: Option<seq<Action>>, resolved: seq<Resolution>)
      requires WellTyped(e)
      reads this, syn, data, fin
    {
      && Valid() && Past() == Follow(before, e)
      && match Step(before.socket, e)
         case Done(_, a, r, _) => actions == Some(a) && resolved == r
         case _ => actions == None && resolved == []
    }

    method OnReceive(frame: Body) returns (actions: Option<seq<Action>>, resolved: seq<Resolution>)
      requires Valid()
      modifies this, syn, data, fin
      ensures Performed(old(Past()), Received(frame), actions, resolved)
    {
      hide Faithful, TrustedState.Hook, Owed, SettledIds;
      hide TrustedState.OnRequestReceived, TrustedState.OnAckReceived;
      hide TrustedState.OnDataReceived, TrustedState.OnDataAckReceived;
      FollowKeepsFaithful(Past(), Received(frame));
      var todo: seq<Action>;
      resolved := [];
      match frame {
        case Request(c) => todo := Sub(c).OnRequestReceived();
        case RequestAck(c) => todo := Sub(c).OnAckReceived();
        case DataFrame(body) => todo, resolved := data.OnDataReceived(body);
        case DataAck(ack) => todo, resolved := data.OnDataAckReceived(ack);
      }
      resolved := Hook(todo, resolved);
      actions := Some(todo);
    }

    method OnSendSuccess(action: Action) returns (actions: Option<seq<Action>>, resolved: seq<Resolution>)
      requires Valid() && action.IsSend()
      modifies this, syn, data, fin
      ensures Performed(old(Past()), SendOk(action), actions, resolved)
    {
      hide Faithful, TrustedState.Hook, Owed, SettledIds;
      hide TrustedState.OnRequestSent, TrustedState.OnAckSent, TrustedState.OnDataSent;
      FollowKeepsFaithful(Past(), SendOk(action));
      var todo: seq<Action>;
      match action {
        case SendControl(c, _, _) => todo := Sub(c).OnRequestSent(action);
        case SendControlAck(c, _) => todo := Sub(c).OnAckSent();
        case SendData(_, _, _) => todo := data.OnDataSent(action);
        case SendDataAck(_, _) => todo := [];
      }
      resolved := Hook(todo, []);
      actions := Some(todo);
    }

    method OnSendFailure(action: Action) returns (actions: Option<seq<Action>>, resolved: seq<Resolution>)
      requires Valid() && action.IsSend()
      modifies this, syn, data, fin
      ensures Performed(old(Past()), SendErr(action), actions, resolved)
    {
      hide Faithful, Owed, SettledIds, HookAll, Refresh;
      hide TrustedState.OnRequestSendFailure, TrustedState.OnAckSendFailure;
      hide TrustedState.OnDataSendFailure, TrustedState.OnDataAckSendFailure;
      FollowKeepsFaithful(Past(), SendErr(action));
      var todo: seq<Action>;
      match action {
        case SendControl(c, _, _) => todo := Sub(c).OnRequestSendFailure(action);
        case SendControlAck(c, _) =>
          var r := Sub(c).OnAckSendFailure(action);
          if r.None? {
            return None, [];
          }
          todo := r.value;
        case SendData(_, _, _) => todo := data.OnDataSendFailure(action);
        case SendDataAck(_, _) => todo := data.OnDataAckSendFailure(action);
      }
      resolved := Hook(todo, []);
      actions := Some(todo);
    }

    method OnReceiveAckTimeout(action: Action) returns (actions: Option<seq<Action>>, resolved: seq<Resolution>)
      requires Valid() && action.IsTimeout()
      modifies this, syn, data, fin
      ensures Performed(old(Past()), TimedOut(action), actions, resolved)
    {
      hide Faithful, TrustedState.Hook, Owed, SettledIds;
      hide TrustedState.OnAckTimeout, TrustedState.OnDataAckTimeout;
      FollowKeepsFaithful(Past(), TimedOut(action));
      var todo: seq<Action>;
      resolved := [];
      if action.ControlTimeout? {
        todo := Sub(action.control).OnAckTimeout(action);
      } else {
        todo, resolved := data.OnDataAckTimeout(action);
      }
      resolved := Hook(todo, resolved);
      actions := Some(todo);
    }

    method Initiate(c: Control) returns (actions: Option<seq<Action>>, resolved: seq<Resolution>)
      requires Valid()
      modifies this, syn, data, fin
      ensures Performed(old(Past()), if c == Syn then Connect else Shutdown, actions, resolved)
    {
      FollowKeepsFaithful(Past(), if c == Syn then Connect else Shutdown);
      actions := Sub(c).Initiate();
      resolved := [];
      if actions.Some? {
        resolved := Hook(actions.value, []);
      }
    }

    method SendData(payload: Bytes, id: nat) returns (actions: Option<seq<Action>>, resolved: seq<Resolution>)
      requires Valid()
      modifies this, syn, data, fin
      ensures Performed(old(Past()), Send(payload, id), actions, resolved)
    {
      FollowKeepsFaithful(Past(), Send(payload, id));
      actions := data.SendPayload(payload, id);
      resolved := [];
      if actions.Some? {
        resolved := Hook(actions.value, []);
      }
    }
  }
}
