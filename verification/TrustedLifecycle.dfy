/**
  What the cached connection state means: at every point of every run it is the state
  the two handshakes imply, and listeners never hear the same state twice in a row.
*/
module TrustedLifecycle {
  import opened Common
  import opened TrustedState

  predicate Quiet(actions: seq<Action>) {
    forall a <- actions :: !a.Open? && !a.Close?
  }

  lemma {:induction false} HookQuiet(h: Hooked, actions: seq<Action>)
    requires Quiet(actions)
    ensures HookAll(h, actions) == h
    decreases |actions|
  {
    if actions != [] {
      assert actions[0] in actions;
      HookQuiet(h, actions[1..]);
    }
  }

  lemma HookSingle(h: Hooked, a: Action)
    ensures HookAll(h, [a]) == HookOne(h, a)
  {
    assert HookAll(HookOne(h, a), [a][1..]) == HookOne(h, a);
  }

  /** Every handler either leaves the lifecycle alone or reports one open or one close. */
  predicate Lifecycle(actions: seq<Action>) {
    Quiet(actions) || actions == [Open] || (|actions| == 1 && actions[0].Close?)
  }

  /** `Hook` without the loop. */
  function Settled(s: Socket, actions: seq<Action>): Socket
    requires Lifecycle(actions)
  {
    if Quiet(actions) then Refresh(s)
    else if actions == [Open] then Refresh(s.(state := Opened, data := s.data.(isOpen := true)))
    else FRESH_SOCKET
  }

  function Reported(r: Handled): seq<Resolution>
    requires r.Handled?
  {
    r.resolved + if |r.actions| == 1 && r.actions[0].Close? then Abandoned(r.socket.data.pending) else []
  }

  lemma HookSettles(prev: StateType, r: Handled)
    requires r.Handled? && Lifecycle(r.actions)
    ensures Hook(prev, r).Done? && Hook(prev, r).socket == Settled(r.socket, r.actions)
    ensures Hook(prev, r).resolved == Reported(r)
  {
    assert r.resolved + [] == r.resolved;
    if Quiet(r.actions) {
      HookQuiet(Hooked(r.socket, r.resolved), r.actions);
      assert |r.actions| == 1 ==> r.actions[0] in r.actions;
    } else {
      assert r.actions == [r.actions[0]];
      HookSingle(Hooked(r.socket, r.resolved), r.actions[0]);
    }
  }

  lemma QuietStep(s: Socket, e: Event)
    requires WellTyped(e) && Handle(s, e).Handled? && Quiet(Handle(s, e).actions)
    ensures Step(s, e).Done?
    ensures Step(s, e).socket == Refresh(Handle(s, e).socket) && Step(s, e).actions == Handle(s, e).actions
  {
    HookSettles(s.state, Handle(s, e));
  }

  lemma HandleIsLifecycle(s: Socket, e: Event)
    requires WellTyped(e)
    ensures Handle(s, e).Handled? ==> Lifecycle(Handle(s, e).actions)
  {
  }

  /** The state the handshakes imply. */
  function Intended(syn: Shake, fin: Shake): StateType {
    if fin != FRESH_SHAKE then Closing
    else if syn.Finished() then Opened
    else if syn.incoming != Yet && syn.outgoing != Yet then Opening
    else Closed
  }

  ghost predicate Consistent(s: Socket) {
    && s.state == Intended(s.syn, s.fin)
    && !s.fin.Finished()
    && (s.syn.Finished() ==> s.data.isOpen)
    && (s.data.isOpen ==> s.syn.incoming != Yet && s.syn.outgoing != Yet)
    && (!s.data.isOpen ==> s.data == FRESH_DATA)
  }

  predicate IsClose(actions: seq<Action>) { |actions| == 1 && actions[0].Close? }

  /** A handler of the data machine: both handshakes stay, and a shut machine does nothing. */
  predicate DataTurn(s: Socket, r: Handled)
    requires r.Handled?
  {
    && r.socket == s.(data := r.socket.data)
    && r.socket.data.isOpen == s.data.isOpen
    && (!s.data.isOpen ==> r.socket.data == s.data)
    && (Quiet(r.actions) || IsClose(r.actions))
  }

  /** A handler of one handshake: it reports completion exactly when it has just completed. */
  predicate ShakeTurn(s: Socket, r: Handled, c: Control)
    requires r.Handled?
  {
    && r.socket == (if c == Syn then s.(syn := r.socket.syn) else s.(fin := r.socket.fin))
    && var before, after := ShakeOf(s, c), ShakeOf(r.socket, c);
    && (before.incoming != Yet ==> after.incoming != Yet)
    && (before.outgoing != Yet ==> after.outgoing != Yet)
    && (if after.Finished()
        then r.actions == [Completion(c)] || (after == before && (Quiet(r.actions) || IsClose(r.actions)))
        else Quiet(r.actions) || r.actions == [Close(true)])
  }

  predicate SomeTurn(s: Socket, r: Handled)
    requires r.Handled?
  {
    DataTurn(s, r) || ShakeTurn(s, r, Syn) || ShakeTurn(s, r, Fin)
  }

  lemma ReceiveTurns(s: Socket, f: Body)
    ensures SomeTurn(s, OnReceive(s, f))
  {
  }

  lemma SendTurns(s: Socket, a: Action)
    requires a.IsSend()
    ensures SomeTurn(s, OnSendSuccess(s, a))
    ensures OnSendFailure(s, a).Handled? ==> SomeTurn(s, OnSendFailure(s, a))
  {
  }

  lemma HandleTurns(s: Socket, e: Event)
    requires WellTyped(e) && Handle(s, e).Handled?
    ensures SomeTurn(s, Handle(s, e))
  {
    match e
    case Received(f) => ReceiveTurns(s, f);
    case SendOk(a) => SendTurns(s, a);
    case SendErr(a) => SendTurns(s, a);
    case _ =>
  }

  lemma StepKeepsConsistent(s: Socket, e: Event)
    requires Consistent(s) && WellTyped(e)
    ensures Step(s, e).Done? ==> Consistent(Step(s, e).socket)
  {
    var r := Handle(s, e);
    if r.Handled? {
      HandleTurns(s, e);
      HandleIsLifecycle(s, e);
      HookSettles(s.state, r);
      TurnKeepsConsistent(s, r);
    }
  }

  lemma TurnKeepsConsistent(s: Socket, r: Handled)
    requires Consistent(s) && r.Handled? && Lifecycle(r.actions)
    requires SomeTurn(s, r)
    ensures Consistent(Settled(r.socket, r.actions))
  {
    if |r.actions| == 1 {
      assert r.actions[0] in r.actions;
    }
  }

  // ---------------------------------------------------------------- whole runs

  datatype History = History(socket: Socket, told: seq<StateType>)

  function Follow(h: History, e: Event): History
    requires WellTyped(e)
  {
    match Step(h.socket, e)
    case Done(s, _, _, changed) => History(s, if changed.Some? then h.told + [changed.value] else h.told)
    case _ => h
  }

  function Play(events: seq<Event>): History
    requires forall e <- events :: WellTyped(e)
  {
    if events == [] then History(FRESH_SOCKET, [])
    else Follow(Play(events[..|events| - 1]), events[|events| - 1])
  }

  ghost predicate Faithful(h: History) {
    && Consistent(h.socket)
    && h.socket.state == (if h.told == [] then Closed else h.told[|h.told| - 1])
    && (h.told != [] ==> h.told[0] != Closed)
    && forall i :: 0 < i < |h.told| ==> h.told[i - 1] != h.told[i]
  }

  lemma FreshIsFaithful()
    ensures Faithful(History(FRESH_SOCKET, []))
  {
  }

  lemma FollowKeepsFaithful(h: History, e: Event)
    requires WellTyped(e) && Faithful(h)
    ensures Faithful(Follow(h, e))
  {
    StepKeepsConsistent(h.socket, e);
  }

  /** After any events at all, the cached state is the intended one, listeners have heard
      every change and none twice, and data flows only on a socket that is not closed. */
  lemma {:induction false} StateIsAlwaysIntended(events: seq<Event>)
    requires forall e <- events :: WellTyped(e)
    ensures Faithful(Play(events))
    ensures Play(events).socket.data.isOpen ==> Play(events).socket.state != Closed
  {
    if events != [] {
      var n := |events| - 1;
      StateIsAlwaysIntended(events[..n]);
      FollowKeepsFaithful(Play(events[..n]), events[n]);
    }
  }

  /** What takes back one side of a finished SYN handshake. */
  predicate TakesBack(e: Event) {
    e == Received(Request(Syn)) || (e.SendOk? && e.action.SendControl? && e.action.control == Syn)
  }

  lemma FinishedSynMoves(s: Socket, e: Event)
    requires WellTyped(e) && Handle(s, e).Handled? && s.syn == Shake(Full, Full) && s.fin == FRESH_SHAKE
    ensures var r := Handle(s, e);
            if TakesBack(e) then r.socket == s.(syn := r.socket.syn) && SynIsOpening(r.socket.syn) && Quiet(r.actions)
            else r.socket.syn == s.syn
  {
  }

  /** "Open never regresses" fails, and exactly for these two events. */
  lemma OpenRegresses(s: Socket, e: Event)
    requires Consistent(s) && s.state == Opened && WellTyped(e)
    ensures Step(s, e).Done? && Step(s, e).socket.state == Opening
       <==> e == Received(Request(Syn)) || (e.SendOk? && e.action.SendControl? && e.action.control == Syn)
  {
    var r := Handle(s, e);
    if r.Handled? {
      FinishedSynMoves(s, e);
      HandleIsLifecycle(s, e);
      HookSettles(s.state, r);
    }
    hide Hook, Quiet;
    assert TakesBack(e) ==> Handle(s, e).Handled?;
    hide Handle;
  }

  /** The only handler that throws is the FIN acknowledgement's link failure, and it does so
      whenever its budget is not used up. */
  lemma ThrowsExactly(s: Socket, e: Event)
    requires WellTyped(e)
    ensures Step(s, e).Threw? <==>
            e.SendErr? && e.action.SendControlAck? && e.action.control == Fin
            && s.fin.incoming == Half && e.action.retries > 0
  {
    if Handle(s, e).Handled? {
      HandleIsLifecycle(s, e);
      HookSettles(s.state, Handle(s, e));
    }
  }

  /** When the session closes with a frame in flight, its promise is settled exactly if
      the close is that frame's acknowledgement running out of time: "every send promise
      settles" is false for all the other closes. */
  lemma InFlightPromise(s: Socket, e: Event)
    requires WellTyped(e) && s.data.sending.Some?
    requires forall w <- s.data.pending :: w.id != s.data.sending.value.id
    requires Step(s, e).Done? && IsClose(Step(s, e).actions)
    ensures (exists ok :: Resolution(s.data.sending.value.id, ok) in Step(s, e).resolved)
       <==> e.TimedOut? && e.action.DataTimeout?
  {
    var r, id := Handle(s, e), s.data.sending.value.id;
    HandleIsLifecycle(s, e);
    HookSettles(s.state, r);
    assert r.actions[0] in r.actions;
    var lost := Abandoned(r.socket.data.pending);
    assert forall i :: 0 <= i < |lost| ==> lost[i].id == r.socket.data.pending[i].id;
    if e.TimedOut? && e.action.DataTimeout? {
      assert r.resolved[0] == Resolution(id, false);
    } else {
      assert r.resolved == [] && r.socket.data.pending == s.data.pending;
    }
  }
}
