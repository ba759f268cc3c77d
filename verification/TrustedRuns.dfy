/**
  That runs get somewhere: an undisturbed exchange opens both sockets of the network, carries
  any payloads there can be numbers for, in both directions, and closes both sides again.  And
  that runs also take an open socket back, make a handler throw and forget a promise.
*/
module TrustedRuns {
  import opened Common
  import opened TrustedState
  import opened TrustedLifecycle
  import opened TrustedNetwork
  import opened TrustedDelivery

  // ---------------------------------------------------------------- turns

  lemma MoveOfA(s: System, m: Move)
    requires EndsARun(s)
    ensures var s' := Next(s, TurnA(m));
            EndsARun(s') && s' == s.(a := Act(s.a, s.toA, m), toB := s.toB + Emitted(s.a, m))
  {
    hide EndsARun, Act, Emitted;
    RunGoesOn(s, TurnA(m));
  }

  lemma MoveOfB(s: System, m: Move)
    requires EndsARun(s)
    ensures var s' := Next(s, TurnB(m));
            EndsARun(s') && s' == s.(b := Act(s.b, s.toB, m), toA := s.toA + Emitted(s.b, m))
  {
    hide EndsARun, Act, Emitted;
    RunGoesOn(s, TurnB(m));
  }

  // ---------------------------------------------------------------- one endpoint, one handshake

  function Other(c: Control): Control {
    if c == Syn then Fin else Syn
  }

  /** Only the handshake `c` went on, and the lists of actions. */
  ghost predicate OnlyShakes(p: Endpoint, p': Endpoint, c: Control) {
    && p' == p.(socket := p'.socket, todo := p'.todo, inLink := p'.inLink, heard := p'.heard)
    && p'.socket.data == p.socket.data && ShakeOf(p'.socket, Other(c)) == ShakeOf(p.socket, Other(c))
  }

  /** A handler of a handshake that reports nothing. */
  lemma QuietShake(p: Endpoint, e: Event, c: Control)
    requires WellTyped(e) && !p.ended && !e.Send? && Handle(p.socket, e).Handled?
    requires var r := Handle(p.socket, e);
             && r.socket == (if c == Syn then p.socket.(syn := r.socket.syn) else p.socket.(fin := r.socket.fin))
             && r.resolved == [] && Quiet(r.actions) && (forall a <- r.actions :: !a.Receive?)
    ensures var r, p' := Handle(p.socket, e), React(p, e);
            && OnlyShakes(p, p', c) && ShakeOf(p'.socket, c) == ShakeOf(r.socket, c)
            && p'.todo == p.todo + multiset(r.actions) && p'.inLink == p.inLink
  {
    hide React, Handle, Payloads, Step;
    var r := Handle(p.socket, e);
    ReactIs(p, e);
    NoPayloads(r.actions);
    assert Completions(r.actions) == {};
    assert p.received + [] == p.received && p.framed + [] == p.framed && p.confirmed + [] == p.confirmed;
    assert !IsClose(r.actions) by {
      assert |r.actions| == 1 ==> r.actions[0] in r.actions;
    }
  }

  lemma Asks(p: Endpoint, inbox: set<Body>, c: Control)
    requires !p.ended && ShakeOf(p.socket, c) == FRESH_SHAKE
    ensures var p' := Act(p, inbox, Command(c));
            OnlyShakes(p, p', c) && ShakeOf(p'.socket, c) == FRESH_SHAKE && CreateControl(c) in p'.todo
  {
    hide React;
    QuietShake(p, if c == Syn then Connect else Shutdown, c);
  }

  lemma Transmits(p: Endpoint, inbox: set<Body>, a: Action)
    requires !p.ended && a in p.todo && a.IsSend()
    ensures var p' := Act(p, inbox, Transmit(a));
            && p' == p.(todo := p.todo - multiset{a}, inLink := p.inLink + multiset{a})
            && Emitted(p, Transmit(a)) == {Wire(a)}
  {
  }

  lemma RequestIsSent(p: Endpoint, inbox: set<Body>, c: Control)
    requires !p.ended && CreateControl(c) in p.inLink
    ensures var p' := Act(p, inbox, LinkOk(CreateControl(c)));
            && OnlyShakes(p, p', c) && p.todo <= p'.todo && FirstTimer(c) in p'.todo
            && ShakeOf(p'.socket, c) == ShakeOf(p.socket, c).(outgoing := Half)
  {
    hide React;
    var p1 := p.(inLink := p.inLink - multiset{CreateControl(c)});
    QuietShake(p1, SendOk(CreateControl(c)), c);
  }

  /** The timer that a transmitted request starts, and the retry it leads to. */
  function FirstTimer(c: Control): Action {
    Delay(AckTimeout, [ControlTimeout(c, RETRY_COUNT)])
  }

  function FirstRetry(c: Control): Action {
    ControlTimeout(c, RETRY_COUNT).Retry()
  }

  lemma TimesOut(p: Endpoint, inbox: set<Body>, c: Control)
    requires !p.ended && ControlTimeout(c, RETRY_COUNT) in p.todo && ShakeOf(p.socket, c).outgoing == Half
    ensures var p' := Act(p, inbox, Wake(ControlTimeout(c, RETRY_COUNT)));
            OnlyShakes(p, p', c) && ShakeOf(p'.socket, c) == ShakeOf(p.socket, c) && FirstRetry(c) in p'.todo
  {
    hide React;
    var p1 := p.(todo := p.todo - multiset{ControlTimeout(c, RETRY_COUNT)});
    QuietShake(p1, TimedOut(ControlTimeout(c, RETRY_COUNT)), c);
  }

  lemma RequestHeard(s: Socket, c: Control)
    ensures var r, h := OnReceive(s, Request(c)), ShakeOf(s, c);
            && r.actions == [CreateControlAck(c)] + (if h.outgoing == Yet then [CreateControl(c)] else [])
            && r.socket == (if c == Syn then s.(syn := r.socket.syn) else s.(fin := r.socket.fin))
            && ShakeOf(r.socket, c) == h.(incoming := Half) && r.resolved == [] && r.Handled?
  {
  }

  lemma HearsRequest(p: Endpoint, inbox: set<Body>, c: Control)
    requires !p.ended && Request(c) in inbox
    ensures var p', h := Act(p, inbox, Deliver(Request(c))), ShakeOf(p.socket, c);
            && OnlyShakes(p, p', c) && p.todo <= p'.todo && CreateControlAck(c) in p'.todo
            && (h.outgoing == Yet ==> p'.todo == p.todo + multiset{CreateControlAck(c), CreateControl(c)})
            && p'.inLink == p.inLink
            && ShakeOf(p'.socket, c) == h.(incoming := Half)
  {
    hide React, OnReceive, ShakeOf, OnlyShakes;
    RequestHeard(p.socket, c);
    QuietShake(p, Received(Request(c)), c);
    var actions := OnReceive(p.socket, Request(c)).actions;
    assert CreateControlAck(c) in actions;
    assert ShakeOf(p.socket, c).outgoing == Yet ==> actions[1] == CreateControl(c) && CreateControl(c) in actions;
  }

  lemma AckIsSent(p: Endpoint, inbox: set<Body>, c: Control)
    requires !p.ended && CreateControlAck(c) in p.inLink
    requires ShakeOf(p.socket, c).incoming == Half && ShakeOf(p.socket, c).outgoing != Full
    ensures var p' := Act(p, inbox, LinkOk(CreateControlAck(c)));
            && OnlyShakes(p, p', c) && p.todo <= p'.todo
            && ShakeOf(p'.socket, c) == ShakeOf(p.socket, c).(incoming := Full)
  {
    hide React;
    var p1 := p.(inLink := p.inLink - multiset{CreateControlAck(c)});
    QuietShake(p1, SendOk(CreateControlAck(c)), c);
  }

  lemma HearsAck(p: Endpoint, inbox: set<Body>, c: Control)
    requires !p.ended && RequestAck(c) in inbox
    requires ShakeOf(p.socket, c).outgoing == Half && ShakeOf(p.socket, c).incoming != Full
    ensures var p' := Act(p, inbox, Deliver(RequestAck(c)));
            && OnlyShakes(p, p', c) && p.todo <= p'.todo && p'.inLink == p.inLink
            && ShakeOf(p'.socket, c) == ShakeOf(p.socket, c).(outgoing := Full)
  {
    hide React;
    QuietShake(p, Received(RequestAck(c)), c);
  }

  /** The handshake is over: the socket is open, or the session has ended without error. */
  ghost predicate Concluded(p: Endpoint, p': Endpoint, c: Control) {
    && c in p'.reported
    && p'.accepted == p.accepted && p'.framed == p.framed && p'.received == p.received && p'.confirmed == p.confirmed
    && if c == Fin then p'.ended
       else
         && !p'.ended && p'.socket.state == Opened && p'.socket.syn == Shake(Full, Full)
         && p'.socket.data == p.socket.data.(isOpen := true) && p'.socket.fin == p.socket.fin
  }

  lemma Concludes(p: Endpoint, e: Event, c: Control)
    requires WellTyped(e) && !p.ended && !e.Send? && Handle(p.socket, e).Handled?
    requires c == Syn ==> p.socket.fin == FRESH_SHAKE
    requires c == Fin ==> p.socket.data.pending == []
    requires var r := Handle(p.socket, e);
             && r.socket == (if c == Syn then p.socket.(syn := Shake(Full, Full))
                             else p.socket.(fin := Shake(Full, Full)))
             && r.resolved == [] && r.actions == [Completion(c)]
    ensures Concluded(p, React(p, e), c) && React(p, e).inLink == p.inLink
  {
    hide React, Handle, Payloads, Step;
    var r := Handle(p.socket, e);
    ReactIs(p, e);
    NoPayloads(r.actions);
    assert Completion(c) in r.actions && c in Completions(r.actions);
    assert p.received + [] == p.received && p.framed + [] == p.framed && p.confirmed + [] == p.confirmed;
  }

  lemma LastAckIsSent(p: Endpoint, inbox: set<Body>, c: Control)
    requires !p.ended && CreateControlAck(c) in p.inLink && ShakeOf(p.socket, c) == Shake(Half, Full)
    requires if c == Syn then p.socket.fin == FRESH_SHAKE else p.socket.data.pending == []
    ensures var p' := Act(p, inbox, LinkOk(CreateControlAck(c)));
            Concluded(p, p', c) && p'.inLink == p.inLink - multiset{CreateControlAck(c)}
  {
    hide React;
    var p1 := p.(inLink := p.inLink - multiset{CreateControlAck(c)});
    Concludes(p1, SendOk(CreateControlAck(c)), c);
  }

  lemma HearsLastAck(p: Endpoint, inbox: set<Body>, c: Control)
    requires !p.ended && RequestAck(c) in inbox && ShakeOf(p.socket, c) == Shake(Full, Half)
    requires if c == Syn then p.socket.fin == FRESH_SHAKE else p.socket.data.pending == []
    ensures Concluded(p, Act(p, inbox, Deliver(RequestAck(c))), c)
  {
    hide React;
    Concludes(p, Received(RequestAck(c)), c);
  }

  // ---------------------------------------------------------------- the exchange

  lemma FirstRequest(s: System, c: Control) returns (s': System)
    requires EndsARun(s) && !s.a.ended && ShakeOf(s.a.socket, c) == FRESH_SHAKE
    ensures EndsARun(s') && s' == s.(a := s'.a, toB := s'.toB) && s.toB <= s'.toB && Request(c) in s'.toB
    ensures OnlyShakes(s.a, s'.a, c) && ShakeOf(s'.a.socket, c) == Shake(Yet, Half) && FirstTimer(c) in s'.a.todo
  {
    hide EndsARun, Act, Next, Emitted;
    var req := CreateControl(c);
    MoveOfA(s, Command(c));
    var s1 := Next(s, TurnA(Command(c)));
    Asks(s.a, s.toA, c);
    MoveOfA(s1, Transmit(req));
    var s2 := Next(s1, TurnA(Transmit(req)));
    Transmits(s1.a, s1.toA, req);
    MoveOfA(s2, LinkOk(req));
    s' := Next(s2, TurnA(LinkOk(req)));
    RequestIsSent(s2.a, s2.toA, c);
    CommandEmitsNothing(s.a, s2.a, c);
  }

  /** The peer does not answer in time: the request is transmitted again. */
  lemma SecondRequest(s: System, c: Control) returns (s': System)
    requires EndsARun(s) && !s.a.ended && FirstTimer(c) in s.a.todo && ShakeOf(s.a.socket, c).outgoing == Half
    ensures EndsARun(s') && s' == s.(a := s'.a, toB := s'.toB) && s.toB <= s'.toB
    ensures OnlyShakes(s.a, s'.a, c) && ShakeOf(s'.a.socket, c) == ShakeOf(s.a.socket, c)
    ensures FirstRetry(c) in s'.a.inLink
  {
    hide EndsARun, Act, Next, Emitted;
    var timeout, retry := ControlTimeout(c, RETRY_COUNT), FirstRetry(c);
    MoveOfA(s, Wake(FirstTimer(c)));
    var s1 := Next(s, TurnA(Wake(FirstTimer(c))));
    Wakes(s.a, s.toA, c);
    MoveOfA(s1, Wake(timeout));
    var s2 := Next(s1, TurnA(Wake(timeout)));
    TimesOut(s1.a, s1.toA, c);
    MoveOfA(s2, Transmit(retry));
    s' := Next(s2, TurnA(Transmit(retry)));
    Transmits(s2.a, s2.toA, retry);
    WakingEmitsNothing(s.a, FirstTimer(c));
    WakingEmitsNothing(s1.a, timeout);
  }

  lemma Wakes(p: Endpoint, inbox: set<Body>, c: Control)
    requires !p.ended && FirstTimer(c) in p.todo
    ensures var p' := Act(p, inbox, Wake(FirstTimer(c)));
            p' == p.(todo := p'.todo) && ControlTimeout(c, RETRY_COUNT) in p'.todo
  {
  }

  lemma WakingEmitsNothing(p: Endpoint, a: Action)
    ensures Emitted(p, Wake(a)) == {}
  {
  }

  lemma CommandEmitsNothing(p: Endpoint, q: Endpoint, c: Control)
    ensures Emitted(p, Command(c)) == {} && Emitted(q, LinkOk(CreateControl(c))) == {}
    ensures Emitted(q, LinkOk(CreateControlAck(c))) == {}
    ensures forall f :: Emitted(p, Deliver(f)) == {}
  {
  }

  lemma FirstAnswer(s: System, c: Control) returns (s': System)
    requires EndsARun(s) && !s.b.ended && ShakeOf(s.b.socket, c) == FRESH_SHAKE && Request(c) in s.toB
    ensures EndsARun(s') && s' == s.(b := s'.b, toA := s'.toA) && s.toA <= s'.toA
    ensures RequestAck(c) in s'.toA && Request(c) in s'.toA
    ensures OnlyShakes(s.b, s'.b, c) && ShakeOf(s'.b.socket, c) == Shake(Full, Half)
  {
    hide EndsARun, Act, Next, Emitted;
    var req, ack := CreateControl(c), CreateControlAck(c);
    MoveOfB(s, Deliver(Request(c)));
    var s1 := Next(s, TurnB(Deliver(Request(c))));
    HearsRequest(s.b, s.toB, c);
    MoveOfB(s1, Transmit(ack));
    var s2 := Next(s1, TurnB(Transmit(ack)));
    Transmits(s1.b, s1.toB, ack);
    MoveOfB(s2, LinkOk(ack));
    var s3 := Next(s2, TurnB(LinkOk(ack)));
    AckIsSent(s2.b, s2.toB, c);
    MoveOfB(s3, Transmit(req));
    var s4 := Next(s3, TurnB(Transmit(req)));
    Transmits(s3.b, s3.toB, req);
    MoveOfB(s4, LinkOk(req));
    s' := Next(s4, TurnB(LinkOk(req)));
    RequestIsSent(s4.b, s4.toB, c);
    CommandEmitsNothing(s.b, s2.b, c);
    CommandEmitsNothing(s.b, s4.b, c);
  }

  lemma SecondAnswer(s: System, c: Control) returns (s': System)
    requires EndsARun(s) && !s.a.ended && ShakeOf(s.a.socket, c) == Shake(Yet, Half)
    requires RequestAck(c) in s.toA && Request(c) in s.toA
    ensures EndsARun(s') && s' == s.(a := s'.a, toB := s'.toB) && s.toB <= s'.toB && RequestAck(c) in s'.toB
    ensures OnlyShakes(s.a, s'.a, c) && ShakeOf(s'.a.socket, c) == Shake(Half, Full)
    ensures CreateControlAck(c) in s'.a.inLink && s.a.inLink <= s'.a.inLink
  {
    hide EndsARun, Act, Next, Emitted;
    var ack := CreateControlAck(c);
    MoveOfA(s, Deliver(RequestAck(c)));
    var s1 := Next(s, TurnA(Deliver(RequestAck(c))));
    HearsAck(s.a, s.toA, c);
    MoveOfA(s1, Deliver(Request(c)));
    var s2 := Next(s1, TurnA(Deliver(Request(c))));
    HearsRequest(s1.a, s1.toA, c);
    MoveOfA(s2, Transmit(ack));
    s' := Next(s2, TurnA(Transmit(ack)));
    Transmits(s2.a, s2.toA, ack);
    CommandEmitsNothing(s.a, s.a, c);
    CommandEmitsNothing(s1.a, s1.a, c);
  }

  lemma BothFinish(s: System, c: Control) returns (s': System)
    requires EndsARun(s) && !s.a.ended && !s.b.ended && RequestAck(c) in s.toB && CreateControlAck(c) in s.a.inLink
    requires ShakeOf(s.a.socket, c) == Shake(Half, Full) && ShakeOf(s.b.socket, c) == Shake(Full, Half)
    requires c == Syn ==> s.a.socket.fin == FRESH_SHAKE && s.b.socket.fin == FRESH_SHAKE
    requires c == Fin ==> s.a.socket.data.pending == [] && s.b.socket.data.pending == []
    ensures EndsARun(s') && Concluded(s.a, s'.a, c) && Concluded(s.b, s'.b, c)
    ensures s.toA <= s'.toA && s'.strayed == s.strayed && s'.a.inLink == s.a.inLink - multiset{CreateControlAck(c)}
  {
    hide EndsARun, Act, Next, Emitted;
    MoveOfB(s, Deliver(RequestAck(c)));
    var s1 := Next(s, TurnB(Deliver(RequestAck(c))));
    HearsLastAck(s.b, s.toB, c);
    MoveOfA(s1, LinkOk(CreateControlAck(c)));
    s' := Next(s1, TurnA(LinkOk(CreateControlAck(c))));
    LastAckIsSent(s1.a, s1.toA, c);
  }

  /** From two untouched handshakes, undisturbed: both sides conclude. */
  lemma Exchange(s: System, c: Control) returns (s': System)
    requires EndsARun(s) && !s.a.ended && !s.b.ended
    requires ShakeOf(s.a.socket, c) == ShakeOf(s.b.socket, c) == FRESH_SHAKE
    requires c == Syn ==> s.a.socket.fin == FRESH_SHAKE && s.b.socket.fin == FRESH_SHAKE
    requires c == Fin ==> s.a.socket.data.pending == [] && s.b.socket.data.pending == []
    ensures EndsARun(s') && Concluded(s.a, s'.a, c) && Concluded(s.b, s'.b, c)
    ensures Request(c) in s'.toA && s'.strayed == s.strayed
  {
    hide EndsARun;
    var s1 := FirstRequest(s, c);
    var s2 := FirstAnswer(s1, c);
    var s3 := SecondAnswer(s2, c);
    s' := BothFinish(s3, c);
  }

  // ---------------------------------------------------------------- payloads

  /** Open on both sides, with these payloads carried from A to B and back and confirmed, and
      none waiting. */
  ghost predicate Carried(s: System, there: seq<Bytes>, back: seq<Bytes>) {
    var k, n := |there|, |back|;
    && !s.a.ended && !s.b.ended && s.a.socket.state == s.b.socket.state == Opened
    && s.a.socket.syn == s.b.socket.syn == Shake(Full, Full) && s.a.socket.fin == s.b.socket.fin == FRESH_SHAKE
    && s.a.socket.data == Data(true, n, k, None, []) && s.b.socket.data == Data(true, k, n, None, [])
    && s.a.accepted == s.b.received == there && |s.a.confirmed| == k
    && s.b.accepted == s.a.received == back && |s.b.confirmed| == n
  }

  /** A step of the data machine of an open socket. */
  lemma DataReact(p: Endpoint, e: Event)
    requires WellTyped(e) && !p.ended && p.socket.syn == Shake(Full, Full) && p.socket.fin == FRESH_SHAKE
    requires var r := Handle(p.socket, e);
             r.Handled? && r.socket == p.socket.(data := r.socket.data) && Quiet(r.actions)
    ensures var r, p' := Handle(p.socket, e), React(p, e);
            && p'.socket == r.socket && !p'.ended && p'.todo == p.todo + multiset(r.actions)
            && p'.accepted == p.accepted + (if e.Send? then [e.payload] else [])
            && p'.received == p.received + Payloads(r.actions)
            && p'.confirmed == p.confirmed + Confirmations(r.resolved)
  {
    hide React, Handle, Payloads, Step, Confirmations;
    var r := Handle(p.socket, e);
    ReactIs(p, e);
    assert |r.actions| == 1 ==> r.actions[0] in r.actions;
  }

  lemma Submits(p: Endpoint, inbox: set<Body>, payload: Bytes, k: nat, n: nat)
    requires !p.ended && p.socket.syn == Shake(Full, Full) && p.socket.fin == FRESH_SHAKE
    requires p.socket.data == Data(true, n, k, None, []) && |p.accepted| == k
    ensures var p', body := Act(p, inbox, Submit(payload)), DataBody(k, n, payload);
            && p'.socket == p.socket.(data := Data(true, n, k, Some(Frame(body, k)), [])) && !p'.ended
            && CreateData(body) in p'.todo
            && p'.accepted == p.accepted + [payload] && p'.received == p.received && p'.confirmed == p.confirmed
  {
    hide React;
    var e := Send(payload, k);
    assert SendPayload(p.socket.data, payload, k).actions == [CreateData(DataBody(k, n, payload))];
    DataReact(p, e);
    assert p.received + [] == p.received && p.confirmed + [] == p.confirmed;
  }

  lemma Accepts(q: Endpoint, inbox: set<Body>, payload: Bytes, k: nat, n: nat)
    requires !q.ended && q.socket.syn == Shake(Full, Full) && q.socket.fin == FRESH_SHAKE
    requires q.socket.data == Data(true, k, n, None, []) && DataFrame(DataBody(k, n, payload)) in inbox
    ensures var q' := Act(q, inbox, Deliver(DataFrame(DataBody(k, n, payload))));
            && q'.socket == q.socket.(data := Data(true, k + 1, n, None, [])) && !q'.ended
            && CreateDataAck(k + 1) in q'.todo && q'.received == q.received + [payload]
            && q'.accepted == q.accepted && q'.confirmed == q.confirmed
  {
    hide React;
    var e := Received(DataFrame(DataBody(k, n, payload)));
    var actions := Handle(q.socket, e).actions;
    assert actions == [Receive(payload), CreateDataAck(k + 1)];
    assert Payloads(actions) == [payload] by {
      assert actions[1..] == [CreateDataAck(k + 1)] && actions[1..][1..] == [];
      assert Payloads(actions[1..]) == [];
    }
    DataReact(q, e);
    assert q.accepted + [] == q.accepted && q.confirmed + [] == q.confirmed;
  }

  lemma IsConfirmed(p: Endpoint, inbox: set<Body>, payload: Bytes, k: nat, n: nat)
    requires !p.ended && p.socket.syn == Shake(Full, Full) && p.socket.fin == FRESH_SHAKE
    requires p.socket.data == Data(true, n, k, Some(Frame(DataBody(k, n, payload), k)), []) && DataAck(k + 1) in inbox
    ensures var p' := Act(p, inbox, Deliver(DataAck(k + 1)));
            && p'.socket == p.socket.(data := Data(true, n, k + 1, None, [])) && !p'.ended
            && p'.accepted == p.accepted && p'.received == p.received && p'.confirmed == p.confirmed + [k]
  {
    hide React;
    var e := Received(DataAck(k + 1));
    var r := Handle(p.socket, e);
    assert r.actions == [] && r.resolved == [Resolution(k, true)];
    assert Confirmations(r.resolved) == [k] by {
      assert r.resolved[1..] == [];
    }
    DataReact(p, e);
    assert p.accepted + [] == p.accepted && p.received + [] == p.received;
  }

  lemma CarryThere(s: System, there: seq<Bytes>, back: seq<Bytes>, payload: Bytes) returns (s': System)
    requires EndsARun(s) && Carried(s, there, back) && |there| < 65535 && |back| <= 65535
    ensures EndsARun(s') && Carried(s', there + [payload], back)
  {
    hide EndsARun, Act, Next, Emitted;
    var k, n := |there|, |back|;
    var body := DataBody(k, n, payload);
    var frame, ack := CreateData(body), CreateDataAck(k + 1);
    MoveOfA(s, Submit(payload));
    var s1 := Next(s, TurnA(Submit(payload)));
    Submits(s.a, s.toA, payload, k, n);
    MoveOfA(s1, Transmit(frame));
    var s2 := Next(s1, TurnA(Transmit(frame)));
    Transmits(s1.a, s1.toA, frame);
    assert Wire(frame) == DataFrame(body) && Wire(ack) == DataAck(k + 1);
    MoveOfB(s2, Deliver(DataFrame(body)));
    var s3 := Next(s2, TurnB(Deliver(DataFrame(body))));
    Accepts(s2.b, s2.toB, payload, k, n);
    MoveOfB(s3, Transmit(ack));
    var s4 := Next(s3, TurnB(Transmit(ack)));
    Transmits(s3.b, s3.toB, ack);
    MoveOfA(s4, Deliver(DataAck(k + 1)));
    s' := Next(s4, TurnA(Deliver(DataAck(k + 1))));
    IsConfirmed(s4.a, s4.toA, payload, k, n);
  }

  lemma CarryBack(s: System, there: seq<Bytes>, back: seq<Bytes>, payload: Bytes) returns (s': System)
    requires EndsARun(s) && Carried(s, there, back) && |there| <= 65535 && |back| < 65535
    ensures EndsARun(s') && Carried(s', there, back + [payload])
  {
    hide EndsARun;
    SwapEndsARun(s);
    var t := CarryThere(s.Swap(), back, there, payload);
    SwapEndsARun(t);
    s' := t.Swap();
  }

  lemma SwapEndsARun(s: System)
    requires EndsARun(s)
    ensures EndsARun(s.Swap())
  {
    var turns :| s == Run(turns);
    SwapRun(turns);
  }

  lemma Opens() returns (s: System)
    ensures EndsARun(s) && Carried(s, [], []) && Request(Syn) in s.toA && !s.strayed
  {
    hide EndsARun;
    NoTurns();
    s := Exchange(FRESH_SYSTEM, Syn);
  }

  lemma {:induction false} CarryAll(there: seq<Bytes>, back: seq<Bytes>) returns (s: System)
    requires |there| <= 65535 && |back| <= 65535
    ensures EndsARun(s) && Carried(s, there, back)
    decreases |there| + |back|
  {
    hide EndsARun, Carried;
    var k, n := |there| - 1, |back| - 1;
    if back != [] {
      s := CarryAll(there, back[..n]);
      s := CarryBack(s, there, back[..n], back[n]);
      assert back == back[..n] + [back[n]];
    } else if there != [] {
      s := CarryAll(there[..k], back);
      s := CarryThere(s, there[..k], back, there[k]);
      assert there == there[..k] + [there[k]];
    } else {
      s := Opens();
    }
  }

  // ---------------------------------------------------------------- the results

  /** One side has received, and the other seen confirmed, all that was sent. */
  ghost predicate Complete(from: Endpoint, to: Endpoint, payloads: seq<Bytes>) {
    from.accepted == to.received == payloads && |from.confirmed| == |payloads|
  }

  ghost predicate Delivered(s: System, there: seq<Bytes>, back: seq<Bytes>) {
    && !s.a.ended && !s.b.ended && s.a.socket.state == s.b.socket.state == Opened
    && Complete(s.a, s.b, there) && Complete(s.b, s.a, back)
  }

  /** Some run delivers and confirms these payloads in the two directions, on sockets still
      open, exactly if there are at most 65535 in either. */
  lemma DeliverableExactly(there: seq<Bytes>, back: seq<Bytes>)
    ensures (exists s :: Reachable(s) && Delivered(s, there, back)) <==> |there| <= 65535 && |back| <= 65535
  {
    hide Reachable, EndsARun;
    if |there| <= 65535 && |back| <= 65535 {
      var s := CarryAll(there, back);
      ReachableByRuns(s);
      assert Delivered(s, there, back);
    }
    forall s | Reachable(s) && Delivered(s, there, back) ensures |there| <= 65535 && |back| <= 65535 {
      ConfirmationsAreHonest(s);
    }
  }

  /** Both sides have reported the end, without error, and nothing was lost. */
  ghost predicate Closed(s: System, there: seq<Bytes>, back: seq<Bytes>) {
    && s.a.ended && s.b.ended && Fin in s.a.reported && Fin in s.b.reported
    && Complete(s.a, s.b, there) && Complete(s.b, s.a, back)
  }

  /** The same with both sides closed cleanly afterwards. */
  lemma ClosableExactly(there: seq<Bytes>, back: seq<Bytes>)
    ensures (exists s :: Reachable(s) && Closed(s, there, back)) <==> |there| <= 65535 && |back| <= 65535
  {
    hide Reachable, EndsARun;
    if |there| <= 65535 && |back| <= 65535 {
      var before := CarryAll(there, back);
      var s := Exchange(before, Fin);
      ReachableByRuns(s);
      assert Closed(s, there, back);
    }
    forall s | Reachable(s) && Closed(s, there, back) ensures |there| <= 65535 && |back| <= 65535 {
      ConfirmationsAreHonest(s);
    }
  }

  /** Without anything forged, an open socket does go back to "opening": the network has only
      to deliver the peer's SYN once more. */
  lemma RegressionHappens() returns (s: System)
    ensures Reachable(s) && !s.strayed && s.a.socket.state == Opened
    ensures var s' := Next(s, TurnA(Deliver(Request(Syn)))); Reachable(s') && s'.a.socket.state == Opening
  {
    hide EndsARun, Reachable, Invariant, Step;
    s := Opens();
    var m := Deliver(Request(Syn));
    ReachableByRuns(s);
    MoveOfA(s, m);
    ReachableByRuns(Next(s, TurnA(m)));
    ReachableIsInvariant(s);
    OpenIsConsistent(s);
    OpenRegresses(s.a.socket, Received(Request(Syn)));
  }

  /** The other way back: the link reports the success of a retried SYN after its acknowledgement. */
  lemma LateSuccessHappens() returns (s: System)
    ensures Reachable(s) && !s.strayed && s.a.socket.state == Opened && FirstRetry(Syn) in s.a.inLink
    ensures var s' := Next(s, TurnA(LinkOk(FirstRetry(Syn)))); Reachable(s') && s'.a.socket.state == Opening
  {
    hide EndsARun, Reachable, Invariant, Step, Next;
    NoTurns();
    s := FirstRequest(FRESH_SYSTEM, Syn);
    s := SecondRequest(s, Syn);
    s := FirstAnswer(s, Syn);
    s := SecondAnswer(s, Syn);
    s := BothFinish(s, Syn);
    ReachableByRuns(s);
    ReachableIsInvariant(s);
    OpenIsConsistent(s);
    var m := LinkOk(FirstRetry(Syn));
    MoveOfA(s, m);
    ReachableByRuns(Next(s, TurnA(m)));
    OpenRegresses(s.a.socket, SendOk(FirstRetry(Syn)));
  }

  lemma OpenIsConsistent(s: System)
    requires Invariant(s) && !s.a.ended
    ensures Consistent(s.a.socket)
  {
  }

  /** A clean close in the course of things, with a payload still in flight: its promise is
      settled neither way. */
  lemma PromiseIsForgotten(payload: Bytes) returns (s: System)
    ensures Reachable(s) && !s.strayed && !s.a.ended && CreateControlAck(Fin) in s.a.inLink
    ensures s.a.accepted == [payload] && s.a.confirmed == [] && s.a.socket.data.sending.Some?
    ensures var r := Step(s.a.socket, SendOk(CreateControlAck(Fin)));
            r.Done? && r.actions == [Close(false)] && r.resolved == []
  {
    hide EndsARun, Reachable, Next, Act;
    s := Opens();
    MoveOfA(s, Submit(payload));
    Submits(s.a, s.toA, payload, 0, 0);
    s := Next(s, TurnA(Submit(payload)));
    s := FirstRequest(s, Fin);
    s := FirstAnswer(s, Fin);
    s := SecondAnswer(s, Fin);
    ReachableByRuns(s);
    ClosesAndForgets(s.a.socket);
  }

  lemma ClosesAndForgets(s: Socket)
    requires s.fin == Shake(Half, Full) && s.data.pending == []
    ensures var r := Step(s, SendOk(CreateControlAck(Fin)));
            r.Done? && r.actions == [Close(false)] && r.resolved == []
  {
    var r := Handle(s, SendOk(CreateControlAck(Fin)));
    HandleIsLifecycle(s, SendOk(CreateControlAck(Fin)));
    HookSettles(s.state, r);
  }

  /** A FIN is heard, and the link refuses its acknowledgement: the handler throws. */
  lemma ThrowHappens() returns (s: System)
    ensures Reachable(s) && !s.strayed && !s.b.ended && CreateControlAck(Fin) in s.b.todo
    ensures Step(s.b.socket, SendErr(CreateControlAck(Fin))).Threw?
  {
    hide EndsARun, Reachable, Next, Act, Step;
    s := Opens();
    s := FirstRequest(s, Fin);
    MoveOfB(s, Deliver(Request(Fin)));
    HearsRequest(s.b, s.toB, Fin);
    s := Next(s, TurnB(Deliver(Request(Fin))));
    ReachableByRuns(s);
    ThrowsExactly(s.b.socket, SendErr(CreateControlAck(Fin)));
  }

  /** The peer's SYN, delivered again and again before one's own was sent, starts any number of
      retry chains. */
  lemma {:induction false} ChainsAreUnbounded(n: nat) returns (s: System)
    ensures EndsARun(s) && !s.strayed && !s.b.ended && Request(Syn) in s.toB
    ensures s.b.socket.syn.outgoing == Yet && s.b.todo[CreateControl(Syn)] == n
  {
    hide EndsARun, Next, Act, Emitted;
    if n == 0 {
      NoTurns();
      s := FirstRequest(FRESH_SYSTEM, Syn);
    } else {
      s := ChainsAreUnbounded(n - 1);
      MoveOfB(s, Deliver(Request(Syn)));
      HearsRequest(s.b, s.toB, Syn);
      s := Next(s, TurnB(Deliver(Request(Syn))));
    }
  }
}
