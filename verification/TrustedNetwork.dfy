/**
  Two sockets joined by a network that may lose, duplicate and reorder: a message once
  sent can be delivered any number of times, in any order, or never.  Link results,
  timers and the application are free too, so a run is any list of moves.  An endpoint
  stops at its first `Close`; the other one goes on.
*/
module TrustedNetwork {
  import opened Common
  import opened TrustedState

  const WIRE := 0x1_0000

  /** Numbers are unbounded in memory and 16 bits wide on the wire. */
  function Wire(a: Action): Body
    requires a.IsSend()
  {
    match a
    case SendControl(c, _, _) => Request(c)
    case SendControlAck(c, _) => RequestAck(c)
    case SendData(b, _, _) => DataFrame(DataBody(b.seqNo % WIRE, b.ackNo % WIRE, b.payload))
    case SendDataAck(n, _) => DataAck(n % WIRE)
  }

  /** A socket with its interpreter: `todo` are issued actions (sends and timers), `inLink` are
      sends whose link result is outstanding.  The rest is the history of the session. */
  datatype Endpoint = Endpoint(
    socket: Socket,
    todo: multiset<Action>,
    inLink: multiset<Action>,
    ended: bool,
    accepted: seq<Bytes>,    // payloads whose send was accepted; the promise id is the index
    framed: seq<Bytes>,      // payloads turned into frames
    received: seq<Bytes>,    // payloads of `Receive` actions
    confirmed: seq<nat>,     // promises resolved Ok, in order
    heard: set<Control>,     // SYN or FIN received
    reported: set<Control>)  // `Open` reported, clean `Close` reported

  const FRESH_ENDPOINT := Endpoint(FRESH_SOCKET, multiset{}, multiset{}, false, [], [], [], [], {}, {})

  function Payloads(actions: seq<Action>): seq<Bytes> {
    if actions == [] then []
    else (if actions[0].Receive? then [actions[0].data] else []) + Payloads(actions[1..])
  }

  function Confirmations(resolved: seq<Resolution>): seq<nat> {
    if resolved == [] then []
    else (if resolved[0].ok then [resolved[0].id] else []) + Confirmations(resolved[1..])
  }

  function Completions(actions: seq<Action>): set<Control> {
    (if Open in actions then {Syn} else {}) + (if Close(false) in actions then {Fin} else {})
  }

  predicate Closes(actions: seq<Action>) {
    exists a <- actions :: a.Close?
  }

  /** The frame this step created, if any: a new sequence number in flight. */
  function Created(before: Option<Frame>, after: Option<Frame>): seq<Bytes> {
    if after.Some? && (before.None? || before.value.body.seqNo != after.value.body.seqNo)
    then [after.value.body.payload] else []
  }

  function React(p: Endpoint, e: Event): Endpoint
    requires WellTyped(e)
  {
    var p1 := if e.Received? && e.frame.Request? then p.(heard := p.heard + {e.frame.control}) else p;
    match Step(p.socket, e)
    case Done(s, actions, resolved, _) =>
      p1.(socket := s,
          todo := p.todo + multiset(actions),
          ended := Closes(actions),
          accepted := if e.Send? then p.accepted + [e.payload] else p.accepted,
          framed := p.framed + Created(p.socket.data.sending, s.data.sending),
          received := p.received + Payloads(actions),
          confirmed := p.confirmed + Confirmations(resolved),
          reported := p.reported + Completions(actions))
    case _ => p1
  }

  datatype Move =
    | Command(control: Control)   // connect or close
    | Submit(payload: Bytes)      // send
    | Transmit(action: Action)    // a send reaches the link
    | LinkOk(action: Action)      // the link reports success
    | LinkErr(action: Action)     // the link reports failure
    | Unsent(action: Action)      // failure before anything was transmitted
    | Wake(action: Action)        // a delay or timeout is due
    | Deliver(frame: Body)        // some message of the peer arrives

  function Act(p: Endpoint, inbox: set<Body>, m: Move): Endpoint {
    if p.ended then p else
    match m
    case Command(c) => React(p, if c == Syn then Connect else Shutdown)
    case Submit(payload) => React(p, Send(payload, |p.accepted|))
    case Transmit(a) =>
      if a in p.todo && a.IsSend()
      then p.(todo := p.todo - multiset{a}, inLink := p.inLink + multiset{a}) else p
    case LinkOk(a) =>
      if a in p.inLink && a.IsSend() then React(p.(inLink := p.inLink - multiset{a}), SendOk(a)) else p
    case LinkErr(a) =>
      if a in p.inLink && a.IsSend() then React(p.(inLink := p.inLink - multiset{a}), SendErr(a)) else p
    case Unsent(a) =>
      if a in p.todo && a.IsSend() then React(p.(todo := p.todo - multiset{a}), SendErr(a)) else p
    case Wake(a) =>
      if a !in p.todo then p
      else if a.Delay? then p.(todo := p.todo - multiset{a} + multiset(a.actions))
      else if a.IsTimeout() then React(p.(todo := p.todo - multiset{a}), TimedOut(a))
      else p
    case Deliver(f) => if f in inbox then React(p, Received(f)) else p
  }

  function Emitted(p: Endpoint, m: Move): set<Body> {
    if !p.ended && m.Transmit? && m.action in p.todo && m.action.IsSend() then {Wire(m.action)} else {}
  }

  /** `toB` and `toA` are all messages ever sent.  `strayed`: somebody forged a SYN or SYN-ACK. */
  datatype System = System(a: Endpoint, b: Endpoint, toB: set<Body>, toA: set<Body>, strayed: bool) {
    function Swap(): System { System(b, a, toA, toB, strayed) }
  }

  const FRESH_SYSTEM := System(FRESH_ENDPOINT, FRESH_ENDPOINT, {}, {}, false)

  datatype Turn = TurnA(move: Move) | TurnB(move: Move) | Stray(frame: Body)

  function MoveA(s: System, m: Move): System {
    s.(a := Act(s.a, s.toA, m), toB := s.toB + Emitted(s.a, m))
  }

  function Next(s: System, t: Turn): System {
    match t
    case TurnA(m) => MoveA(s, m)
    case TurnB(m) => MoveA(s.Swap(), m).Swap()
    case Stray(f) =>
      if f in {Request(Syn), RequestAck(Syn)}
      then s.(toA := s.toA + {f}, toB := s.toB + {f}, strayed := true) else s
  }

  function Run(turns: seq<Turn>): System {
    if turns == [] then FRESH_SYSTEM else Next(Run(turns[..|turns| - 1]), turns[|turns| - 1])
  }

  ghost predicate ClosedUnderTurns(systems: iset<System>) {
    FRESH_SYSTEM in systems && forall s, t :: s in systems ==> Next(s, t) in systems
  }

  /** In every set that contains the fresh system and all that turns lead to from its members. */
  ghost predicate Reachable(s: System) {
    forall systems :: ClosedUnderTurns(systems) ==> s in systems
  }

  lemma {:induction false} RunStaysInside(turns: seq<Turn>, systems: iset<System>)
    requires ClosedUnderTurns(systems)
    ensures Run(turns) in systems
    decreases |turns|
  {
    hide Next;
    if turns != [] {
      RunStaysInside(turns[..|turns| - 1], systems);
    }
  }

  ghost predicate EndsARun(s: System) {
    exists turns :: s == Run(turns)
  }

  lemma RunGoesOn(s: System, t: Turn)
    requires EndsARun(s)
    ensures EndsARun(Next(s, t))
  {
    hide Next;
    var turns :| s == Run(turns);
    assert (turns + [t])[..|turns|] == turns;
    assert Next(s, t) == Run(turns + [t]);
  }

  /** The reachable systems are those that runs end in. */
  lemma ReachableByRuns(s: System)
    ensures Reachable(s) <==> EndsARun(s)
  {
    hide Next, Run;
    if Reachable(s) {
      var ends := iset r | EndsARun(r);
      assert EndsARun(FRESH_SYSTEM) by { NoTurns(); }
      forall r, t | r in ends ensures Next(r, t) in ends {
        RunGoesOn(r, t);
      }
      assert ClosedUnderTurns(ends);
    }
    if turns :| s == Run(turns) {
      forall systems | ClosedUnderTurns(systems) ensures s in systems {
        RunStaysInside(turns, systems);
      }
    }
  }

  lemma NoTurns()
    ensures EndsARun(FRESH_SYSTEM)
  {
    assert FRESH_SYSTEM == Run([]);
  }

  function Swapped(t: Turn): Turn {
    match t
    case TurnA(m) => TurnB(m)
    case TurnB(m) => TurnA(m)
    case Stray(f) => Stray(f)
  }

  lemma SwapTurns(s: System, t: Turn)
    ensures Next(s.Swap(), Swapped(t)) == Next(s, t).Swap()
  {
    hide MoveA;
    assert s.Swap().Swap() == s;
  }

  lemma {:induction false} SwapRun(turns: seq<Turn>)
    ensures EndsARun(Run(turns).Swap())
    decreases |turns|
  {
    hide Next;
    if turns == [] {
      NoTurns();
      assert FRESH_SYSTEM.Swap() == FRESH_SYSTEM;
    } else {
      var before, t := Run(turns[..|turns| - 1]), turns[|turns| - 1];
      SwapRun(turns[..|turns| - 1]);
      SwapTurns(before, t);
      RunGoesOn(before.Swap(), Swapped(t));
    }
  }

  /** The two endpoints play the same part. */
  lemma SwapIsReachable(s: System)
    requires Reachable(s)
    ensures Reachable(s.Swap())
  {
    hide Reachable;
    ReachableByRuns(s);
    var turns :| s == Run(turns);
    SwapRun(turns);
    ReachableByRuns(s.Swap());
  }
}
