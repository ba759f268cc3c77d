/**
  How often one request may be transmitted: the chain of retries that starts with one
  `SendControl`, while anything else happens to the same socket in between.
*/
module TrustedRetry {
  import opened Common
  import opened TrustedState
  import opened TrustedLifecycle

  /** What happens next: some other event of the socket, or the chain's own link result
      (`ok` is ignored when the chain is waiting for its timeout). */
  datatype Play = Other(event: Event) | Mine(ok: bool)

  predicate InChain(a: Action) {
    a.SendControl? || a.ControlTimeout? || a.SendData? || a.DataTimeout?
  }

  function EventOf(a: Action, ok: bool): (e: Event)
    requires InChain(a)
    ensures WellTyped(e)
  {
    if a.IsTimeout() then TimedOut(a) else if ok then SendOk(a) else SendErr(a)
  }

  /** The action that continues the chain, its delay over. */
  function Successor(actions: seq<Action>): Option<Action> {
    if |actions| != 1 then None
    else if actions[0].Delay? && |actions[0].actions| == 1 && InChain(actions[0].actions[0])
    then Some(actions[0].actions[0])
    else if InChain(actions[0]) then Some(actions[0])
    else None
  }

  /** Where one turn leaves the socket and the chain; `sent` counts its transmission. */
  datatype Turn = Turn(sent: nat, socket: Socket, token: Option<Action>)

  function OtherTurn(s: Socket, a: Action, e: Event): Turn
    requires WellTyped(e)
  {
    match Step(s, e)
    case Done(s', actions, _, _) => Turn(0, s', if IsClose(actions) then None else Some(a))
    case _ => Turn(0, s, Some(a))
  }

  function MineTurn(s: Socket, a: Action, ok: bool): Turn
    requires InChain(a)
  {
    var sent := if a.IsSend() then 1 else 0;
    match Step(s, EventOf(a, ok))
    case Done(s', actions, _, _) => Turn(sent, s', if IsClose(actions) then None else Successor(actions))
    case _ => Turn(sent, s, None)
  }

  function TakeTurn(s: Socket, a: Action, play: Play): (t: Turn)
    requires InChain(a)
    ensures t.token.Some? ==> InChain(t.token.value)
  {
    match play
    case Other(e) => if WellTyped(e) then OtherTurn(s, a, e) else Turn(0, s, Some(a))
    case Mine(ok) => MineTurn(s, a, ok)
  }

  /** How many times the chain reaches the link before it or the session ends. */
  function Transmissions(s: Socket, token: Option<Action>, script: seq<Play>): nat
    requires token.Some? ==> InChain(token.value)
    decreases |script|
  {
    if script == [] || token.None? then 0 else
    var t := TakeTurn(s, token.value, script[0]);
    t.sent + Transmissions(t.socket, t.token, script[1..])
  }

  /** Lexicographic in the phase and the two counters, written as one number. */
  function Budget(s: Socket, a: Action): int {
    match a
    case SendControl(c, retries, ackRetries) =>
      if ShakeOf(s, c).outgoing == Yet then retries + 1 + RETRY_COUNT else ackRetries + 1
    case ControlTimeout(_, ackRetries) => ackRetries
    case _ => 0
  }

  predicate Fresh(a: Action) {
    match a
    case SendControl(_, retries, ackRetries) => 0 <= retries <= RETRY_COUNT && 0 <= ackRetries <= RETRY_COUNT
    case ControlTimeout(_, ackRetries) => 0 <= ackRetries <= RETRY_COUNT
    case _ => false
  }

  ghost predicate Spends(s: Socket, a: Action, t: Turn)
    requires t.token.Some? ==> InChain(t.token.value)
  {
    if t.token.Some? then Fresh(t.token.value) && t.sent + Budget(t.socket, t.token.value) <= Budget(s, a)
    else t.sent <= Budget(s, a)
  }

  lemma OtherSpendsNothing(s: Socket, a: Action, e: Event)
    requires Fresh(a) && InChain(a) && WellTyped(e)
    ensures Spends(s, a, OtherTurn(s, a, e))
  {
    if Handle(s, e).Handled? {
      HandleIsLifecycle(s, e);
      HandleTurns(s, e);
      HookSettles(s.state, Handle(s, e));
      hide Handle;
    }
  }

  lemma MineSpendsBudget(s: Socket, a: Action, ok: bool)
    requires Fresh(a) && InChain(a)
    ensures var t := MineTurn(s, a, ok); (t.token.Some? ==> InChain(t.token.value)) && Spends(s, a, t)
  {
    var e := EventOf(a, ok);
    HandleIsLifecycle(s, e);
    HookSettles(s.state, Handle(s, e));
  }

  lemma TurnSpendsBudget(s: Socket, a: Action, play: Play)
    requires Fresh(a) && InChain(a)
    ensures Spends(s, a, TakeTurn(s, a, play))
  {
    match play
    case Other(e) => if WellTyped(e) { OtherSpendsNothing(s, a, e); }
    case Mine(ok) => MineSpendsBudget(s, a, ok);
  }

  lemma {:induction false} ChainIsBounded(s: Socket, a: Action, script: seq<Play>)
    requires Fresh(a) && InChain(a)
    ensures Transmissions(s, Some(a), script) <= Budget(s, a)
    decreases |script|
  {
    if script != [] {
      var t := TakeTurn(s, a, script[0]);
      TurnSpendsBudget(s, a, script[0]);
      if t.token.Some? {
        ChainIsBounded(t.socket, t.token.value, script[1..]);
      }
    }
  }

  /** The retry chain of one request for SYN or FIN transmits it at most 2 * RETRY_COUNT + 1 = 11
      times, whatever else happens to the socket. */
  lemma ControlRetriesEnd(s: Socket, c: Control, script: seq<Play>)
    ensures Transmissions(s, Some(CreateControl(c)), script) <= 2 * RETRY_COUNT + 1
  {
    ChainIsBounded(s, CreateControl(c), script);
  }

  // ---------------------------------------------------------------- the bound is reached

  /** Every transmission succeeds and every acknowledgement is missing. */
  function Unanswered(k: nat): seq<Play> {
    [Mine(true)] + if k == 0 then [] else [Mine(true)] + Unanswered(k - 1)
  }

  /** First the link refuses `r` times. */
  function Worst(r: nat): seq<Play> {
    if r == 0 then Unanswered(RETRY_COUNT) else [Mine(false)] + Worst(r - 1)
  }

  /** One turn of the chain that reports nothing and goes on as `b`. */
  lemma MineContinues(s: Socket, a: Action, ok: bool, rest: seq<Play>, b: Action) returns (s': Socket)
    requires InChain(a) && InChain(b)
    requires var r := Handle(s, EventOf(a, ok)); r.Handled? && Quiet(r.actions) && Successor(r.actions) == Some(b)
    ensures s' == Refresh(Handle(s, EventOf(a, ok)).socket)
    ensures TakeTurn(s, a, Mine(ok)) == Turn(if a.IsSend() then 1 else 0, s', Some(b))
    ensures Transmissions(s, Some(a), [Mine(ok)] + rest)
         == (if a.IsSend() then 1 else 0) + Transmissions(s', Some(b), rest)
  {
    var e := EventOf(a, ok);
    QuietStep(s, e);
    s' := Step(s, e).socket;
    assert !IsClose(Step(s, e).actions);
    assert ([Mine(ok)] + rest)[1..] == rest;
  }

  lemma NoTurns(s: Socket, token: Option<Action>)
    requires token.Some? ==> InChain(token.value)
    ensures Transmissions(s, token, []) == 0
  {
  }

  // The four turns, each with what it leaves behind.

  lemma SentTurn(s: Socket, c: Control, r: int, k: int, rest: seq<Play>) returns (s': Socket)
    ensures ShakeOf(s', c).outgoing == Half
    ensures Transmissions(s, Some(SendControl(c, r, k)), [Mine(true)] + rest)
         == 1 + Transmissions(s', Some(ControlTimeout(c, k)), rest)
  {
    s' := MineContinues(s, SendControl(c, r, k), true, rest, ControlTimeout(c, k));
  }

  lemma TimeoutTurn(s: Socket, c: Control, k: int, rest: seq<Play>) returns (s': Socket)
    requires ShakeOf(s, c).outgoing == Half && k > 0
    ensures Transmissions(s, Some(ControlTimeout(c, k)), [Mine(true)] + rest)
         == Transmissions(s', Some(SendControl(c, RETRY_COUNT, k - 1)), rest)
  {
    s' := MineContinues(s, ControlTimeout(c, k), true, rest, SendControl(c, RETRY_COUNT, k - 1));
  }

  lemma RefusedTurn(s: Socket, c: Control, r: int, k: int, rest: seq<Play>) returns (s': Socket)
    requires ShakeOf(s, c).outgoing == Yet && r > 0
    ensures ShakeOf(s', c).outgoing == Yet
    ensures Transmissions(s, Some(SendControl(c, r, k)), [Mine(false)] + rest)
         == 1 + Transmissions(s', Some(SendControl(c, r - 1, RETRY_COUNT)), rest)
  {
    s' := MineContinues(s, SendControl(c, r, k), false, rest, SendControl(c, r - 1, RETRY_COUNT));
  }


  lemma {:induction false} UnansweredCosts(s: Socket, c: Control, r: int, k: nat)
    ensures Transmissions(s, Some(SendControl(c, r, k)), Unanswered(k)) == k + 1
    decreases k
  {
    hide Transmissions;
    if k > 0 {
      var rest := Unanswered(k - 1);
      var s1 := SentTurn(s, c, r, k, [Mine(true)] + rest);
      var s2 := TimeoutTurn(s1, c, k, rest);
      UnansweredCosts(s2, c, RETRY_COUNT, k - 1);
      assert Unanswered(k) == [Mine(true)] + ([Mine(true)] + rest);
    } else {
      var s1 := SentTurn(s, c, r, k, []);
      NoTurns(s1, Some(ControlTimeout(c, k)));
      assert Unanswered(k) == [Mine(true)] + [];
    }
  }

  lemma {:induction false} WorstCosts(s: Socket, c: Control, r: nat)
    requires ShakeOf(s, c).outgoing == Yet
    ensures Transmissions(s, Some(SendControl(c, r, RETRY_COUNT)), Worst(r)) == r + 1 + RETRY_COUNT
    decreases r
  {
    hide Transmissions;
    if r == 0 {
      UnansweredCosts(s, c, r, RETRY_COUNT);
    } else {
      var s1 := RefusedTurn(s, c, r, RETRY_COUNT, Worst(r - 1));
      WorstCosts(s1, c, r - 1);
    }
  }

  /** The bound of `ControlRetriesEnd` is reached by every socket that has not sent yet. */
  lemma ControlRetriesAreTight(s: Socket, c: Control)
    requires ShakeOf(s, c).outgoing == Yet
    ensures Transmissions(s, Some(CreateControl(c)), Worst(RETRY_COUNT)) == 2 * RETRY_COUNT + 1
  {
    WorstCosts(s, c, RETRY_COUNT);
  }

  // ---------------------------------------------------------------- data: what bounds it

  /** How often the link refuses the chain's frame. */
  function Refusals(s: Socket, token: Option<Action>, script: seq<Play>): nat
    requires token.Some? ==> InChain(token.value)
    decreases |script|
  {
    if script == [] || token.None? then 0 else
    var t := TakeTurn(s, token.value, script[0]);
    (if script[0] == Mine(false) && token.value.IsSend() then 1 else 0) + Refusals(t.socket, t.token, script[1..])
  }

  /** How often the chain's acknowledgement timeout runs out. */
  function Expiries(s: Socket, token: Option<Action>, script: seq<Play>): nat
    requires token.Some? ==> InChain(token.value)
    decreases |script|
  {
    if script == [] || token.None? then 0 else
    var t := TakeTurn(s, token.value, script[0]);
    (if script[0].Mine? && token.value.IsTimeout() then 1 else 0) + Expiries(t.socket, t.token, script[1..])
  }

  predicate IsData(a: Action) {
    match a
    case SendData(_, retries, ackRetries) => 0 <= retries <= RETRY_COUNT && 0 <= ackRetries <= RETRY_COUNT
    case DataTimeout(_, ackRetries) => 0 <= ackRetries <= RETRY_COUNT
    case _ => false
  }

  /** Transmissions left if the link refuses none; a refusal refills it. */
  function AckBudget(a: Action): int {
    match a
    case SendData(_, _, ackRetries) => ackRetries + 1
    case DataTimeout(_, ackRetries) => ackRetries
    case _ => 0
  }

  /** Transmissions left if no acknowledgement is missing; a missing one refills it. */
  function LinkBudget(a: Action): int {
    match a
    case SendData(_, retries, _) => retries + 1
    case _ => 0
  }

  /** What one turn costs of either budget. */
  ghost predicate Charged(a: Action, play: Play, t: Turn)
    requires t.token.Some? ==> InChain(t.token.value)
  {
    var refused := if play == Mine(false) && a.IsSend() then 1 else 0;
    var expired := if play.Mine? && a.IsTimeout() then 1 else 0;
    && (t.token.Some? ==> IsData(t.token.value))
    && t.sent + (if t.token.Some? then AckBudget(t.token.value) else 0) <= AckBudget(a) + (RETRY_COUNT + 1) * refused
    && t.sent + (if t.token.Some? then LinkBudget(t.token.value) else 0) <= LinkBudget(a) + (RETRY_COUNT + 1) * expired
    && refused <= t.sent
  }

  lemma OtherIsCharged(s: Socket, a: Action, e: Event)
    requires IsData(a) && InChain(a) && WellTyped(e)
    ensures Charged(a, Other(e), OtherTurn(s, a, e))
  {
  }

  lemma MineIsCharged(s: Socket, a: Action, ok: bool)
    requires IsData(a) && InChain(a)
    ensures var t := MineTurn(s, a, ok); (t.token.Some? ==> InChain(t.token.value)) && Charged(a, Mine(ok), t)
  {
    var e := EventOf(a, ok);
    HandleIsLifecycle(s, e);
    HookSettles(s.state, Handle(s, e));
  }

  lemma TurnIsCharged(s: Socket, a: Action, play: Play)
    requires IsData(a) && InChain(a)
    ensures Charged(a, play, TakeTurn(s, a, play))
  {
    match play
    case Other(e) => if WellTyped(e) { OtherIsCharged(s, a, e); }
    case Mine(ok) => MineIsCharged(s, a, ok);
  }

  /** A data chain reaches the link at most as often as either budget and its refills allow,
      and at least once for every refusal. */
  lemma {:induction false} DataChainIsBounded(s: Socket, a: Action, script: seq<Play>)
    requires IsData(a) && InChain(a)
    ensures Transmissions(s, Some(a), script) <= AckBudget(a) + (RETRY_COUNT + 1) * Refusals(s, Some(a), script)
    ensures Transmissions(s, Some(a), script) <= LinkBudget(a) + (RETRY_COUNT + 1) * Expiries(s, Some(a), script)
    ensures Refusals(s, Some(a), script) <= Transmissions(s, Some(a), script)
    decreases |script|
  {
    if script != [] {
      var t := TakeTurn(s, a, script[0]);
      TurnIsCharged(s, a, script[0]);
      if t.token.Some? {
        DataChainIsBounded(t.socket, t.token.value, script[1..]);
      }
    }
  }

  /** Refusals or missing acknowledgements, whichever there are fewer of. */
  function Setbacks(s: Socket, body: DataBody, script: seq<Play>): nat {
    Min(Refusals(s, Some(CreateData(body)), script), Expiries(s, Some(CreateData(body)), script))
  }

  /** A data frame is transmitted at most RETRY_COUNT + 1 times, and as often again for each
      setback, whatever else happens to the socket. */
  lemma DataRetriesAreBounded(s: Socket, body: DataBody, script: seq<Play>)
    ensures Transmissions(s, Some(CreateData(body)), script) <= (RETRY_COUNT + 1) * (1 + Setbacks(s, body, script))
  {
    DataChainIsBounded(s, CreateData(body), script);
  }

  ghost predicate TransmitsAtMost(s: Socket, body: DataBody, scripts: iset<seq<Play>>, n: nat) {
    forall script <- scripts :: Transmissions(s, Some(CreateData(body)), script) <= n
  }

  ghost predicate SetBackAtMost(s: Socket, body: DataBody, scripts: iset<seq<Play>>, n: nat) {
    forall script <- scripts :: Setbacks(s, body, script) <= n
  }

  /** Over any set of scripts, a data frame's transmissions have a bound if and only if the
      setbacks have one: either counter alone ends the chain, both together need not. */
  lemma DataRetriesEndExactly(s: Socket, body: DataBody, scripts: iset<seq<Play>>)
    ensures (exists n: nat :: TransmitsAtMost(s, body, scripts, n))
       <==> (exists n: nat :: SetBackAtMost(s, body, scripts, n))
  {
    if n: nat :| TransmitsAtMost(s, body, scripts, n) {
      forall script <- scripts ensures Setbacks(s, body, script) <= n {
        DataChainIsBounded(s, CreateData(body), script);
      }
      assert SetBackAtMost(s, body, scripts, n);
    }
    if n: nat :| SetBackAtMost(s, body, scripts, n) {
      forall script <- scripts ensures Transmissions(s, Some(CreateData(body)), script) <= (RETRY_COUNT + 1) * (1 + n) {
        DataRetriesAreBounded(s, body, script);
      }
      assert TransmitsAtMost(s, body, scripts, (RETRY_COUNT + 1) * (1 + n));
    }
  }

  // ---------------------------------------------------------------- data: the bound is reached

  /** The link refuses the frame `r` times and then takes it. */
  function Refused(r: nat, rest: seq<Play>): seq<Play> {
    if r == 0 then [Mine(true)] + rest else [Mine(false)] + Refused(r - 1, rest)
  }

  /** All link retries are spent, `n` times over: between the rounds the acknowledgement is missing. */
  function Rounds(n: nat): seq<Play> {
    Refused(RETRY_COUNT, if n == 0 then [] else [Mine(true)] + Rounds(n - 1))
  }

  datatype Tally = Tally(sent: nat, refused: nat, expired: nat)

  function TallyOf(s: Socket, a: Action, script: seq<Play>): Tally
    requires InChain(a)
  {
    Tally(Transmissions(s, Some(a), script), Refusals(s, Some(a), script), Expiries(s, Some(a), script))
  }

  function Plus(x: Tally, y: Tally): Tally {
    Tally(x.sent + y.sent, x.refused + y.refused, x.expired + y.expired)
  }

  lemma DataTurn(s: Socket, a: Action, ok: bool, b: Action, rest: seq<Play>) returns (s': Socket)
    requires IsData(a) && InChain(a) && InChain(b) && InFlight(s.data, a.body)
    requires match a
             case SendData(body, r, k) =>
               if ok then b == DataTimeout(body, k) else r > 0 && b == SendData(body, r - 1, RETRY_COUNT)
             case DataTimeout(body, k) => k > 0 && b == SendData(body, RETRY_COUNT, k - 1)
    ensures InFlight(s'.data, a.body)
    ensures TallyOf(s, a, [Mine(ok)] + rest)
         == Plus(if a.IsTimeout() then Tally(0, 0, 1) else if ok then Tally(1, 0, 0) else Tally(1, 1, 0),
                 TallyOf(s', b, rest))
  {
    hide TallyOf, Refresh;
    s' := MineContinues(s, a, ok, rest, b);
    TurnTally(s, a, ok, b, s', rest);
    RefreshKeepsData(Handle(s, EventOf(a, ok)).socket);
  }

  lemma RefreshKeepsData(s: Socket)
    ensures Refresh(s).data == s.data
  {
  }

  lemma TurnTally(s: Socket, a: Action, ok: bool, b: Action, s': Socket, rest: seq<Play>)
    requires InChain(a) && InChain(b)
    requires TakeTurn(s, a, Mine(ok)) == Turn(if a.IsSend() then 1 else 0, s', Some(b))
    ensures TallyOf(s, a, [Mine(ok)] + rest)
         == Plus(if a.IsTimeout() then Tally(0, 0, 1) else if ok then Tally(1, 0, 0) else Tally(1, 1, 0),
                 TallyOf(s', b, rest))
  {
    hide TakeTurn;
    assert ([Mine(ok)] + rest)[1..] == rest && ([Mine(ok)] + rest)[0] == Mine(ok);
  }

  lemma {:induction false} RefusedTally(s: Socket, body: DataBody, r: nat, k: nat, rest: seq<Play>) returns (s': Socket)
    requires InFlight(s.data, body) && r <= RETRY_COUNT && k <= RETRY_COUNT && (r == 0 ==> k == RETRY_COUNT)
    ensures InFlight(s'.data, body)
    ensures TallyOf(s, SendData(body, r, k), Refused(r, rest))
         == Plus(Tally(r + 1, r, 0), TallyOf(s', DataTimeout(body, RETRY_COUNT), rest))
    decreases r
  {
    hide TallyOf;
    if r == 0 {
      s' := DataTurn(s, SendData(body, 0, k), true, DataTimeout(body, k), rest);
    } else {
      var b := SendData(body, r - 1, RETRY_COUNT);
      var s1 := DataTurn(s, SendData(body, r, k), false, b, Refused(r - 1, rest));
      s' := RefusedTally(s1, body, r - 1, RETRY_COUNT, rest);
    }
  }

  lemma NoPlays(s: Socket, a: Action)
    requires InChain(a)
    ensures TallyOf(s, a, []) == Tally(0, 0, 0)
  {
  }

  lemma {:induction false} RoundsTally(s: Socket, body: DataBody, k: nat, n: nat)
    requires InFlight(s.data, body) && k <= RETRY_COUNT
    ensures TallyOf(s, SendData(body, RETRY_COUNT, k), Rounds(n))
         == Tally((RETRY_COUNT + 1) * (n + 1), RETRY_COUNT * (n + 1), n)
    decreases n
  {
    hide TallyOf;
    var timeout := DataTimeout(body, RETRY_COUNT);
    if n == 0 {
      var s1 := RefusedTally(s, body, RETRY_COUNT, k, []);
      NoPlays(s1, timeout);
    } else {
      var again := SendData(body, RETRY_COUNT, RETRY_COUNT - 1);
      var s1 := RefusedTally(s, body, RETRY_COUNT, k, [Mine(true)] + Rounds(n - 1));
      var s2 := DataTurn(s1, timeout, true, again, Rounds(n - 1));
      RoundsTally(s2, body, RETRY_COUNT - 1, n - 1);
    }
  }

  /** The bound of `DataRetriesAreBounded` is reached for every number of setbacks, by every
      frame in flight.  So "every data retry chain ends" is false. */
  lemma DataRetriesAreTight(s: Socket, body: DataBody, n: nat)
    requires InFlight(s.data, body)
    ensures Setbacks(s, body, Rounds(n)) == n
    ensures Transmissions(s, Some(CreateData(body)), Rounds(n)) == (RETRY_COUNT + 1) * (1 + n)
  {
    RoundsTally(s, body, RETRY_COUNT, n);
  }
}
