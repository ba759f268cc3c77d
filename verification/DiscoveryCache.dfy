/**
  The cache of discovered routes (arduino/lib/net/src/net/discovery/cache.h): a bounded map
  from destinations to gateways, ordered by recency, over the embedded cache set.
*/
module DiscoveryCache {
  import opened Common
  import opened CacheSets

  type Address = int

  /** Milliseconds in 32 bits, which wrap around. */
  const CLOCK_WIDTH := 0x1_0000_0000
  type Instant = t: int | 0 <= t < CLOCK_WIDTH

  /** constants.h:18-19 */
  const LIMIT: Byte := 4
  const EXPIRATION := 10_000

  datatype CacheValue = CacheValue(gateway: Address, totalCost: int)
  datatype Entry = Entry(destination: Address, start: Instant, value: CacheValue)

  function ForDestination(destination: Address): Entry -> bool {
    (e: Entry) => e.destination == destination
  }

  function Through(gateway: Address): Entry -> bool {
    (e: Entry) => e.value.gateway == gateway
  }

  /** The difference of two instants is a signed 32-bit number. */
  function Elapsed(now: Instant, start: Instant): int {
    var d := (now - start) % CLOCK_WIDTH;
    if d < CLOCK_WIDTH / 2 then d else d - CLOCK_WIDTH
  }

  function Expired(now: Instant): Entry -> bool {
    (e: Entry) => Elapsed(now, e.start) >= EXPIRATION
  }

  /** An entry counts as expired from ten seconds after its update, but only until the signed
      difference turns negative after 2^31 milliseconds. */
  lemma ExpiresExactly(e: Entry, updated: nat, after: nat)
    requires e.start == updated % CLOCK_WIDTH
    ensures Expired((updated + after) % CLOCK_WIDTH)(e)
       <==> 10_000 <= after % 0x1_0000_0000 < 0x8000_0000
  {
    var r, f := updated % CLOCK_WIDTH, after % CLOCK_WIDTH;
    var q := updated / CLOCK_WIDTH + after / CLOCK_WIDTH;
    if r + f < CLOCK_WIDTH {
      Remainder(updated + after, q, r + f);
      Remainder(f, 0, f);
    } else {
      Remainder(updated + after, q + 1, r + f - CLOCK_WIDTH);
      Remainder(f - CLOCK_WIDTH, -1, f);
    }
  }

  lemma Remainder(n: int, q: int, r: int)
    requires n == CLOCK_WIDTH * q + r && 0 <= r < CLOCK_WIDTH
    ensures n % CLOCK_WIDTH == r
  {
  }

  // ---------------------------------------------------------------- histories

  datatype Operation =
    | Update(entry: Entry)
    | Remove(gateway: Address)
    | RemoveExpired(now: Instant)

  function Applied(held: seq<Entry>, op: Operation): seq<Entry> {
    match op
    case Update(e) => Pushed(WithoutFirst(ForDestination(e.destination), held), LIMIT, e)
    case Remove(gateway) => WithoutFirst(Through(gateway), held)
    case RemoveExpired(now) => Without(Expired(now), held)
  }

  /** What is held after a history of operations on an empty cache. */
  function Held(ops: seq<Operation>): seq<Entry> {
    if ops == [] then [] else Applied(Held(ops[..|ops| - 1]), ops[|ops| - 1])
  }

  /** When a destination was last updated; -1 if never. */
  function LastUpdate(ops: seq<Operation>, destination: Address): (at: int)
    ensures -1 <= at < |ops|
    ensures at >= 0 ==> ops[at].Update? && ops[at].entry.destination == destination
  {
    if ops == [] then -1
    else
      var last := ops[|ops| - 1];
      if last.Update? && last.entry.destination == destination then |ops| - 1
      else LastUpdate(ops[..|ops| - 1], destination)
  }

  lemma {:induction false} NothingLater(ops: seq<Operation>, destination: Address, i: nat)
    requires i < |ops| && ops[i].Update? && ops[i].entry.destination == destination
    ensures i <= LastUpdate(ops, destination)
    decreases |ops|
  {
    if i < |ops| - 1 {
      NothingLater(ops[..|ops| - 1], destination, i);
    }
  }

  function Lookup(held: seq<Entry>, destination: Address): Option<CacheValue> {
    if held == [] then None
    else if held[0].destination == destination then Some(held[0].value)
    else Lookup(held[1..], destination)
  }

  /** Every entry is the latest update of its destination, and they stand in the order of
      these updates: so no destination is held twice. */
  ghost predicate ByRecency(ops: seq<Operation>, held: seq<Entry>) {
    && (forall i :: 0 <= i < |held| ==> IsLatest(ops, held[i]))
    && (forall i, j :: 0 <= i < j < |held| ==>
          LastUpdate(ops, held[i].destination) < LastUpdate(ops, held[j].destination))
  }

  ghost predicate IsLatest(ops: seq<Operation>, e: Entry) {
    LastUpdate(ops, e.destination) >= 0 && ops[LastUpdate(ops, e.destination)] == Update(e)
  }

  predicate OnePerDestination(held: seq<Entry>) {
    forall i, j :: 0 <= i < j < |held| ==> held[i].destination != held[j].destination
  }

  /** The first entry whose route goes through the gateway is removed, and nothing else. */
  ghost predicate RemovesGateway(before: seq<Entry>, gateway: Address, after: seq<Entry>) {
    && ((forall e <- before :: e.value.gateway != gateway) ==> after == before)
    && (forall i :: 0 <= i < |before| && IsFirstThrough(before, gateway, i) ==>
          after == before[..i] + before[i + 1..])
  }

  predicate IsFirstThrough(held: seq<Entry>, gateway: Address, i: nat)
    requires i < |held|
  {
    held[i].value.gateway == gateway && forall j :: 0 <= j < i ==> held[j].value.gateway != gateway
  }

  lemma RemovalByGateway(held: seq<Entry>, gateway: Address)
    ensures RemovesGateway(held, gateway, Applied(held, Remove(gateway)))
  {
    if forall e <- held :: e.value.gateway != gateway {
      NoFirstMatch(Through(gateway), held);
    }
    forall i | 0 <= i < |held| && IsFirstThrough(held, gateway, i)
      ensures Applied(held, Remove(gateway)) == held[..i] + held[i + 1..]
    {
      FirstMatchRemoved(Through(gateway), held, i);
    }
  }

  lemma {:induction false} FilterKeepsRecency(ops: seq<Operation>, f: Entry -> bool, held: seq<Entry>)
    requires ByRecency(ops, held)
    ensures ByRecency(ops, Without(f, held))
    decreases |held|
  {
    if held != [] {
      var n := |held| - 1;
      var front := Without(f, held[..n]);
      FilterKeepsRecency(ops, f, held[..n]);
      forall e | e in front ensures LastUpdate(ops, e.destination) < LastUpdate(ops, held[n].destination) {
        WithoutHas(f, held[..n], e);
      }
    }
  }

  lemma RemovalKeepsRecency(ops: seq<Operation>, f: Entry -> bool, held: seq<Entry>)
    requires ByRecency(ops, held)
    ensures ByRecency(ops, WithoutFirst(f, held)) && |WithoutFirst(f, held)| <= |held|
  {
    if i :| 0 <= i < |held| && f(held[i]) && NoMatch(f, held[..i]) {
      FirstMatchRemoved(f, held, i);
    } else {
      NoMatchUpTo(f, held, |held|);
      assert held[..|held|] == held;
      NoFirstMatch(f, held);
    }
  }

  lemma {:induction false} NoMatchUpTo(f: Entry -> bool, held: seq<Entry>, n: nat)
    requires n <= |held| && forall i :: 0 <= i < |held| && NoMatch(f, held[..i]) ==> !f(held[i])
    ensures NoMatch(f, held[..n])
  {
    if n > 0 {
      NoMatchUpTo(f, held, n - 1);
      forall k | 0 <= k < n ensures !f(held[..n][k]) {
        assert k < n - 1 ==> held[..n - 1][k] == held[..n][k];
      }
    }
  }

  /** An operation that is no update leaves the latest updates as they are. */
  lemma LastUpdateStays(ops: seq<Operation>, op: Operation, held: seq<Entry>)
    requires ByRecency(ops, held)
    requires op.Update? ==> forall i :: 0 <= i < |held| ==> held[i].destination != op.entry.destination
    ensures ByRecency(ops + [op], held)
  {
    assert (ops + [op])[..|ops|] == ops;
    forall i | 0 <= i < |held|
      ensures IsLatest(ops + [op], held[i])
      ensures LastUpdate(ops + [op], held[i].destination) == LastUpdate(ops, held[i].destination)
    {
      assert IsLatest(ops, held[i]);
    }
  }

  /** The updated destination is no longer among the others. */
  lemma OthersRemain(ops: seq<Operation>, held: seq<Entry>, destination: Address)
    requires ByRecency(ops, held)
    ensures WithoutFirst(ForDestination(destination), held) == Without(ForDestination(destination), held)
    ensures forall e :: e in Without(ForDestination(destination), held) <==> e in held && e.destination != destination
  {
    OneMatchAtMost(ForDestination(destination), held);
    forall e: Entry {
      WithoutHas(ForDestination(destination), held, e);
    }
  }

  lemma RecencyAppended(ops: seq<Operation>, held: seq<Entry>, e: Entry)
    requires ByRecency(ops, held) && IsLatest(ops, e)
    requires forall i :: 0 <= i < |held| ==> LastUpdate(ops, held[i].destination) < LastUpdate(ops, e.destination)
    ensures ByRecency(ops, held + [e])
  {
  }

  lemma RecencyOfRest(ops: seq<Operation>, held: seq<Entry>)
    requires ByRecency(ops, held) && held != []
    ensures ByRecency(ops, held[1..])
  {
  }

  lemma PushKeepsRecency(ops: seq<Operation>, held: seq<Entry>, e: Entry)
    requires ByRecency(ops, held) && |held| <= LIMIT
    requires forall i :: 0 <= i < |held| ==> held[i].destination != e.destination
    ensures ByRecency(ops + [Update(e)], Pushed(held, LIMIT, e)) && |Pushed(held, LIMIT, e)| <= LIMIT
  {
    var ops' := ops + [Update(e)];
    assert ops'[..|ops|] == ops;
    assert IsLatest(ops', e) && LastUpdate(ops', e.destination) == |ops|;
    LastUpdateStays(ops, Update(e), held);
    forall i | 0 <= i < |held| ensures LastUpdate(ops', held[i].destination) < |ops| {
      assert LastUpdate(ops', held[i].destination) == LastUpdate(ops, held[i].destination);
    }
    hide ByRecency, LastUpdate, IsLatest;
    if |held| >= LIMIT {
      RecencyOfRest(ops', held);
      RecencyAppended(ops', held[1..], e);
    } else {
      RecencyAppended(ops', held, e);
    }
  }

  /** In every history each destination is held at most once and with its latest update, the
      entries are in the order of these updates, and there are never more than the limit. */
  lemma {:induction false} HeldByRecency(ops: seq<Operation>)
    ensures ByRecency(ops, Held(ops)) && |Held(ops)| <= LIMIT && OnePerDestination(Held(ops))
    decreases |ops|
  {
    if ops != [] {
      var n := |ops| - 1;
      var before, op, held := ops[..n], ops[n], Held(ops[..n]);
      HeldByRecency(before);
      assert before + [op] == ops;
      match op {
        case Update(e) =>
          OthersRemain(before, held, e.destination);
          RemovalKeepsRecency(before, ForDestination(e.destination), held);
          PushKeepsRecency(before, WithoutFirst(ForDestination(e.destination), held), e);
        case Remove(gateway) =>
          RemovalKeepsRecency(before, Through(gateway), held);
          LastUpdateStays(before, op, Held(ops));
        case RemoveExpired(now) =>
          FilterKeepsRecency(before, Expired(now), held);
          WithoutShortens(Expired(now), held);
          LastUpdateStays(before, op, Held(ops));
      }
    }
  }

  lemma {:induction false} LookupFinds(held: seq<Entry>, destination: Address)
    ensures Lookup(held, destination).Some? <==> exists e :: e in held && e.destination == destination
    ensures Lookup(held, destination).Some? ==>
              exists e :: e in held && e.destination == destination && Lookup(held, destination) == Some(e.value)
    decreases |held|
  {
    if held != [] {
      LookupFinds(held[1..], destination);
      assert held == [held[0]] + held[1..];
      if held[0].destination == destination {
        assert held[0] in held;
      }
    }
  }

  /** A route found is the one of the latest update of its destination. */
  lemma LookupIsLatest(ops: seq<Operation>, destination: Address)
    ensures var found := Lookup(Held(ops), destination);
            found.Some? ==>
              && LastUpdate(ops, destination) >= 0
              && found.value == ops[LastUpdate(ops, destination)].entry.value
  {
    HeldByRecency(ops);
    LookupFinds(Held(ops), destination);
  }

  /** The same entries for a destination, the same answer. */
  lemma LookupByEntries(s: seq<Entry>, t: seq<Entry>, d: Address)
    requires OnePerDestination(s) && OnePerDestination(t)
    requires forall x :: x in s && x.destination == d ==> x in t
    requires forall x :: x in t && x.destination == d ==> x in s
    ensures Lookup(s, d) == Lookup(t, d)
  {
    LookupFinds(s, d);
    LookupFinds(t, d);
  }

  /** The update moves its destination to the end, or appends it, or replaces the oldest. */
  lemma UpdateShape(held: seq<Entry>, e: Entry)
    requires OnePerDestination(held) && |held| <= LIMIT
    ensures forall i :: 0 <= i < |held| && held[i].destination == e.destination ==>
              Applied(held, Update(e)) == held[..i] + held[i + 1..] + [e]
    ensures (forall i :: 0 <= i < |held| ==> held[i].destination != e.destination)
        ==> Applied(held, Update(e)) == (if |held| == LIMIT then held[1..] else held) + [e]
  {
    var f := ForDestination(e.destination);
    forall i | 0 <= i < |held| && held[i].destination == e.destination
      ensures Applied(held, Update(e)) == held[..i] + held[i + 1..] + [e]
    {
      FirstMatchRemoved(f, held, i);
    }
    if forall i :: 0 <= i < |held| ==> held[i].destination != e.destination {
      NoFirstMatch(f, held);
    }
  }

  ghost predicate Evicts(held: seq<Entry>, e: Entry) {
    |held| == LIMIT && forall i :: 0 <= i < |held| ==> held[i].destination != e.destination
  }

  lemma UpdatedEntries(held: seq<Entry>, e: Entry, x: Entry)
    requires OnePerDestination(held) && |held| <= LIMIT && x.destination != e.destination
    ensures x in Applied(held, Update(e)) <==> x in held && !(Evicts(held, e) && x == held[0])
  {
    UpdateShape(held, e);
    hide Applied;
    if i :| 0 <= i < |held| && held[i].destination == e.destination {
      assert held == held[..i] + [held[i]] + held[i + 1..];
    } else if |held| == LIMIT {
      assert held == [held[0]] + held[1..];
    }
  }

  /** An update concerns its own destination only, unless that is new to a full cache: then,
      and only then, another one is dropped, the one updated least recently. */
  lemma UpdateEvictsTheOldest(ops: seq<Operation>, e: Entry, d: Address)
    ensures var held, after := Held(ops), Held(ops + [Update(e)]);
            && Lookup(after, d)
            == (if d == e.destination then Some(e.value)
                else if Evicts(held, e) && d == held[0].destination then None
                else Lookup(held, d))
            && (Evicts(held, e) && Lookup(held, d).Some? ==> LastUpdate(ops, held[0].destination) <= LastUpdate(ops, d))
  {
    var held, after := Held(ops), Held(ops + [Update(e)]);
    HeldByRecency(ops);
    HeldByRecency(ops + [Update(e)]);
    assert (ops + [Update(e)])[..|ops|] == ops;
    LookupFinds(held, d);
    LookupFinds(after, d);
    if d == e.destination {
      UpdateShape(held, e);
      assert e in after;
    } else {
      forall x: Entry | x.destination != e.destination
        ensures x in after <==> x in held && !(Evicts(held, e) && x == held[0])
      {
        UpdatedEntries(held, e, x);
      }
      if !(Evicts(held, e) && d == held[0].destination) {
        LookupByEntries(held, after, d);
      }
    }
  }

  // ---------------------------------------------------------------- who is held

  predicate IsHeld(held: seq<Entry>, d: Address) {
    exists i :: 0 <= i < |held| && held[i].destination == d
  }

  lemma HeldAfterUpdate(held: seq<Entry>, e: Entry, d: Address)
    requires OnePerDestination(held) && |held| <= LIMIT
    ensures IsHeld(Applied(held, Update(e)), d)
       <==> d == e.destination || (IsHeld(held, d) && !(Evicts(held, e) && d == held[0].destination))
  {
    var held' := Applied(held, Update(e));
    UpdateShape(held, e);
    assert held'[|held'| - 1] == e;
    forall x: Entry | x.destination != e.destination
      ensures x in held' <==> x in held && !(Evicts(held, e) && x == held[0])
    {
      UpdatedEntries(held, e, x);
    }
    assert IsHeld(held, d) <==> exists x :: x in held && x.destination == d;
    assert IsHeld(held', d) <==> exists x :: x in held' && x.destination == d;
  }

  predicate Renews(op: Operation, d: Address) {
    op.Update? && op.entry.destination == d
  }

  lemma LastUpdateOf(ops: seq<Operation>, op: Operation, d: Address)
    ensures LastUpdate(ops + [op], d) == if Renews(op, d) then |ops| else LastUpdate(ops, d)
  {
    assert (ops + [op])[..|ops|] == ops;
  }

  /** The operation concerns the latest route of `d`: it has expired, or it is, among those held,
      the one through the gateway that was updated least recently. */
  ghost predicate Takes(ops: seq<Operation>, op: Operation, d: Address) {
    LastUpdate(ops, d) >= 0 &&
    match op
    case Update(_) => false
    case Remove(gateway) =>
      && Through(gateway)(ops[LastUpdate(ops, d)].entry)
      && forall x <- Held(ops) :: Through(gateway)(x) ==> LastUpdate(ops, d) <= LastUpdate(ops, x.destination)
    case RemoveExpired(now) => Expired(now)(ops[LastUpdate(ops, d)].entry)
  }

  /** Updated, and not taken by a removal since then. */
  ghost predicate Kept(ops: seq<Operation>, d: Address)
    decreases |ops|
  {
    ops != [] &&
    var before, op := ops[..|ops| - 1], ops[|ops| - 1];
    Renews(op, d) || (Kept(before, d) && !Takes(before, op, d))
  }

  /** The destinations updated after `d` was updated last. */
  function Newer(ops: seq<Operation>, d: Address): set<Address> {
    set i | 0 <= i < |ops| && ops[i].Update? && LastUpdate(ops, ops[i].entry.destination) > LastUpdate(ops, d) ::
      ops[i].entry.destination
  }

  ghost function KeptNewer(ops: seq<Operation>, d: Address): set<Address> {
    set x <- Newer(ops, d) | Kept(ops, x)
  }

  /** At no time since the last update of `d` were as many others as the limit newer and kept. */
  ghost predicate NeverCrowded(ops: seq<Operation>, d: Address)
    decreases |ops|
  {
    ops != [] && (Renews(ops[|ops| - 1], d) || (NeverCrowded(ops[..|ops| - 1], d) && |KeptNewer(ops, d)| < LIMIT))
  }

  /** What was kept but is not held is older than everything held. */
  ghost predicate Topmost(ops: seq<Operation>) {
    && (forall d :: IsHeld(Held(ops), d) ==> Kept(ops, d))
    && (forall d, e :: Kept(ops, d) && !IsHeld(Held(ops), d) && e in Held(ops) ==>
          LastUpdate(ops, d) < LastUpdate(ops, e.destination))
  }

  function Destinations(held: seq<Entry>): set<Address> {
    set e <- held :: e.destination
  }

  lemma {:induction false} DestinationsSize(held: seq<Entry>)
    requires OnePerDestination(held)
    ensures |Destinations(held)| == |held|
    decreases |held|
  {
    if held != [] {
      var n := |held| - 1;
      DestinationsSize(held[..n]);
      assert Destinations(held) == Destinations(held[..n]) + {held[n].destination} by {
        assert held == held[..n] + [held[n]];
      }
    }
  }

  /** Which one the removal of a first match removes. */
  lemma {:induction false} FirstRemoved(f: Entry -> bool, held: seq<Entry>, i: nat)
    requires i < |held| && OnePerDestination(held)
    ensures held[i] in WithoutFirst(f, held) <==> !(f(held[i]) && forall j :: 0 <= j < i ==> !f(held[j]))
    ensures forall x <- WithoutFirst(f, held) :: x in held
    decreases |held|
  {
    var rest := held[1..];
    assert forall j :: 0 <= j < i - 1 ==> rest[j] == held[j + 1];
    if i > 0 {
      FirstRemoved(f, rest, i - 1);
    } else if |held| > 1 {
      FirstRemoved(f, rest, 0);
    }
  }

  /** Nobody else is taken. */
  lemma RemovalTakes(ops: seq<Operation>, op: Operation, d: Address)
    requires !op.Update?
    ensures IsHeld(Applied(Held(ops), op), d) <==> IsHeld(Held(ops), d) && !Takes(ops, op, d)
  {
    var held, after := Held(ops), Applied(Held(ops), op);
    HeldByRecency(ops);
    RemovalOnlyRemoves(held, op);
    if i :| 0 <= i < |held| && held[i].destination == d {
      assert IsLatest(ops, held[i]);
      assert held[i] in after <==> !Takes(ops, op, d) by {
        match op
        case Remove(gateway) =>
          FirstRemoved(Through(gateway), held, i);
          LeastRecent(ops, held, gateway, i);
        case RemoveExpired(now) => WithoutHas(Expired(now), held, held[i]);
      }
      if k :| 0 <= k < |after| && after[k].destination == d {
        assert after[k] in held;
        assert after[k] == held[i];
      }
    } else {
      forall k | 0 <= k < |after| ensures after[k].destination != d {
        assert after[k] in held;
      }
    }
  }

  lemma RemovalOnlyRemoves(held: seq<Entry>, op: Operation)
    requires !op.Update? && OnePerDestination(held)
    ensures forall x <- Applied(held, op) :: x in held
  {
    match op
    case Remove(gateway) =>
      if held != [] {
        FirstRemoved(Through(gateway), held, 0);
      }
    case RemoveExpired(now) =>
      forall x <- Applied(held, op) ensures x in held {
        WithoutHas(Expired(now), held, x);
      }
  }

  /** No match stands before it exactly if every match is at least as recent. */
  lemma LeastRecent(ops: seq<Operation>, held: seq<Entry>, gateway: Address, i: nat)
    requires ByRecency(ops, held) && i < |held|
    ensures (forall j :: 0 <= j < i ==> !Through(gateway)(held[j]))
       <==> forall x <- held :: Through(gateway)(x) ==>
              LastUpdate(ops, held[i].destination) <= LastUpdate(ops, x.destination)
  {
    if j :| 0 <= j < i && Through(gateway)(held[j]) {
      assert held[j] in held && LastUpdate(ops, held[j].destination) < LastUpdate(ops, held[i].destination);
    } else {
      forall x <- held | Through(gateway)(x)
        ensures LastUpdate(ops, held[i].destination) <= LastUpdate(ops, x.destination)
      {
        var k :| 0 <= k < |held| && held[k] == x;
        assert k == i || k > i;
      }
    }
  }

  lemma KeptAfter(ops: seq<Operation>, op: Operation, d: Address)
    ensures Kept(ops + [op], d) <==> Renews(op, d) || (Kept(ops, d) && !Takes(ops, op, d))
    ensures NeverCrowded(ops + [op], d)
       <==> Renews(op, d) || (NeverCrowded(ops, d) && |KeptNewer(ops + [op], d)| < LIMIT)
    ensures Held(ops + [op]) == Applied(Held(ops), op)
  {
    assert (ops + [op])[..|ops|] == ops;
  }

  lemma OldestIsFirst(ops: seq<Operation>, held: seq<Entry>, e: Entry)
    requires ByRecency(ops, held) && e in held
    ensures LastUpdate(ops, held[0].destination) <= LastUpdate(ops, e.destination)
    ensures e != held[0] ==> LastUpdate(ops, held[0].destination) < LastUpdate(ops, e.destination)
  {
    var i :| 0 <= i < |held| && held[i] == e;
  }

  /** Who is held after an operation has just been updated or was held before. */
  lemma HeldBefore(ops: seq<Operation>, op: Operation, d: Address)
    requires IsHeld(Held(ops + [op]), d) && !Renews(op, d)
    ensures IsHeld(Held(ops), d) && !Takes(ops, op, d)
  {
    KeptAfter(ops, op, d);
    HeldByRecency(ops);
    if op.Update? {
      HeldAfterUpdate(Held(ops), op.entry, d);
    } else {
      RemovalTakes(ops, op, d);
    }
  }

  /** Kept, and dropped by an update: the least recently updated one of a full cache. */
  lemma DroppedIsOldest(ops: seq<Operation>, op: Operation, d: Address)
    requires IsHeld(Held(ops), d) && !IsHeld(Held(ops + [op]), d) && Kept(ops + [op], d)
    ensures op.Update? && Evicts(Held(ops), op.entry) && d == Held(ops)[0].destination && !Renews(op, d)
  {
    KeptAfter(ops, op, d);
    HeldByRecency(ops);
    if op.Update? {
      HeldAfterUpdate(Held(ops), op.entry, d);
    } else {
      RemovalTakes(ops, op, d);
    }
  }

  lemma StepKeepsTopmost(ops: seq<Operation>, op: Operation)
    requires Topmost(ops)
    ensures Topmost(ops + [op])
  {
    var ops', held, held' := ops + [op], Held(ops), Held(ops + [op]);
    HeldByRecency(ops);
    HeldByRecency(ops');
    forall d | IsHeld(held', d) ensures Kept(ops', d) {
      KeptAfter(ops, op, d);
      if !Renews(op, d) {
        HeldBefore(ops, op, d);
      }
    }
    forall d, e | Kept(ops', d) && !IsHeld(held', d) && e in held'
      ensures LastUpdate(ops', d) < LastUpdate(ops', e.destination)
    {
      KeptAfter(ops, op, d);
      LastUpdateOf(ops, op, d);
      LastUpdateOf(ops, op, e.destination);
      if Renews(op, d) {
        RenewedIsHeld(ops, op, d);
      }
      if !Renews(op, e.destination) {
        Staying(ops, op, e);
        if IsHeld(held, d) {
          DroppedIsOldest(ops, op, d);
          HeldAfterUpdate(held, op.entry, d);
          OldestIsFirst(ops, held, e);
        }
      }
    }
  }

  lemma RenewedIsHeld(ops: seq<Operation>, op: Operation, d: Address)
    requires Renews(op, d)
    ensures IsHeld(Held(ops + [op]), d)
  {
    KeptAfter(ops, op, d);
    HeldByRecency(ops);
    HeldAfterUpdate(Held(ops), op.entry, d);
  }

  lemma Staying(ops: seq<Operation>, op: Operation, e: Entry)
    requires e in Held(ops + [op]) && !Renews(op, e.destination)
    ensures e in Held(ops)
  {
    KeptAfter(ops, op, e.destination);
    HeldByRecency(ops);
    if op.Update? {
      UpdatedEntries(Held(ops), op.entry, e);
    } else {
      RemovalOnlyRemoves(Held(ops), op);
    }
  }

  lemma {:induction false} HistoriesAreTopmost(ops: seq<Operation>)
    ensures Topmost(ops)
    decreases |ops|
  {
    if ops != [] {
      var n := |ops| - 1;
      HistoriesAreTopmost(ops[..n]);
      StepKeepsTopmost(ops[..n], ops[n]);
      assert ops == ops[..n] + [ops[n]];
    }
  }

  lemma NewerIsBehind(ops: seq<Operation>, i: nat, x: Address)
    requires i < |Held(ops)| && x in KeptNewer(ops, Held(ops)[i].destination)
    ensures x in Destinations(Held(ops)[i + 1..])
  {
    hide Held, Kept, LastUpdate;
    var held := Held(ops);
    HeldByRecency(ops);
    HistoriesAreTopmost(ops);
    assert held[i] in held && IsHeld(held, x);
    var j :| 0 <= j < |held| && held[j].destination == x;
    assert j > i && held[i + 1..][j - i - 1] == held[j];
  }

  /** Around what is held there is never a crowd. */
  lemma HeldIsNotCrowded(ops: seq<Operation>, d: Address)
    requires IsHeld(Held(ops), d)
    ensures |KeptNewer(ops, d)| < LIMIT
  {
    hide Held, KeptNewer, ByRecency;
    var held := Held(ops);
    HeldByRecency(ops);
    var i :| 0 <= i < |held| && held[i].destination == d;
    forall x | x in KeptNewer(ops, d) ensures x in Destinations(held[i + 1..]) {
      NewerIsBehind(ops, i, x);
    }
    DestinationsSize(held[i + 1..]);
    SubsetSize(KeptNewer(ops, d), Destinations(held[i + 1..]));
  }

  lemma BehindIsNewer(ops: seq<Operation>, e: Entry, x: Entry)
    requires Evicts(Held(ops), e) && x in Held(ops)[1..] + [e]
    ensures x.destination in KeptNewer(ops + [Update(e)], Held(ops)[0].destination)
  {
    hide Held, Kept, LastUpdate;
    var held, op := Held(ops), Update(e);
    HeldByRecency(ops);
    HistoriesAreTopmost(ops);
    KeptAfter(ops, op, x.destination);
    LastUpdateOf(ops, op, held[0].destination);
    LastUpdateOf(ops, op, x.destination);
    if x != e {
      var i :| 0 <= i < |held| - 1 && held[1..][i] == x;
      assert held[i + 1] == x && IsLatest(ops, x) && IsHeld(held, x.destination);
    }
    assert (ops + [op])[LastUpdate(ops + [op], x.destination)].entry.destination == x.destination;
  }

  /** Whoever is evicted leaves a crowd behind. */
  lemma EvictedIsCrowded(ops: seq<Operation>, e: Entry)
    requires Evicts(Held(ops), e)
    ensures |KeptNewer(ops + [Update(e)], Held(ops)[0].destination)| >= LIMIT
  {
    var held := Held(ops);
    var others, crowd := held[1..] + [e], KeptNewer(ops + [Update(e)], held[0].destination);
    HeldByRecency(ops);
    hide Held, KeptNewer, ByRecency;
    DestinationsSize(others);
    forall x <- others ensures x.destination in crowd {
      BehindIsNewer(ops, e, x);
    }
    SubsetSize(Destinations(others), crowd);
  }

  /** In every history: a destination is held exactly if no removal has taken it since its last
      update, and at no time since then as many others as the limit were newer and kept. */
  lemma {:induction false} HeldExactly(ops: seq<Operation>, d: Address)
    ensures IsHeld(Held(ops), d) <==> Kept(ops, d) && NeverCrowded(ops, d)
    decreases |ops|
  {
    if ops != [] {
      var before, op := ops[..|ops| - 1], ops[|ops| - 1];
      assert ops == before + [op];
      HeldExactly(before, d);
      KeptAfter(before, op, d);
      if Renews(op, d) {
        RenewedIsHeld(before, op, d);
      } else if IsHeld(Held(ops), d) {
        HeldBefore(before, op, d);
        HeldIsNotCrowded(ops, d);
      } else if Kept(ops, d) && NeverCrowded(ops, d) {
        DroppedIsOldest(before, op, d);
        EvictedIsCrowded(before, op.entry);
      }
    }
  }

  // ---------------------------------------------------------------- plain numbers

  lemma NewerGrows(ops: seq<Operation>, op: Operation, d: Address)
    requires !Renews(op, d)
    ensures Newer(ops, d) <= Newer(ops + [op], d)
  {
    var ops' := ops + [op];
    LastUpdateOf(ops, op, d);
    forall x | x in Newer(ops, d) ensures x in Newer(ops', d) {
      var i :| 0 <= i < |ops| && ops[i].Update? && ops[i].entry.destination == x
               && LastUpdate(ops, x) > LastUpdate(ops, d);
      LastUpdateOf(ops, op, x);
      assert ops'[i] == ops[i] && ops'[i].entry.destination == x;
    }
  }

  lemma {:induction false} FewIsNoCrowd(ops: seq<Operation>, d: Address)
    requires LastUpdate(ops, d) >= 0 && |Newer(ops, d)| < LIMIT
    ensures NeverCrowded(ops, d)
    decreases |ops|
  {
    var before, op := ops[..|ops| - 1], ops[|ops| - 1];
    assert ops == before + [op];
    if !Renews(op, d) {
      LastUpdateOf(before, op, d);
      NewerGrows(before, op, d);
      SubsetSize(Newer(before, d), Newer(ops, d));
      SubsetSize(KeptNewer(ops, d), Newer(ops, d));
      FewIsNoCrowd(before, d);
    }
  }

  /** No later operation removes the route through this gateway, or finds this entry expired. */
  ghost predicate SparedBy(op: Operation, e: Entry) {
    match op
    case Update(_) => true
    case Remove(gateway) => !Through(gateway)(e)
    case RemoveExpired(now) => !Expired(now)(e)
  }

  ghost predicate Spared(ops: seq<Operation>, d: Address) {
    LastUpdate(ops, d) >= 0 &&
    forall k :: LastUpdate(ops, d) < k < |ops| ==> SparedBy(ops[k], ops[LastUpdate(ops, d)].entry)
  }

  lemma {:induction false} SparedIsKept(ops: seq<Operation>, d: Address)
    requires Spared(ops, d)
    ensures Kept(ops, d)
    decreases |ops|
  {
    var n := |ops| - 1;
    var before, op := ops[..n], ops[n];
    assert ops == before + [op];
    LastUpdateOf(before, op, d);
    if !Renews(op, d) {
      assert SparedBy(ops[n], ops[LastUpdate(ops, d)].entry);
      assert Spared(before, d) by {
        assert forall k :: 0 <= k < n ==> before[k] == ops[k];
      }
      SparedIsKept(before, d);
    }
  }

  /** A destination whose route was neither removed nor found expired since its last update is
      still held while fewer others than the limit were updated after it. */
  lemma HeldWhileRecent(ops: seq<Operation>, d: Address)
    requires Spared(ops, d) && |Newer(ops, d)| < LIMIT
    ensures IsHeld(Held(ops), d) && Lookup(Held(ops), d) == Some(ops[LastUpdate(ops, d)].entry.value)
  {
    SparedIsKept(ops, d);
    FewIsNoCrowd(ops, d);
    HeldExactly(ops, d);
    HeldByRecency(ops);
    LookupFinds(Held(ops), d);
    LookupIsLatest(ops, d);
  }

  ghost predicate UpdatesOnly(ops: seq<Operation>) {
    forall i :: 0 <= i < |ops| ==> ops[i].Update?
  }

  lemma {:induction false} UpdatedIsKept(ops: seq<Operation>, d: Address)
    requires UpdatesOnly(ops)
    ensures Kept(ops, d) <==> LastUpdate(ops, d) >= 0
    decreases |ops|
  {
    if ops != [] {
      UpdatedIsKept(ops[..|ops| - 1], d);
    }
  }

  /** As long as nothing is removed or expires, numbers decide: a destination is held exactly if
      fewer others than the limit were updated after it. */
  lemma HeldByNumber(ops: seq<Operation>, d: Address)
    requires UpdatesOnly(ops)
    ensures IsHeld(Held(ops), d) <==> LastUpdate(ops, d) >= 0 && |Newer(ops, d)| < 4
  {
    HeldExactly(ops, d);
    UpdatedIsKept(ops, d);
    if IsHeld(Held(ops), d) {
      HeldIsNotCrowded(ops, d);
      forall x | x in Newer(ops, d) ensures Kept(ops, x) {
        UpdatedIsKept(ops, x);
      }
      assert KeptNewer(ops, d) == Newer(ops, d);
    } else if LastUpdate(ops, d) >= 0 && |Newer(ops, d)| < LIMIT {
      FewIsNoCrowd(ops, d);
    }
  }

  // ---------------------------------------------------------------- the cache itself

  lemma {:induction false} FirstMatchIsLookup(held: seq<Entry>, d: Address, i: nat)
    requires i < |held| && held[i].destination == d && NoMatch(ForDestination(d), held[..i])
    ensures Lookup(held, d) == Some(held[i].value)
    decreases i
  {
    if i > 0 {
      assert !ForDestination(d)(held[..i][0]);
      assert held[1..][..i - 1] == held[..i][1..];
      FirstMatchIsLookup(held[1..], d, i - 1);
    }
  }

  lemma NoMatchIsNoLookup(held: seq<Entry>, d: Address)
    requires NoMatch(ForDestination(d), held)
    ensures Lookup(held, d) == None
  {
    LookupFinds(held, d);
    assert forall e :: e in held ==> !ForDestination(d)(e);
  }

  class DiscoveryCacheSet {
    const entries: CacheSet<Entry>

    ghost predicate Valid()
      reads this, entries, entries.index, entries.index.map_, entries.entries
    {
      entries.Valid() && entries.Limit() == LIMIT
    }

    constructor ()
      ensures Valid() && fresh(entries) && fresh(entries.Repr()) && entries.Contents() == Held([])
    {
      entries := new CacheSet<Entry>(LIMIT);
    }

    method Update(destination: Address, gateway: Address, totalCost: int, now: Instant)
      requires Valid()
      modifies entries.Repr()
      ensures Valid()
      ensures entries.Contents()
           == Applied(old(entries.Contents()),
                      Operation.Update(Entry(destination, now, CacheValue(gateway, totalCost))))
    {
      entries.RemoveIf(ForDestination(destination), true);
      entries.Push(Entry(destination, now, CacheValue(gateway, totalCost)));
    }

    method Remove(gateway: Address)
      requires Valid()
      modifies entries.Repr()
      ensures Valid() && entries.Contents() == Applied(old(entries.Contents()), Operation.Remove(gateway))
      ensures RemovesGateway(old(entries.Contents()), gateway, entries.Contents())
    {
      RemovalByGateway(entries.Contents(), gateway);
      entries.RemoveIf(Through(gateway), true);
    }

    method RemoveExpired(now: Instant)
      requires Valid()
      modifies entries.Repr()
      ensures Valid() && entries.Contents() == Applied(old(entries.Contents()), Operation.RemoveExpired(now))
    {
      entries.RemoveIf(Expired(now), false);
    }

    method Get(destination: Address) returns (value: Option<CacheValue>)
      requires Valid()
      ensures value == Lookup(entries.Contents(), destination)
    {
      var found := entries.GetIf(ForDestination(destination));
      if found.None? {
        NoMatchIsNoLookup(entries.Contents(), destination);
        return None;
      }
      ghost var i :| 0 <= i < |entries.Contents()| && found.value == entries.Contents()[i]
        && NoMatch(ForDestination(destination), entries.Contents()[..i])
        && ForDestination(destination)(entries.Contents()[i]);
      FirstMatchIsLookup(entries.Contents(), destination, i);
      return Some(found.value.value);
    }
  }
}
