/**
  The bounded frame-id caches (ts-core/src/net/discovery/frameId.ts,
  ts-core/src/net/routing/frameIdCache.ts) and the decision a routing socket takes on a
  received broadcast (ts-core/src/net/routing/socket.ts).
*/
module FrameIds {
  import opened Common

  type FrameId = int

  /** A set in insertion order: a known id keeps its place, an id too many pushes out the first. */
  function Inserted(cache: seq<FrameId>, limit: nat, id: FrameId): seq<FrameId> {
    var grown := if id in cache then cache else cache + [id];
    if |grown| > limit then grown[1..] else grown
  }

  lemma InsertedIsBounded(cache: seq<FrameId>, limit: nat, id: FrameId)
    requires Distinct(cache) && |cache| <= limit
    ensures Distinct(Inserted(cache, limit, id)) && |Inserted(cache, limit, id)| <= limit
    ensures Elements(Inserted(cache, limit, id)) <= Elements(cache) + {id}
  {
  }

  /** As long as everything ever inserted fits, nothing is pushed out. */
  lemma NothingPushedOut(cache: seq<FrameId>, limit: nat, id: FrameId, ids: set<FrameId>)
    requires Distinct(cache) && Elements(cache) <= ids && id in ids && |ids| <= limit
    ensures var c := Inserted(cache, limit, id);
            Distinct(c) && Elements(c) <= ids && forall x :: x in c <==> x in cache || x == id
  {
    var grown := if id in cache then cache else cache + [id];
    assert Distinct(grown) && Elements(grown) <= ids;
    DistinctSize(grown);
    SubsetSize(Elements(grown), ids);
  }

  lemma InsertDropsOldest(cache: seq<FrameId>, limit: nat, id: FrameId)
    requires |cache| <= limit
    ensures limit > 0 ==> id in Inserted(cache, limit, id)
    ensures forall x :: x in cache && x !in Inserted(cache, limit, id) ==> x == cache[0] && |cache| == limit
  {
    if id !in cache {
      var grown := cache + [id];
      assert grown[|cache|] == id && grown == [grown[0]] + grown[1..];
      assert forall x <- cache :: x in grown;
    }
  }

  function InsertedAll(cache: seq<FrameId>, limit: nat, ids: seq<FrameId>): seq<FrameId>
    decreases |ids|
  {
    if ids == [] then cache else InsertedAll(Inserted(cache, limit, ids[0]), limit, ids[1..])
  }

  /** `id` stands in the cache, and behind it only `others`. */
  ghost predicate HeldBefore(cache: seq<FrameId>, id: FrameId, others: set<FrameId>) {
    exists i :: 0 <= i < |cache| && cache[i] == id && Elements(cache[i + 1..]) <= others
  }

  lemma InsertKeepsBefore(cache: seq<FrameId>, limit: nat, id: FrameId, x: FrameId, others: set<FrameId>)
    requires Distinct(cache) && |cache| <= limit && HeldBefore(cache, id, others)
    requires x == id || x in others
    requires |others| < limit && id !in others
    ensures HeldBefore(Inserted(cache, limit, x), id, others)
  {
    var i :| 0 <= i < |cache| && cache[i] == id && Elements(cache[i + 1..]) <= others;
    if x !in cache {
      var grown, behind := cache + [x], cache[i + 1..] + [x];
      assert grown[i + 1..] == behind && Elements(behind) <= others;
      if |grown| > limit {
        if i == 0 {
          DistinctSize(behind);
          SubsetSize(Elements(behind), others);
          assert false;
        } else {
          assert grown[1..][i - 1] == id && grown[1..][i..] == behind;
        }
      } else {
        assert grown[i] == id;
      }
    }
  }

  lemma {:induction false} InsertsKeepBefore(cache: seq<FrameId>, limit: nat, id: FrameId, ids: seq<FrameId>,
                                              others: set<FrameId>)
    requires Distinct(cache) && |cache| <= limit && HeldBefore(cache, id, others)
    requires Elements(ids) - {id} <= others && |others| < limit && id !in others
    ensures id in InsertedAll(cache, limit, ids)
    decreases |ids|
  {
    if ids != [] {
      assert ids[0] in Elements(ids) && Elements(ids[1..]) <= Elements(ids);
      InsertKeepsBefore(cache, limit, id, ids[0], others);
      InsertedIsBounded(cache, limit, ids[0]);
      InsertsKeepBefore(Inserted(cache, limit, ids[0]), limit, id, ids[1..], others);
    }
  }

  /** A new id is remembered until as many others as the cache holds have come, however often
      each of them comes and whatever the cache held before. */
  lemma Remembered(cache: seq<FrameId>, limit: nat, id: FrameId, ids: seq<FrameId>)
    requires Distinct(cache) && |cache| <= limit && id !in cache
    requires |Elements(ids) - {id}| < limit
    ensures id in InsertedAll(Inserted(cache, limit, id), limit, ids)
  {
    var now := Inserted(cache, limit, id);
    InsertedIsBounded(cache, limit, id);
    assert now[|now| - 1] == id && now[|now|..] == [];
    assert HeldBefore(now, id, Elements(ids) - {id});
    InsertsKeepBefore(now, limit, id, ids, Elements(ids) - {id});
  }

  /** No id stands twice, and there are never more than the limit. */
  class FrameIdCache {
    var cache: seq<FrameId>
    const limit: nat

    ghost predicate Valid()
      reads this
    {
      Distinct(cache) && |cache| <= limit
    }

    constructor (limit: nat)
      ensures Valid() && cache == [] && this.limit == limit
    {
      cache := [];
      this.limit := limit;
    }

    method Insert(id: FrameId)
      requires Valid()
      modifies this
      ensures Valid() && (limit > 0 ==> id in cache)
      ensures id in old(cache) ==> cache == old(cache)
      ensures forall x :: x in cache ==> x == id || x in old(cache)
      ensures forall x :: x in old(cache) && x !in cache ==> x == old(cache)[0] && |old(cache)| == limit
      ensures cache == Inserted(old(cache), limit, id)
    {
      InsertedIsBounded(cache, limit, id);
      InsertDropsOldest(cache, limit, id);
      if id !in cache {
        cache := cache + [id];
      }
      if |cache| > limit {
        cache := cache[1..];
      }
    }

    method Contains(id: FrameId) returns (found: bool)
      ensures found == (id in cache)
    {
      found := id in cache;
    }

    method InsertAndCheckContains(id: FrameId) returns (found: bool)
      requires Valid()
      modifies this
      ensures Valid() && found == (id in old(cache)) && cache == Inserted(old(cache), limit, id)
    {
      found := Contains(id);
      Insert(id);
    }
  }

  datatype Caches = Caches(send: seq<FrameId>, receive: seq<FrameId>)

  /** The random draws are a parameter.  A draw that was received before is rejected, but not
      before it went into the send cache; `None` says that all of them were rejected. */
  datatype Generated = Generated(id: Option<FrameId>, send: seq<FrameId>)

  function Draw(c: Caches, limit: nat, draws: seq<FrameId>): Generated
    decreases |draws|
  {
    if draws == [] then Generated(None, c.send)
    else if draws[0] in c.send then Draw(c, limit, draws[1..])
    else
      var send := Inserted(c.send, limit, draws[0]);
      if draws[0] in c.receive then Draw(c.(send := send), limit, draws[1..])
      else Generated(Some(draws[0]), send)
  }

  function Drawn(draws: nat -> FrameId, n: nat): (ids: seq<FrameId>)
    ensures |ids| == n && forall i :: 0 <= i < n ==> ids[i] == draws(i)
  {
    if n == 0 then [] else Drawn(draws, n - 1) + [draws(n - 1)]
  }

  /** Drawing ends: at the latest with the first draw that neither cache knows, whatever was
      pushed out meanwhile; and the id it ends with was never received. */
  lemma {:induction false} DrawEnds(c: Caches, limit: nat, draws: seq<FrameId>, i: nat)
    requires i < |draws| && draws[i] !in c.send && draws[i] !in c.receive
    ensures var g := Draw(c, limit, draws);
            && g.id.Some? && g.id.value in draws[..i + 1] && g.id.value !in c.receive
            && g == Draw(c, limit, draws[..i + 1])
    decreases |draws|
  {
    assert draws[..i + 1][0] == draws[0] && draws[..i + 1][1..] == draws[1..][..i];
    if draws[0] in c.send {
      DrawEnds(c, limit, draws[1..], i - 1);
      assert forall x <- draws[1..][..i] :: x in draws[..i + 1];
    } else if draws[0] in c.receive {
      DrawEnds(c.(send := Inserted(c.send, limit, draws[0])), limit, draws[1..], i - 1);
      assert forall x <- draws[1..][..i] :: x in draws[..i + 1];
    }
  }

  /** While nothing is pushed out, a generated id is known to neither cache, and the send cache
      gains that id and otherwise only ids that were received. */
  lemma {:induction false} DrawsFreshIds(c: Caches, limit: nat, draws: seq<FrameId>, ids: set<FrameId>)
    requires Distinct(c.send) && Elements(c.send) <= ids && Elements(draws) <= ids && |ids| <= limit
    ensures var g := Draw(c, limit, draws);
            && Distinct(g.send) && Elements(g.send) <= ids
            && (g.id.Some? ==> g.id.value !in c.send && g.id.value !in c.receive && g.id.value in g.send)
            && (forall x :: x in c.send ==> x in g.send)
            && (forall x :: x in g.send ==> x in c.send || x in c.receive || g.id == Some(x))
    decreases |draws|
  {
    if draws != [] {
      assert draws[0] in Elements(draws) && Elements(draws[1..]) <= Elements(draws);
      if draws[0] in c.send {
        DrawsFreshIds(c, limit, draws[1..], ids);
      } else {
        NothingPushedOut(c.send, limit, draws[0], ids);
        if draws[0] in c.receive {
          DrawsFreshIds(c.(send := Inserted(c.send, limit, draws[0])), limit, draws[1..], ids);
        }
      }
    }
  }

  /** The draws up to the first that neither cache knows. */
  predicate FirstUnknown(c: Caches, draws: seq<FrameId>, n: nat) {
    && n < |draws| && draws[n] !in c.send && draws[n] !in c.receive
    && forall i :: 0 <= i < n ==> draws[i] in c.send || draws[i] in c.receive
  }

  /** While nothing is pushed out, the first draw that neither cache knows is taken, and all draws
      up to it are remembered as sent. */
  lemma {:induction false} DrawsTheFirstUnknown(c: Caches, limit: nat, draws: seq<FrameId>, ids: set<FrameId>, n: nat)
    requires Distinct(c.send) && Elements(c.send) <= ids && Elements(draws) <= ids && |ids| <= limit
    requires FirstUnknown(c, draws, n)
    ensures var g := Draw(c, limit, draws);
            g.id == Some(draws[n]) && forall x :: x in g.send <==> x in c.send || x in draws[..n + 1]
    decreases n
  {
    var rest := draws[1..];
    assert draws[0] in Elements(draws) && Elements(rest) <= Elements(draws);
    assert draws[..n + 1] == [draws[0]] + rest[..n];
    NothingPushedOut(c.send, limit, draws[0], ids);
    if n > 0 {
      var c1 := if draws[0] in c.send then c else c.(send := Inserted(c.send, limit, draws[0]));
      assert rest[n - 1] == draws[n] && draws[n] != draws[0];
      assert FirstUnknown(c1, rest, n - 1);
      DrawsTheFirstUnknown(c1, limit, rest, ids, n - 1);
    }
  }

  datatype Verdict = Verdict(caches: Caches, deliver: bool, forward: bool)

  /** A received broadcast: new ids are delivered, and forwarded unless sent from here. */
  function Receive(c: Caches, limit: nat, id: FrameId): Verdict {
    var c1 := c.(receive := Inserted(c.receive, limit, id));
    if id in c.receive then Verdict(c1, false, false) else Verdict(c1, true, id !in c.send)
  }

  class AsymmetricalFrameIdCache {
    const send: FrameIdCache
    const receive: FrameIdCache

    constructor (limit: nat)
      ensures fresh(send) && fresh(receive) && Valid()
      ensures View() == Caches([], []) && send.limit == limit
    {
      send := new FrameIdCache(limit);
      receive := new FrameIdCache(limit);
    }

    ghost predicate Valid()
      reads send, receive
    {
      send != receive && send.limit == receive.limit && send.Valid() && receive.Valid()
    }

    function View(): Caches
      reads send, receive
    {
      Caches(send.cache, receive.cache)
    }

    /** `enough`: some draw that neither cache knows.  There are 65536 ids and few of them are
        cached, so random draws hit one sooner or later. */
    method Generate(draws: nat -> FrameId, ghost enough: nat, loopbackable: bool) returns (id: FrameId)
      requires Valid()
      requires draws(enough) !in send.cache && draws(enough) !in receive.cache
      modifies send, receive
      ensures Valid() && id !in old(receive.cache)
      ensures var g := Draw(old(View()), send.limit, Drawn(draws, enough + 1));
              && g.id == Some(id)
              && View() == Caches(Inserted(g.send, send.limit, id),
                    if loopbackable then old(receive.cache) else Inserted(old(receive.cache), send.limit, id))
    {
      ghost var all := Drawn(draws, enough + 1);
      assert all[enough] == draws(enough) && all[0] == draws(0);
      DrawEnds(View(), send.limit, all, enough);
      var next, known := 0, true;
      id := draws(0);
      while known
        invariant next <= enough + 1 && Valid() && receive.cache == old(receive.cache)
        invariant known ==> next <= enough && draws(enough) !in send.cache
        invariant known ==> Draw(old(View()), send.limit, all) == Draw(View(), send.limit, all[next..])
        invariant !known ==> Draw(old(View()), send.limit, all) == Generated(Some(id), send.cache)
        decreases enough + 1 - next, known
      {
        assert all[next..][0] == all[next] == draws(next) && all[next..][1..] == all[next + 1..];
        id := draws(next);
        next := next + 1;
        var sent := send.Contains(id);
        if !sent {
          send.Insert(id);
          known := receive.Contains(id);
        }
      }
      send.Insert(id);
      if !loopbackable {
        receive.Insert(id);
      }
    }

    method InsertAndCheckContainsAsReceived(id: FrameId) returns (found: bool)
      requires Valid()
      modifies receive
      ensures Valid() && found == (id in old(receive.cache))
      ensures receive.cache == Inserted(old(receive.cache), send.limit, id)
    {
      found := receive.InsertAndCheckContains(id);
    }

    method ContainsAsSent(id: FrameId) returns (found: bool)
      ensures found == (id in send.cache)
    {
      found := send.Contains(id);
    }
  }

  /** A routing socket as far as broadcasts go: `received` lists the ids handed to the
      listener, `relayed` those sent on to the neighbours. */
  class RoutingSocket {
    const ids: AsymmetricalFrameIdCache
    var received: seq<FrameId>
    var relayed: seq<FrameId>

    constructor (limit: nat)
      ensures ids.Valid() && ids.View() == Caches([], []) && received == relayed == []
    {
      ids := new AsymmetricalFrameIdCache(limit);
      received, relayed := [], [];
    }

    method HandleReceivedFrame(id: FrameId)
      requires ids.Valid()
      modifies this, ids.receive
      ensures ids.Valid()
      ensures var v := Receive(old(ids.View()), ids.send.limit, id);
              && ids.View() == v.caches
              && received == old(received) + (if v.deliver then [id] else [])
              && relayed == old(relayed) + (if v.forward then [id] else [])
      ensures received == if id in old(ids.receive.cache) then old(received) else old(received) + [id]
      ensures relayed == if id in old(ids.receive.cache) || id in old(ids.send.cache)
                         then old(relayed) else old(relayed) + [id]
    {
      var known := ids.InsertAndCheckContainsAsReceived(id);
      if known {
        return;
      }
      received := received + [id];
      var sent := ids.ContainsAsSent(id);
      if sent {
        return;
      }
      relayed := relayed + [id];
    }
  }
}
