/**
  Broadcast by flooding (ts-core/src/net/routing/socket.ts) over any undirected topology:
  frames in flight are delivered in any order, interleaved with other broadcasts, or lost.
*/
module Flooding {
  import opened Common
  import opened Topology
  import opened FrameIds

  /** `loopback` nodes also send their broadcasts to themselves; `origin` says where each id
      is generated.  Ids are distinct and no more than a cache holds. */
  datatype World = World(
    graph: Graph, loopback: set<NodeId>, limit: nat, ids: set<FrameId>, origin: map<FrameId, NodeId>)
  {
    ghost predicate Valid() {
      && Undirected(graph)
      && |ids| <= limit
      && origin.Keys == ids
      && (forall id <- ids :: origin[id] in graph)
    }

    /** Everybody a broadcast of `v` may reach directly. */
    function Targets(v: NodeId): set<NodeId>
      requires v in graph
    {
      (set w | w in graph[v].links && w in graph) + if v in loopback then {v} else {}
    }
  }

  datatype Hop = Hop(source: NodeId, target: NodeId)

  /** The history of one id. */
  datatype Trail = Trail(
    started: bool,
    flight: multiset<Hop>,
    delivered: multiset<NodeId>,
    sent: multiset<NodeId>,
    transmissions: nat,
    consumed: nat,
    lost: bool)

  const NO_TRAIL := Trail(false, multiset{}, multiset{}, multiset{}, 0, 0, false)

  datatype State = State(caches: map<NodeId, Caches>, trails: map<FrameId, Trail>)

  datatype Step =
    | Start(id: FrameId, reached: set<NodeId>)
    | Arrive(id: FrameId, hop: Hop, reached: set<NodeId>)
    | Lose(id: FrameId, hop: Hop)
    | Redraw(node: NodeId, id: FrameId)   // a received id is drawn again and rejected

  function Fresh(w: World): State {
    State(map v | v in w.graph :: Caches([], []), map id | id in w.ids :: NO_TRAIL)
  }

  function Hops(v: NodeId, reached: set<NodeId>): multiset<Hop> {
    multiset(set t | t in reached :: Hop(v, t))
  }

  /** One broadcast by `v`, to itself, to every neighbour but possibly the previous hop. */
  function Broadcast(t: Trail, v: NodeId, reached: set<NodeId>): Trail {
    t.(flight := t.flight + Hops(v, reached), sent := t.sent + multiset{v},
       transmissions := t.transmissions + |reached|)
  }

  /** Link-level broadcast may reach the previous hop too, single sends leave it out. */
  predicate MayReach(w: World, v: NodeId, spared: set<NodeId>, reached: set<NodeId>)
    requires v in w.graph
  {
    w.Targets(v) - spared <= reached <= w.Targets(v)
  }

  function StartAt(w: World, s: State, id: FrameId, reached: set<NodeId>): State
    requires id in s.trails && id in w.origin && w.origin[id] in s.caches
  {
    var v := w.origin[id];
    var c := s.caches[v];
    var c1 := Caches(Inserted(c.send, w.limit, id),
                     if v in w.loopback then c.receive else Inserted(c.receive, w.limit, id));
    State(s.caches[v := c1], s.trails[id := Broadcast(s.trails[id].(started := true), v, reached)])
  }

  function ArriveAt(w: World, s: State, id: FrameId, hop: Hop, reached: set<NodeId>): State
    requires id in s.trails && hop.target in s.caches
  {
    var v, t := hop.target, s.trails[id];
    var r := Receive(s.caches[v], w.limit, id);
    var t1 := t.(flight := t.flight - multiset{hop}, consumed := t.consumed + 1,
                 delivered := if r.deliver then t.delivered + multiset{v} else t.delivered);
    State(s.caches[v := r.caches], s.trails[id := if r.forward then Broadcast(t1, v, reached) else t1])
  }

  /** A step that is not possible changes nothing. */
  function Next(w: World, s: State, step: Step): State
    requires s.caches.Keys == w.graph.Keys && s.trails.Keys == w.ids && w.Valid()
  {
    match step
    case Start(id, reached) =>
      if id in w.ids && !s.trails[id].started && MayReach(w, w.origin[id], {}, reached)
      then StartAt(w, s, id, reached) else s
    case Arrive(id, hop, reached) =>
      if && id in w.ids && hop in s.trails[id].flight && hop.target in w.graph
         && MayReach(w, hop.target, {hop.source}, reached)
      then ArriveAt(w, s, id, hop, reached) else s
    case Lose(id, hop) =>
      if id in w.ids && hop in s.trails[id].flight
      then
        var t := s.trails[id];
        s.(trails := s.trails[id := t.(flight := t.flight - multiset{hop}, consumed := t.consumed + 1, lost := true)])
      else s
    case Redraw(v, id) =>
      if v in w.graph && id in w.ids && id in s.caches[v].receive
      then s.(caches := s.caches[v := s.caches[v].(send := Inserted(s.caches[v].send, w.limit, id))]) else s
  }

  function Run(w: World, steps: seq<Step>): (s: State)
    requires w.Valid()
    ensures s.caches.Keys == w.graph.Keys && s.trails.Keys == w.ids
  {
    if steps == [] then Fresh(w) else Next(w, Run(w, steps[..|steps| - 1]), steps[|steps| - 1])
  }

  // ---------------------------------------------------------------- one id at a time

  /** Where one id is cached, and its history. */
  datatype View = View(sendAt: set<NodeId>, receivedAt: set<NodeId>, trail: Trail)

  function ViewOf(s: State, id: FrameId): View
    requires id in s.trails
  {
    View((set v | v in s.caches && id in s.caches[v].send),
         (set v | v in s.caches && id in s.caches[v].receive),
         s.trails[id])
  }

  ghost predicate CachesFit(w: World, s: State) {
    forall v <- s.caches ::
      && Distinct(s.caches[v].send) && Distinct(s.caches[v].receive)
      && Elements(s.caches[v].send) <= w.ids && Elements(s.caches[v].receive) <= w.ids
  }

  function StartView(w: World, id: FrameId, x: View, reached: set<NodeId>): View
    requires id in w.origin
  {
    var v := w.origin[id];
    View(x.sendAt + {v}, if v in w.loopback then x.receivedAt else x.receivedAt + {v},
         Broadcast(x.trail.(started := true), v, reached))
  }

  function ArriveView(x: View, hop: Hop, reached: set<NodeId>): View {
    var v, t := hop.target, x.trail;
    var isNew := v !in x.receivedAt;
    var t1 := t.(flight := t.flight - multiset{hop}, consumed := t.consumed + 1,
                 delivered := if isNew then t.delivered + multiset{v} else t.delivered);
    View(x.sendAt, x.receivedAt + {v}, if isNew && v !in x.sendAt then Broadcast(t1, v, reached) else t1)
  }

  function LoseView(x: View, hop: Hop): View {
    x.(trail := x.trail.(flight := x.trail.flight - multiset{hop}, consumed := x.trail.consumed + 1, lost := true))
  }

  function RedrawView(x: View, v: NodeId): View {
    x.(sendAt := x.sendAt + {v})
  }

  lemma StartCaches(w: World, s: State, id: FrameId, reached: set<NodeId>)
    requires w.Valid() && CachesFit(w, s) && s.caches.Keys == w.graph.Keys && s.trails.Keys == w.ids && id in w.ids
    ensures var s', o := StartAt(w, s, id, reached), w.origin[id];
            && CachesFit(w, s') && s'.caches.Keys == s.caches.Keys
            && (forall v <- s.caches, x :: x in s'.caches[v].send <==> x in s.caches[v].send || (v == o && x == id))
            && (forall v <- s.caches, x :: x in s'.caches[v].receive
                  <==> x in s.caches[v].receive || (v == o && x == id && o !in w.loopback))
  {
    var v := w.origin[id];
    NothingPushedOut(s.caches[v].send, w.limit, id, w.ids);
    NothingPushedOut(s.caches[v].receive, w.limit, id, w.ids);
    hide Inserted, Broadcast;
  }

  /** While nothing is pushed out of a cache, a step on one id is invisible to the others. */
  lemma StartIsLocal(w: World, s: State, id: FrameId, reached: set<NodeId>)
    requires w.Valid() && CachesFit(w, s) && s.caches.Keys == w.graph.Keys && s.trails.Keys == w.ids && id in w.ids
    ensures var s' := StartAt(w, s, id, reached);
            && CachesFit(w, s') && ViewOf(s', id) == StartView(w, id, ViewOf(s, id), reached)
            && forall other <- w.ids :: other != id ==> ViewOf(s', other) == ViewOf(s, other)
  {
    StartCaches(w, s, id, reached);
    var s' := StartAt(w, s, id, reached);
    assert s'.trails == s.trails[id := Broadcast(s.trails[id].(started := true), w.origin[id], reached)];
    hide StartAt, CachesFit, Broadcast;
  }

  lemma ArriveIsLocal(w: World, s: State, id: FrameId, hop: Hop, reached: set<NodeId>)
    requires w.Valid() && CachesFit(w, s) && s.caches.Keys == w.graph.Keys && s.trails.Keys == w.ids && id in w.ids
    requires hop.target in w.graph
    ensures var s' := ArriveAt(w, s, id, hop, reached);
            && CachesFit(w, s') && ViewOf(s', id) == ArriveView(ViewOf(s, id), hop, reached)
            && forall other <- w.ids :: other != id ==> ViewOf(s', other) == ViewOf(s, other)
  {
    NothingPushedOut(s.caches[hop.target].receive, w.limit, id, w.ids);
    hide Inserted, Distinct, Broadcast;
  }

  lemma RedrawIsLocal(w: World, s: State, v: NodeId, id: FrameId)
    requires w.Valid() && CachesFit(w, s) && s.caches.Keys == w.graph.Keys && s.trails.Keys == w.ids && id in w.ids
    requires v in w.graph && id in s.caches[v].receive
    ensures var s' := Next(w, s, Redraw(v, id));
            && CachesFit(w, s') && ViewOf(s', id) == RedrawView(ViewOf(s, id), v)
            && forall other <- w.ids :: other != id ==> ViewOf(s', other) == ViewOf(s, other)
  {
    NothingPushedOut(s.caches[v].send, w.limit, id, w.ids);
  }

  // ---------------------------------------------------------------- counting

  /** The sum of the numbers of targets. */
  ghost function Weight(w: World, nodes: set<NodeId>): nat
    requires nodes <= w.graph.Keys
  {
    if nodes == {} then 0
    else
      var v := AnyOf(nodes);
      |w.Targets(v)| + Weight(w, nodes - {v})
  }

  lemma {:induction false} WeightWithout(w: World, nodes: set<NodeId>, x: NodeId)
    requires nodes <= w.graph.Keys && x in nodes
    ensures Weight(w, nodes) == |w.Targets(x)| + Weight(w, nodes - {x})
    decreases |nodes|
  {
    var v := AnyOf(nodes);
    if v != x {
      WeightWithout(w, nodes - {v}, x);
      WeightWithout(w, nodes - {x}, v);
      assert nodes - {v} - {x} == nodes - {x} - {v};
    }
  }

  lemma {:induction false} WeightGrows(w: World, x: set<NodeId>, y: set<NodeId>)
    requires x <= y <= w.graph.Keys
    ensures Weight(w, x) <= Weight(w, y)
    decreases |y - x|
  {
    if x != y {
      assert y == x + (y - x);
      var v := AnyOf(y - x);
      WeightWithout(w, x + {v}, v);
      assert x + {v} - {v} == x;
      assert y - (x + {v}) < y - x;
      SmallerSet(y - (x + {v}), y - x);
      WeightGrows(w, x + {v}, y);
    }
  }

  lemma SmallerSet<T>(x: set<T>, y: set<T>)
    requires x < y
    ensures |x| < |y|
  {
    assert y == x + (y - x);
    assert |y - x| > 0;
  }

  lemma {:induction false} HopsCount(v: NodeId, reached: set<NodeId>)
    ensures |Hops(v, reached)| == |reached|
    decreases |reached|
  {
    if reached != {} {
      var t := AnyOf(reached);
      HopsCount(v, reached - {t});
      var rest := set x | x in reached - {t} :: Hop(v, x);
      assert (set x | x in reached :: Hop(v, x)) == rest + {Hop(v, t)};
      assert Hops(v, reached) == Hops(v, reached - {t}) + multiset{Hop(v, t)};
    }
  }

  // ---------------------------------------------------------------- the invariant of one id

  /** The nodes that know the id: it arrived there, or it was generated there. */
  function Seen(w: World, id: FrameId, x: View): set<NodeId>
    requires id in w.origin
  {
    x.receivedAt + if x.trail.started then {w.origin[id]} else {}
  }

  /** A node hears what others generate, and its own broadcasts only over its loopback. */
  predicate Listens(w: World, id: FrameId, v: NodeId)
    requires id in w.origin
  {
    v != w.origin[id] || v in w.loopback
  }

  ghost predicate Places(w: World, id: FrameId, x: View)
    requires w.Valid() && id in w.ids
  {
    var o, seen := w.origin[id], Seen(w, id, x);
    && seen <= w.graph.Keys
    && x.sendAt <= seen
    && (if x.trail.started then o in x.sendAt && (o !in w.loopback ==> o in x.receivedAt) else seen == {})
    && (forall v <- seen :: Reachable(w.graph, o, v))
    && (forall h <- x.trail.flight :: h.source in seen && h.target in w.Targets(h.source))
  }

  ghost predicate Counts(w: World, id: FrameId, x: View)
    requires w.Valid() && id in w.ids && Places(w, id, x)
  {
    && DeliveredOnce(w, id, x) && SentOnce(w, id, x)
    && Tally(x.trail) && x.trail.transmissions <= Weight(w, Seen(w, id, x))
  }

  ghost predicate DeliveredOnce(w: World, id: FrameId, x: View)
    requires id in w.origin
  {
    forall v :: x.trail.delivered[v] == if v in x.receivedAt && Listens(w, id, v) then 1 else 0
  }

  ghost predicate SentOnce(w: World, id: FrameId, x: View)
    requires id in w.origin
  {
    forall v :: x.trail.sent[v] == if v in Seen(w, id, x) then 1 else 0
  }

  predicate Tally(t: Trail) {
    t.consumed + |t.flight| == t.transmissions
  }

  /** `v`'s broadcast has arrived at `u`, or will, or need not. */
  predicate Settled(w: World, id: FrameId, x: View, v: NodeId, u: NodeId)
    requires id in w.origin
  {
    Hop(v, u) in x.trail.flight || (if u == v then u in x.receivedAt else u in Seen(w, id, x))
  }

  /** Unless something was lost, each node that sent has reached its targets or still does. */
  ghost predicate Covers(w: World, id: FrameId, x: View)
    requires w.Valid() && id in w.ids && Places(w, id, x)
  {
    !x.trail.lost ==>
      forall v, u :: v in Seen(w, id, x) && u in w.Targets(v) ==> Settled(w, id, x, v, u)
  }

  ghost predicate IdInv(w: World, id: FrameId, x: View)
    requires w.Valid() && id in w.ids
  {
    Places(w, id, x) && Counts(w, id, x) && Covers(w, id, x)
  }

  lemma BroadcastCounts(w: World, v: NodeId, reached: set<NodeId>, seen: set<NodeId>)
    requires v in w.graph && v !in seen && seen <= w.graph.Keys && reached <= w.Targets(v)
    ensures |Hops(v, reached)| == |reached|
    ensures Weight(w, seen) + |reached| <= Weight(w, seen + {v})
    ensures forall h :: h in Hops(v, reached) <==> h.source == v && h.target in reached
  {
    HopsCount(v, reached);
    WeightWithout(w, seen + {v}, v);
    assert seen + {v} - {v} == seen;
    SubsetSize(reached, w.Targets(v));
  }

  lemma StartKeeps(w: World, id: FrameId, x: View, reached: set<NodeId>)
    requires w.Valid() && id in w.ids && IdInv(w, id, x) && !x.trail.started
    requires MayReach(w, w.origin[id], {}, reached)
    ensures IdInv(w, id, StartView(w, id, x, reached))
  {
    var o, x' := w.origin[id], StartView(w, id, x, reached);
    BroadcastCounts(w, o, reached, {});
    Trivially(w.graph, o);
    assert Seen(w, id, x') == {o};
    assert {} + {o} == {o};
  }

  /** The frame comes back to a node that knows it. */
  lemma ArriveAgainKeeps(w: World, id: FrameId, x: View, hop: Hop, reached: set<NodeId>)
    requires w.Valid() && id in w.ids && IdInv(w, id, x) && hop in x.trail.flight
    requires hop.target in Seen(w, id, x)
    ensures IdInv(w, id, ArriveView(x, hop, reached))
  {
    AgainPlaces(w, id, x, hop, reached);
    AgainCounts(w, id, x, hop, reached);
    AgainCovers(w, id, x, hop, reached);
  }

  lemma AgainPlaces(w: World, id: FrameId, x: View, hop: Hop, reached: set<NodeId>)
    requires w.Valid() && id in w.ids && Places(w, id, x) && hop in x.trail.flight
    requires hop.target in Seen(w, id, x)
    ensures Places(w, id, ArriveView(x, hop, reached))
    ensures Seen(w, id, ArriveView(x, hop, reached)) == Seen(w, id, x)
    ensures hop.target in x.receivedAt || hop.target in x.sendAt
  {
    assert Seen(w, id, ArriveView(x, hop, reached)) == Seen(w, id, x);
  }

  lemma AgainCounts(w: World, id: FrameId, x: View, hop: Hop, reached: set<NodeId>)
    requires w.Valid() && id in w.ids && Places(w, id, x) && Counts(w, id, x) && hop in x.trail.flight
    requires hop.target in Seen(w, id, x) && Places(w, id, ArriveView(x, hop, reached))
    ensures Counts(w, id, ArriveView(x, hop, reached))
  {
    AgainPlaces(w, id, x, hop, reached);
  }

  lemma AgainCovers(w: World, id: FrameId, x: View, hop: Hop, reached: set<NodeId>)
    requires w.Valid() && id in w.ids && Places(w, id, x) && Covers(w, id, x) && hop in x.trail.flight
    requires hop.target in Seen(w, id, x) && Places(w, id, ArriveView(x, hop, reached))
    ensures Covers(w, id, ArriveView(x, hop, reached))
  {
    var x' := ArriveView(x, hop, reached);
    AgainPlaces(w, id, x, hop, reached);
    forall v, u | !x'.trail.lost && v in Seen(w, id, x') && u in w.Targets(v)
      ensures Settled(w, id, x', v, u)
    {
      assert Settled(w, id, x, v, u);
    }
  }

  /** The frame reaches a node for the first time. */
  lemma ArriveFirstKeeps(w: World, id: FrameId, x: View, hop: Hop, reached: set<NodeId>)
    requires w.Valid() && id in w.ids && IdInv(w, id, x) && hop in x.trail.flight
    requires hop.target !in Seen(w, id, x) && MayReach(w, hop.target, {hop.source}, reached)
    ensures IdInv(w, id, ArriveView(x, hop, reached))
  {
    FirstArrivalPlaces(w, id, x, hop, reached);
    FirstArrivalCounts(w, id, x, hop, reached);
    FirstArrivalCovers(w, id, x, hop, reached);
  }

  lemma FirstArrivalTally(x: View, hop: Hop, reached: set<NodeId>)
    requires hop in x.trail.flight && hop.target !in x.receivedAt && hop.target !in x.sendAt && Tally(x.trail)
    ensures Tally(ArriveView(x, hop, reached).trail)
  {
    HopsCount(hop.target, reached);
  }

  lemma FirstArrivalDelivers(w: World, id: FrameId, x: View, hop: Hop, reached: set<NodeId>)
    requires w.Valid() && id in w.ids && Places(w, id, x) && Counts(w, id, x) && hop in x.trail.flight
    requires hop.target !in Seen(w, id, x)
    ensures DeliveredOnce(w, id, ArriveView(x, hop, reached)) && SentOnce(w, id, ArriveView(x, hop, reached))
  {
    FirstArrivalTrail(w, id, x, hop, reached);
  }

  lemma FirstArrivalCounts(w: World, id: FrameId, x: View, hop: Hop, reached: set<NodeId>)
    requires w.Valid() && id in w.ids && Places(w, id, x) && Counts(w, id, x) && hop in x.trail.flight
    requires hop.target !in Seen(w, id, x) && MayReach(w, hop.target, {hop.source}, reached)
    requires Places(w, id, ArriveView(x, hop, reached))
    ensures Counts(w, id, ArriveView(x, hop, reached))
  {
    FirstArrivalDelivers(w, id, x, hop, reached);
    FirstArrivalTally(x, hop, reached);
    hide Places, ArriveView, Seen, Tally, DeliveredOnce, SentOnce;
    FirstArrivalTrail(w, id, x, hop, reached);
    BroadcastCounts(w, hop.target, reached, Seen(w, id, x));
  }

  lemma FirstArrivalTrail(w: World, id: FrameId, x: View, hop: Hop, reached: set<NodeId>)
    requires w.Valid() && id in w.ids && Places(w, id, x) && hop in x.trail.flight
    requires hop.target !in Seen(w, id, x)
    ensures var v, x', t := hop.target, ArriveView(x, hop, reached), x.trail;
            && Seen(w, id, x') == Seen(w, id, x) + {v} && x'.receivedAt == x.receivedAt + {v}
            && Seen(w, id, x) <= w.graph.Keys && v in w.graph && v != w.origin[id]
            && x'.trail.flight == t.flight - multiset{hop} + Hops(v, reached)
            && x'.trail.delivered == t.delivered + multiset{v} && x'.trail.sent == t.sent + multiset{v}
            && x'.trail.consumed == t.consumed + 1 && x'.trail.transmissions == t.transmissions + |reached|
  {
    assert Seen(w, id, ArriveView(x, hop, reached)) == Seen(w, id, x) + {hop.target};
  }

  lemma FirstArrivalPlaces(w: World, id: FrameId, x: View, hop: Hop, reached: set<NodeId>)
    requires w.Valid() && id in w.ids && Places(w, id, x) && hop in x.trail.flight
    requires hop.target !in Seen(w, id, x) && MayReach(w, hop.target, {hop.source}, reached)
    ensures Places(w, id, ArriveView(x, hop, reached))
  {
    var v, x' := hop.target, ArriveView(x, hop, reached);
    assert Seen(w, id, x') == Seen(w, id, x) + {v};
    BroadcastCounts(w, v, reached, Seen(w, id, x));
    assert LinkCost(w.graph, hop.source, v).Some?;
    OneFurther(w.graph, w.origin[id], hop.source, v);
  }

  lemma FirstArrivalCovers(w: World, id: FrameId, x: View, hop: Hop, reached: set<NodeId>)
    requires w.Valid() && id in w.ids && Places(w, id, x) && Covers(w, id, x) && hop in x.trail.flight
    requires hop.target !in Seen(w, id, x) && MayReach(w, hop.target, {hop.source}, reached)
    requires Places(w, id, ArriveView(x, hop, reached))
    ensures Covers(w, id, ArriveView(x, hop, reached))
  {
    var x' := ArriveView(x, hop, reached);
    BroadcastCounts(w, hop.target, reached, Seen(w, id, x));
    forall v, u | !x'.trail.lost && v in Seen(w, id, x') && u in w.Targets(v)
      ensures Settled(w, id, x', v, u)
    {
      if v != hop.target {
        assert Settled(w, id, x, v, u);
        StaysSettled(w, id, x, hop, reached, v, u);
      } else if u in reached {
        assert Hop(v, u) in Hops(v, reached);
        assert Hop(v, u) in x'.trail.flight;
      } else {
        assert u == hop.source;
      }
    }
  }

  lemma StaysSettled(w: World, id: FrameId, x: View, hop: Hop, reached: set<NodeId>, v: NodeId, u: NodeId)
    requires id in w.origin && Settled(w, id, x, v, u) && v != hop.target
    ensures Settled(w, id, ArriveView(x, hop, reached), v, u)
  {
  }

  lemma LoseKeeps(w: World, id: FrameId, x: View, hop: Hop)
    requires w.Valid() && id in w.ids && IdInv(w, id, x) && hop in x.trail.flight
    ensures IdInv(w, id, LoseView(x, hop))
  {
    assert Seen(w, id, LoseView(x, hop)) == Seen(w, id, x);
  }

  lemma RedrawKeeps(w: World, id: FrameId, x: View, v: NodeId)
    requires w.Valid() && id in w.ids && IdInv(w, id, x) && v in x.receivedAt
    ensures IdInv(w, id, RedrawView(x, v))
  {
    assert Seen(w, id, RedrawView(x, v)) == Seen(w, id, x);
  }

  ghost predicate Invariant(w: World, s: State)
    requires w.Valid()
  {
    && s.caches.Keys == w.graph.Keys && s.trails.Keys == w.ids
    && CachesFit(w, s)
    && forall id <- w.ids :: IdInv(w, id, ViewOf(s, id))
  }

  /** A step on one id that is invisible to the others keeps the invariant if that id's part does. */
  lemma LocalStepKeeps(w: World, s: State, s': State, id: FrameId)
    requires w.Valid() && Invariant(w, s) && id in w.ids
    requires s'.caches.Keys == w.graph.Keys && s'.trails.Keys == w.ids && CachesFit(w, s')
    requires forall other <- w.ids :: other != id ==> ViewOf(s', other) == ViewOf(s, other)
    requires IdInv(w, id, ViewOf(s', id))
    ensures Invariant(w, s')
  {
    forall other | other in w.ids ensures IdInv(w, other, ViewOf(s', other)) {
      if other != id {
        assert ViewOf(s', other) == ViewOf(s, other);
        assert IdInv(w, other, ViewOf(s, other));
      }
    }
  }

  lemma ArriveKeeps(w: World, id: FrameId, x: View, hop: Hop, reached: set<NodeId>)
    requires w.Valid() && id in w.ids && IdInv(w, id, x) && hop in x.trail.flight
    requires hop.target in w.graph && MayReach(w, hop.target, {hop.source}, reached)
    ensures IdInv(w, id, ArriveView(x, hop, reached))
  {
    if hop.target in Seen(w, id, x) {
      ArriveAgainKeeps(w, id, x, hop, reached);
    } else {
      ArriveFirstKeeps(w, id, x, hop, reached);
    }
  }

  lemma LoseIsLocal(w: World, s: State, id: FrameId, hop: Hop)
    requires w.Valid() && s.caches.Keys == w.graph.Keys && s.trails.Keys == w.ids && id in w.ids
    requires hop in s.trails[id].flight
    ensures var s' := Next(w, s, Lose(id, hop));
            && s'.caches == s.caches && ViewOf(s', id) == LoseView(ViewOf(s, id), hop)
            && forall other <- w.ids :: other != id ==> ViewOf(s', other) == ViewOf(s, other)
  {
  }

  lemma StartKeepsAll(w: World, s: State, id: FrameId, reached: set<NodeId>)
    requires w.Valid() && Invariant(w, s) && id in w.ids && !s.trails[id].started
    requires MayReach(w, w.origin[id], {}, reached)
    ensures Invariant(w, StartAt(w, s, id, reached))
  {
    hide IdInv, CachesFit, StartView;
    assert IdInv(w, id, ViewOf(s, id));
    StartIsLocal(w, s, id, reached);
    StartKeeps(w, id, ViewOf(s, id), reached);
    LocalStepKeeps(w, s, StartAt(w, s, id, reached), id);
  }

  lemma ArriveKeepsAll(w: World, s: State, id: FrameId, hop: Hop, reached: set<NodeId>)
    requires w.Valid() && Invariant(w, s) && id in w.ids && hop in s.trails[id].flight && hop.target in w.graph
    requires MayReach(w, hop.target, {hop.source}, reached)
    ensures Invariant(w, ArriveAt(w, s, id, hop, reached))
  {
    hide IdInv, CachesFit, ArriveView;
    assert IdInv(w, id, ViewOf(s, id));
    ArriveIsLocal(w, s, id, hop, reached);
    ArriveKeeps(w, id, ViewOf(s, id), hop, reached);
    LocalStepKeeps(w, s, ArriveAt(w, s, id, hop, reached), id);
  }

  lemma LoseKeepsAll(w: World, s: State, id: FrameId, hop: Hop)
    requires w.Valid() && Invariant(w, s) && id in w.ids && hop in s.trails[id].flight
    ensures Invariant(w, Next(w, s, Lose(id, hop)))
  {
    hide IdInv, LoseView;
    assert IdInv(w, id, ViewOf(s, id));
    LoseIsLocal(w, s, id, hop);
    LoseKeeps(w, id, ViewOf(s, id), hop);
    LocalStepKeeps(w, s, Next(w, s, Lose(id, hop)), id);
  }

  lemma RedrawKeepsAll(w: World, s: State, v: NodeId, id: FrameId)
    requires w.Valid() && Invariant(w, s) && id in w.ids && v in w.graph && id in s.caches[v].receive
    ensures Invariant(w, Next(w, s, Redraw(v, id)))
  {
    hide IdInv, CachesFit, RedrawView;
    assert IdInv(w, id, ViewOf(s, id));
    RedrawIsLocal(w, s, v, id);
    RedrawKeeps(w, id, ViewOf(s, id), v);
    LocalStepKeeps(w, s, Next(w, s, Redraw(v, id)), id);
  }

  lemma NextKeepsInvariant(w: World, s: State, step: Step)
    requires w.Valid() && Invariant(w, s)
    ensures Invariant(w, Next(w, s, step))
  {
    if Next(w, s, step) != s {
      match step {
        case Start(id, reached) => StartKeepsAll(w, s, id, reached);
        case Arrive(id, hop, reached) => ArriveKeepsAll(w, s, id, hop, reached);
        case Lose(id, hop) => LoseKeepsAll(w, s, id, hop);
        case Redraw(v, id) => RedrawKeepsAll(w, s, v, id);
      }
    }
  }

  lemma {:induction false} RunKeepsInvariant(w: World, steps: seq<Step>)
    requires w.Valid()
    ensures Invariant(w, Run(w, steps))
    decreases |steps|
  {
    if steps == [] {
      forall id | id in w.ids ensures IdInv(w, id, ViewOf(Fresh(w), id)) {
        assert ViewOf(Fresh(w), id) == View({}, {}, NO_TRAIL);
      }
    } else {
      RunKeepsInvariant(w, steps[..|steps| - 1]);
      NextKeepsInvariant(w, Run(w, steps[..|steps| - 1]), steps[|steps| - 1]);
    }
  }

  // ---------------------------------------------------------------- generating an id

  function RunFrom(w: World, s: State, steps: seq<Step>): (r: State)
    requires w.Valid() && s.caches.Keys == w.graph.Keys && s.trails.Keys == w.ids
    ensures r.caches.Keys == w.graph.Keys && r.trails.Keys == w.ids
    decreases |steps|
  {
    if steps == [] then s else RunFrom(w, Next(w, s, steps[0]), steps[1..])
  }

  lemma {:induction false} RunGoesOn(w: World, steps: seq<Step>, more: seq<Step>)
    requires w.Valid()
    ensures RunFrom(w, Run(w, steps), more) == Run(w, steps + more)
    decreases |more|
  {
    hide Next;
    if more == [] {
      assert steps + more == steps;
    } else {
      assert (steps + [more[0]])[..|steps|] == steps;
      assert steps + [more[0]] + more[1..] == steps + more;
      RunGoesOn(w, steps + [more[0]], more[1..]);
    }
  }

  /** The steps by which `v` generates an id: one for each draw that is rejected because it was
      received, and the start with the first draw that is not. */
  function GenerateSteps(v: NodeId, c: Caches, limit: nat, draws: seq<FrameId>, reached: set<NodeId>): seq<Step>
    decreases |draws|
  {
    if draws == [] then []
    else if draws[0] in c.send then GenerateSteps(v, c, limit, draws[1..], reached)
    else if draws[0] in c.receive then
      [Redraw(v, draws[0])]
      + GenerateSteps(v, c.(send := Inserted(c.send, limit, draws[0])), limit, draws[1..], reached)
    else [Start(draws[0], reached)]
  }

  /** The caches of `v` once it has generated `id`, as `AsymmetricalFrameIdCache.Generate` leaves them. */
  function AfterGenerate(w: World, v: NodeId, c: Caches, id: FrameId, send: seq<FrameId>): Caches {
    Caches(Inserted(send, w.limit, id), if v in w.loopback then c.receive else Inserted(c.receive, w.limit, id))
  }

  lemma InsertTwice(cache: seq<FrameId>, limit: nat, id: FrameId)
    requires |cache| <= limit
    ensures Inserted(Inserted(cache, limit, id), limit, id) == Inserted(cache, limit, id)
  {
    InsertDropsOldest(cache, limit, id);
  }

  lemma FitsLimit(w: World, s: State, v: NodeId)
    requires w.Valid() && CachesFit(w, s) && v in s.caches
    ensures |s.caches[v].send| <= w.limit
  {
    DistinctSize(s.caches[v].send);
    SubsetSize(Elements(s.caches[v].send), w.ids);
  }

  /** These draws end with an id that `v` may start. */
  ghost predicate Drawable(w: World, s: State, v: NodeId, draws: seq<FrameId>)
    requires w.Valid() && v in s.caches && s.trails.Keys == w.ids
  {
    var g := Draw(s.caches[v], w.limit, draws);
    g.id.Some? && g.id.value in w.ids && w.origin[g.id.value] == v && !s.trails[g.id.value].started
  }

  ghost predicate Shaped(w: World, s: State) {
    w.Valid() && s.caches.Keys == w.graph.Keys && s.trails.Keys == w.ids
  }

  /** What the steps of generating leave. */
  ghost predicate Generates(w: World, s: State, v: NodeId, draws: seq<FrameId>, reached: set<NodeId>)
    requires Shaped(w, s) && v in w.graph && Drawable(w, s, v, draws)
  {
    var g, c := Draw(s.caches[v], w.limit, draws), s.caches[v];
    var id, r := g.id.value, RunFrom(w, s, GenerateSteps(v, c, w.limit, draws, reached));
    && r.caches == s.caches[v := AfterGenerate(w, v, c, id, g.send)]
    && r.trails == s.trails[id := Broadcast(s.trails[id].(started := true), v, reached)]
  }

  lemma SkipsKnown(w: World, s: State, v: NodeId, draws: seq<FrameId>, reached: set<NodeId>)
    requires Shaped(w, s) && v in w.graph && draws != [] && draws[0] in s.caches[v].send
    requires Drawable(w, s, v, draws)
    ensures Drawable(w, s, v, draws[1..])
    ensures Generates(w, s, v, draws[1..], reached) ==> Generates(w, s, v, draws, reached)
  {
    hide RunFrom;
  }

  lemma RejectsReceived(w: World, s: State, v: NodeId, draws: seq<FrameId>, reached: set<NodeId>)
    requires Shaped(w, s) && v in w.graph && draws != [] && draws[0] in w.ids
    requires draws[0] !in s.caches[v].send && draws[0] in s.caches[v].receive
    requires Drawable(w, s, v, draws)
    ensures var s1 := Next(w, s, Redraw(v, draws[0]));
            && Shaped(w, s1) && Drawable(w, s1, v, draws[1..])
            && (Generates(w, s1, v, draws[1..], reached) ==> Generates(w, s, v, draws, reached))
  {
    var c := s.caches[v];
    var s1 := Next(w, s, Redraw(v, draws[0]));
    assert s1 == s.(caches := s.caches[v := c.(send := Inserted(c.send, w.limit, draws[0]))]);
    OneStepThen(w, s, Redraw(v, draws[0]), GenerateSteps(v, s1.caches[v], w.limit, draws[1..], reached));
    hide RunFrom, Next;
  }

  lemma StartsFresh(w: World, s: State, v: NodeId, draws: seq<FrameId>, reached: set<NodeId>)
    requires Shaped(w, s) && CachesFit(w, s) && v in w.graph && draws != []
    requires draws[0] !in s.caches[v].send && draws[0] !in s.caches[v].receive
    requires Drawable(w, s, v, draws) && MayReach(w, v, {}, reached)
    ensures Generates(w, s, v, draws, reached)
  {
    var id := draws[0];
    FitsLimit(w, s, v);
    InsertTwice(s.caches[v].send, w.limit, id);
    OneStepThen(w, s, Start(id, reached), []);
    assert [Start(id, reached)] + [] == [Start(id, reached)];
    var r := Next(w, s, Start(id, reached));
    assert r == StartAt(w, s, id, reached);
    assert RunFrom(w, r, []) == r;
    hide RunFrom, Next, MayReach, CachesFit;
  }

  lemma {:induction false} GenerateRuns(w: World, s: State, v: NodeId, draws: seq<FrameId>, reached: set<NodeId>)
    requires Shaped(w, s) && CachesFit(w, s) && v in w.graph
    requires Elements(draws) <= w.ids && MayReach(w, v, {}, reached) && Drawable(w, s, v, draws)
    ensures Generates(w, s, v, draws, reached)
    decreases |draws|
  {
    hide Generates, MayReach, CachesFit, Next, Inserted;
    var c := s.caches[v];
    assert draws != [] && draws[0] in Elements(draws) && Elements(draws[1..]) <= Elements(draws);
    if draws[0] in c.send {
      SkipsKnown(w, s, v, draws, reached);
      GenerateRuns(w, s, v, draws[1..], reached);
    } else if draws[0] in c.receive {
      RejectsReceived(w, s, v, draws, reached);
      RedrawIsLocal(w, s, v, draws[0]);
      GenerateRuns(w, Next(w, s, Redraw(v, draws[0])), v, draws[1..], reached);
    } else {
      StartsFresh(w, s, v, draws, reached);
    }
  }

  lemma OneStepThen(w: World, s: State, step: Step, rest: seq<Step>)
    requires w.Valid() && s.caches.Keys == w.graph.Keys && s.trails.Keys == w.ids
    ensures RunFrom(w, s, [step] + rest) == RunFrom(w, Next(w, s, step), rest)
  {
    assert ([step] + rest)[1..] == rest;
  }

  /** A node that generates an id goes on with the run: the steps leave exactly what generating
      and sending leave, and the id cannot have been started before. */
  lemma GenerateIsARun(w: World, steps: seq<Step>, v: NodeId, draws: seq<FrameId>, reached: set<NodeId>)
    requires w.Valid() && v in w.graph && Elements(draws) <= w.ids && MayReach(w, v, {}, reached)
    requires var g := Draw(Run(w, steps).caches[v], w.limit, draws);
             g.id.Some? && g.id.value in w.ids && w.origin[g.id.value] == v
    ensures var s := Run(w, steps);
            var g, c := Draw(s.caches[v], w.limit, draws), s.caches[v];
            var id, r := g.id.value, Run(w, steps + GenerateSteps(v, c, w.limit, draws, reached));
            && !s.trails[id].started
            && r.caches == s.caches[v := AfterGenerate(w, v, c, id, g.send)]
            && r.trails == s.trails[id := Broadcast(s.trails[id].(started := true), v, reached)]
  {
    var s := Run(w, steps);
    var c := s.caches[v];
    var id := Draw(c, w.limit, draws).id.value;
    RunKeepsInvariant(w, steps);
    DrawsFreshIds(c, w.limit, draws, w.ids);
    assert IdInv(w, id, ViewOf(s, id)) && v !in ViewOf(s, id).sendAt;
    GenerateRuns(w, s, v, draws, reached);
    RunGoesOn(w, steps, GenerateSteps(v, c, w.limit, draws, reached));
  }

  // ---------------------------------------------------------------- the results

  /** In every run, with losses or without, any number of broadcasts at a time: each node
      delivers and sends each id at most once, so an id is transmitted at most as often as
      all nodes together have targets. */
  lemma AtMostOnce(w: World, steps: seq<Step>, id: FrameId, v: NodeId)
    requires w.Valid() && id in w.ids
    ensures var t := Run(w, steps).trails[id];
            t.delivered[v] <= 1 && t.sent[v] <= 1 && t.transmissions <= Weight(w, w.graph.Keys)
  {
    RunKeepsInvariant(w, steps);
    var x := ViewOf(Run(w, steps), id);
    assert IdInv(w, id, x);
    WeightGrows(w, Seen(w, id, x), w.graph.Keys);
  }

  /** How many steps a run has spent on an id: its start, arrivals and losses. */
  function Spent(t: Trail): nat {
    t.consumed + if t.started then 1 else 0
  }

  /** The flood of an id ends: a run spends a bounded number of steps on it, and the bound
      does not depend on the run. */
  lemma FloodsEnd(w: World, steps: seq<Step>, id: FrameId)
    requires w.Valid() && id in w.ids
    ensures Spent(Run(w, steps).trails[id]) + |Run(w, steps).trails[id].flight| <= 1 + Weight(w, w.graph.Keys)
  {
    RunKeepsInvariant(w, steps);
    var x := ViewOf(Run(w, steps), id);
    assert IdInv(w, id, x);
    WeightGrows(w, Seen(w, id, x), w.graph.Keys);
  }

  lemma QuietFloodIsComplete(w: World, id: FrameId, x: View, v: NodeId)
    requires w.Valid() && id in w.ids && Places(w, id, x) && Covers(w, id, x)
    requires x.trail.started && !x.trail.lost && x.trail.flight == multiset{}
    requires Reachable(w.graph, w.origin[id], v)
    ensures v in Seen(w, id, x) && (v in w.loopback ==> v in x.receivedAt)
  {
    var seen := Seen(w, id, x);
    var path :| IsPath(w.graph, w.origin[id], v, path);
    forall a, b | a in seen && LinkCost(w.graph, a, b).Some? && b in w.graph ensures b in seen {
      assert b in w.Targets(a);
      assert Settled(w, id, x, a, b);
    }
    StaysInside(w.graph, path, seen);
    if v in w.loopback {
      assert v in w.Targets(v);
      assert Settled(w, id, x, v, v);
    }
  }

  /** When no frame of an id is left in flight and none was lost, exactly the nodes connected
      to the origin have delivered it, once; the origin itself only over its loopback. */
  lemma EverybodyDelivers(w: World, steps: seq<Step>, id: FrameId, v: NodeId)
    requires w.Valid() && id in w.ids
    requires var t := Run(w, steps).trails[id]; t.started && !t.lost && t.flight == multiset{}
    ensures Run(w, steps).trails[id].delivered[v]
         == if Reachable(w.graph, w.origin[id], v) && Listens(w, id, v) then 1 else 0
  {
    RunKeepsInvariant(w, steps);
    var x := ViewOf(Run(w, steps), id);
    assert IdInv(w, id, x);
    if Reachable(w.graph, w.origin[id], v) {
      QuietFloodIsComplete(w, id, x, v);
    }
  }
}
