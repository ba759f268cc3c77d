/**
  `NetworkState` (ts-core/src/net/node/networkState.ts): every operation changes the graph as
  `Topology` says and returns updates that change any replica's graph the same way.
  Where the source walks a `Map`, the walk here is in an arbitrary order.
*/
module TopologyState {
  import opened Common
  import opened Topology

  /** The priority counter all instances share. */
  class PriorityCounter {
    var next: nat

    constructor ()
    {
      next := 0;
    }
  }

  /** Some order of a set's elements. */
  method OrderOf(ids: set<NodeId>) returns (order: seq<NodeId>)
    ensures Distinct(order) && Elements(order) == ids
  {
    order := [];
    var rest := ids;
    NoElements<NodeId>();
    hide Distinct, Elements;
    while rest != {}
      invariant Distinct(order) && rest !! Elements(order) && rest + Elements(order) == ids
      decreases |rest|
    {
      ghost var some := AnyOf(rest);
      var x :| x in rest;
      rest := rest - {x};
      OneMoreElement(order, x);
      order := order + [x];
    }
  }

  lemma NoElements<T>()
    ensures Distinct<T>([]) && Elements<T>([]) == {}
  {
  }

  lemma OneMoreElement<T>(order: seq<T>, x: T)
    requires Distinct(order) && x !in Elements(order)
    ensures Distinct(order + [x]) && Elements(order + [x]) == Elements(order) + {x}
  {
  }

  lemma NotYetListed(order: seq<NodeId>, i: nat)
    requires i < |order| && Distinct(order)
    ensures order[i] !in Elements(order[..i])
  {
  }

  lemma ElementsGrow(order: seq<NodeId>, i: nat)
    requires i < |order|
    ensures Elements(order[..i + 1]) == Elements(order[..i]) + {order[i]} <= Elements(order)
  {
    assert order[..i + 1] == order[..i] + [order[i]];
  }

  /** Once the nodes are listed, but no link. */
  lemma NodesListed(nodes: Nodes, updates: seq<Update>)
    requires ReplayAll(map[], updates) == Bare(GraphOf(nodes), nodes.Keys)
    requires forall i :: 0 <= i < |updates| ==> updates[i].NodeUpdated?
    ensures Listing(nodes, updates, StrongPairs(nodes, Elements([])))
  {
    BareIsUnlinked(GraphOf(nodes));
    assert StrongPairs(nodes, Elements([])) == {};
  }

  lemma ListingTells(nodes: Nodes, updates: seq<Update>, done: set<(NodeId, NodeId)>)
    requires Listing(nodes, updates, done)
    ensures ReplayAll(map[], updates) == Listed(GraphOf(nodes), done) && ListsOnce(updates)
  {
  }

  /** Replaying the updates leads from one graph to the other, and each of them is news. */
  ghost predicate Explains(before: Graph, updates: seq<Update>, after: Graph) {
    && ReplayAll(before, updates) == after
    && forall i :: 0 <= i < |updates| ==> IsNews(before, updates, i)
  }

  ghost predicate IsNews(before: Graph, updates: seq<Update>, i: nat)
    requires i < |updates|
  {
    ReplayAll(before, updates[..i + 1]) != ReplayAll(before, updates[..i])
  }

  lemma ExplainsNothing(g: Graph)
    ensures Explains(g, [], g)
  {
  }

  lemma ExplainsOne(g: Graph, u: Update)
    requires Replay(g, u) != g
    ensures Explains(g, [u], Replay(g, u))
  {
    ReplayOne(g, u);
    assert [u][..1] == [u] && [u][..0] == [];
  }

  lemma ExplainsThen(g: Graph, x: seq<Update>, h: Graph, y: seq<Update>, k: Graph)
    requires Explains(g, x, h) && Explains(h, y, k)
    ensures Explains(g, x + y, k)
  {
    hide ReplayAll;
    ReplayAppend(g, x, y);
    forall i | 0 <= i < |x + y| ensures IsNews(g, x + y, i) {
      if i < |x| {
        assert IsNews(g, x, i);
        assert (x + y)[..i] == x[..i] && (x + y)[..i + 1] == x[..i + 1];
      } else {
        var j := i - |x|;
        assert IsNews(h, y, j);
        assert (x + y)[..i] == x + y[..j] && (x + y)[..i + 1] == x + y[..j + 1];
        ReplayAppend(g, x, y[..j]);
        ReplayAppend(g, x, y[..j + 1]);
      }
    }
  }

  /** The updates remove the links between `source` and these nodes, and no others. */
  ghost predicate Unlinks(g: Graph, source: NodeId, ids: set<NodeId>, updates: seq<Update>) {
    && (forall u <- updates :: u.LinkRemoved? && u.sourceId == source && u.destinationId in ids)
    && (forall y :: LinkRemoved(source, y) in updates <==> y in ids && LinkCost(g, source, y).Some?)
  }

  ghost predicate UnlinksAll(g: Graph, source: NodeId, updates: seq<Update>) {
    && (forall u <- updates :: u.LinkRemoved? && u.sourceId == source)
    && (forall y :: LinkRemoved(source, y) in updates <==> LinkCost(g, source, y).Some?)
  }

  lemma UnlinksMore(g: Graph, source: NodeId, all: set<NodeId>, ids: set<NodeId>, id: NodeId, updates: seq<Update>)
    requires Unlinks(g, source, ids, updates) && forall y :: LinkCost(g, source, y).Some? ==> y in all
    ensures var more := if LinkCost(Restrict(g, source, all - ids), source, id).Some?
                        then [LinkRemoved(source, id)] else [];
            Unlinks(g, source, ids + {id}, updates + more)
  {
    RestrictCosts(g, source, all - ids);
  }

  lemma UnlinksAllOf(g: Graph, source: NodeId, ids: set<NodeId>, updates: seq<Update>)
    requires Unlinks(g, source, ids, updates) && forall y :: LinkCost(g, source, y).Some? ==> y in ids
    ensures UnlinksAll(g, source, updates)
  {
  }

  lemma NoLinksLeft(g: Graph, id: NodeId)
    ensures forall y :: LinkCost(Restrict(g, id, {}), id, y).None?
  {
    RestrictCosts(g, id, {});
  }

  lemma LinkExplained(nodes: Nodes, priorities: Priorities, a: NodeId, b: NodeId, cost: Cost)
    requires Stored(nodes, priorities) && a in nodes && b in nodes && Stronger(priorities, a, b)
    ensures var g := GraphOf(nodes);
            var u := LinkUpdated(PartialNode(a, nodes[a].attr), PartialNode(b, nodes[b].attr), cost);
            var known := StrongCost(nodes, a, b) == Some(cost);
            && Explains(g, if known then [] else [u], Connect(g, a, b, cost))
            && (known <==> Connect(g, a, b, cost) == g)
  {
    var g := GraphOf(nodes);
    StrongTells(nodes, priorities, a, b, cost);
    LearnOwn(g, a);
    LearnOwn(g, b);
    hide Connect;
    if StrongCost(nodes, a, b) == Some(cost) {
      ExplainsNothing(g);
    } else {
      ExplainsOne(g, LinkUpdated(PartialNode(a, nodes[a].attr), PartialNode(b, nodes[b].attr), cost));
    }
  }

  lemma IsolationExplained(g: Graph, updates: seq<Update>, h: Graph, id: NodeId)
    requires Explains(g, updates, h) && id in h
    ensures Explains(g, updates + [NodeRemoved(id)], Isolate(h, id))
  {
    assert id !in Isolate(h, id);
    ExplainsOne(h, NodeRemoved(id));
    ExplainsThen(g, updates, h, [NodeRemoved(id)], Isolate(h, id));
  }

  /** Every given field is what is known already. */
  predicate Knows(known: Attr, given: Attr) {
    (given.cluster.Some? ==> given.cluster == known.cluster) && (given.cost.Some? ==> given.cost == known.cost)
  }

  class NetworkState {
    var nodes: Nodes
    var priorities: Priorities
    const counter: PriorityCounter

    ghost predicate Valid()
      reads this, counter
    {
      && Stored(nodes, priorities)
      && (forall a <- priorities :: priorities[a] < counter.next)
      && (forall a, b :: a in priorities && b in priorities && a != b ==> priorities[a] != priorities[b])
    }

    function Graph(): Graph
      reads this
    {
      GraphOf(nodes)
    }

    constructor (counter: PriorityCounter)
      ensures Valid() && Graph() == map[] && this.counter == counter
    {
      this.counter := counter;
      nodes, priorities := map[], map[];
    }

    method GetOrUpdateNode(p: PartialNode) returns (updates: seq<Update>)
      requires Valid()
      modifies this
      ensures Valid() && priorities == old(priorities)
      ensures Graph() == Learn(old(Graph()), p) && Explains(old(Graph()), updates, Graph())
      ensures nodes.Keys == old(nodes).Keys + {p.id}
      ensures Learnt(AttrOf(old(Graph()), p.id), p.attr, nodes[p.id].attr)
      ensures if p.id in old(nodes)
        then nodes[p.id].strong == old(nodes)[p.id].strong && nodes[p.id].weak == old(nodes)[p.id].weak
        else nodes[p.id].Links() == map[]
      ensures forall x <- old(nodes) :: x != p.id ==> nodes[x] == old(nodes)[x]
      ensures updates == if p.id in old(nodes) && Knows(old(nodes)[p.id].attr, p.attr) then [] else [NodeUpdated(p)]
    {
      ghost var before := Graph();
      ExplainsNothing(before);
      if Learn(before, p) != before {
        ExplainsOne(before, NodeUpdated(p));
      }
      TouchLearns(nodes, priorities, p);
      LearnsNothing(Graph(), p);
      if p.id !in nodes {
        nodes := nodes[p.id := Node(p.attr, map[], map[])];
        return [NodeUpdated(p)];
      }
      var known := nodes[p.id].attr;
      var costUpdated := p.attr.cost.Some? && known.cost != p.attr.cost;
      var clusterUpdated := p.attr.cluster.Some? && known.cluster != p.attr.cluster;
      nodes := nodes[p.id := nodes[p.id].(attr := Merge(known, p.attr))];
      return if costUpdated || clusterUpdated then [NodeUpdated(p)] else [];
    }

    method UpdateNode(p: PartialNode) returns (updates: seq<Update>)
      requires Valid()
      modifies this
      ensures Valid()
      ensures Graph() == Learn(old(Graph()), p) && Explains(old(Graph()), updates, Graph())
      ensures Learnt(AttrOf(old(Graph()), p.id), p.attr, AttrOf(Graph(), p.id))
      ensures updates == if p.id in old(nodes) && Knows(old(nodes)[p.id].attr, p.attr) then [] else [NodeUpdated(p)]
    {
      updates := GetOrUpdateNode(p);
    }

    method Priority(id: NodeId) returns (p: nat)
      requires Valid()
      modifies this, counter
      ensures Valid() && nodes == old(nodes) && counter.next >= old(counter.next)
      ensures priorities == old(priorities)[id := p]
      ensures p == if id in old(priorities) then old(priorities)[id] else old(counter.next)
      ensures forall x <- old(priorities) :: x in priorities && priorities[x] == old(priorities)[x]
    {
      if id in priorities {
        return priorities[id];
      }
      p := counter.next;
      counter.next := counter.next + 1;
      priorities := priorities[id := p];
    }

    method Prioritize(a: NodeId, b: NodeId) returns (stronger: NodeId, weaker: NodeId)
      requires Valid()
      modifies this, counter
      ensures Valid() && nodes == old(nodes) && counter.next >= old(counter.next)
      ensures (stronger == a && weaker == b) || (stronger == b && weaker == a)
      ensures Stronger(priorities, stronger, weaker)
      ensures a != b ==> priorities[stronger] < priorities[weaker]
      ensures a != b && b !in old(priorities) ==> stronger == a
      ensures forall x <- old(priorities) :: x in priorities && priorities[x] == old(priorities)[x]
    {
      var p1 := Priority(a);
      var p2 := Priority(b);
      if p1 < p2 {
        return a, b;
      }
      return b, a;
    }

    /** Tells of the link between the two nodes, from its strong end and with all that is known. */
    predicate Tells(u: Update, a: NodeId, b: NodeId, cost: Cost)
      reads this
    {
      && u.LinkUpdated? && u.linkCost == cost
      && ((u.source.id == a && u.destination.id == b) || (u.source.id == b && u.destination.id == a))
      && u.source.id in nodes && nodes[u.source.id].attr == u.source.attr
      && u.destination.id in nodes && nodes[u.destination.id].attr == u.destination.attr
      && u.destination.id in nodes[u.source.id].strong
    }

    /** Stores a link between two known nodes and reports it if it is news. */
    method StoreLink(a: NodeId, b: NodeId, cost: Cost) returns (updates: seq<Update>)
      requires Valid() && a in nodes && b in nodes
      modifies this, counter
      ensures Valid() && counter.next >= old(counter.next)
      ensures Graph() == Connect(old(Graph()), a, b, cost) && Explains(old(Graph()), updates, Graph())
      ensures updates == [] <==> Graph() == old(Graph())
      ensures |updates| <= 1 && forall u <- updates :: Tells(u, a, b, cost)
    {
      var s, w := Prioritize(a, b);
      ghost var g := Graph();
      ConnectCommutes(g, a, b, cost);
      LinkExplained(nodes, priorities, s, w, cost);
      hide Explains, Stored, GraphOf, Connect;
      StoreLinkConnects(nodes, priorities, s, w, cost);
      var news := StrongCost(nodes, s, w) != Some(cost);
      var source, destination := PartialNode(s, nodes[s].attr), PartialNode(w, nodes[w].attr);
      nodes := Strengthen(nodes, s, w, cost);
      nodes := Weaken(nodes, w, s, cost);
      return if news then [LinkUpdated(source, destination, cost)] else [];
    }

    method UpdateLink(p: PartialNode, q: PartialNode, cost: Cost) returns (updates: seq<Update>)
      requires Valid()
      modifies this, counter
      ensures Valid() && counter.next >= old(counter.next)
      ensures Graph() == LearnLink(old(Graph()), p, q, cost) && Explains(old(Graph()), updates, Graph())
    {
      var n1 := GetOrUpdateNode(p);
      ghost var g1 := Graph();
      var n2 := GetOrUpdateNode(q);
      ghost var g2 := Graph();
      ExplainsThen(old(Graph()), n1, g1, n2, g2);
      assert p.id in Graph() && q.id in Graph();
      var n3 := StoreLink(p.id, q.id, cost);
      ExplainsThen(old(Graph()), n1 + n2, g2, n3, Graph());
      updates := n1 + n2 + n3;
    }

    method RemoveLink(a: NodeId, b: NodeId) returns (updates: seq<Update>)
      requires Valid()
      modifies this
      ensures Valid() && priorities == old(priorities) && nodes.Keys == old(nodes).Keys
      ensures Graph() == Disconnect(old(Graph()), a, b) && Explains(old(Graph()), updates, Graph())
      ensures updates == if LinkCost(old(Graph()), a, b).Some? then [LinkRemoved(a, b)] else []
    {
      StoredOnce(nodes, priorities);
      ExplainsNothing(Graph());
      if a !in nodes || b !in nodes {
        DisconnectNothing(Graph(), a, b);
        return [];
      }
      ghost var g := Graph();
      UnlinkDisconnects(nodes, priorities, a, b);
      nodes := nodes[b := Drop(nodes[b], a)];
      var removed := b in nodes[a].strong || b in nodes[a].weak;
      nodes := nodes[a := Drop(nodes[a], b)];
      DisconnectCosts(g, a, b);
      GraphCost(old(nodes), a, b);
      assert StrongCost(old(nodes), a, b) == WeakCost(old(nodes), b, a);
      if removed {
        assert LinkCost(g, a, b).Some? && LinkCost(Disconnect(g, a, b), a, b).None?;
        ExplainsOne(g, LinkRemoved(a, b));
        return [LinkRemoved(a, b)];
      }
      assert LinkCost(g, a, b) == LinkCost(g, b, a);
      DisconnectNothing(g, a, b);
      return [];
    }

    function NeighborsOf(id: NodeId): set<NodeId>
      requires id in nodes
      reads this
    {
      nodes[id].strong.Keys + nodes[id].weak.Keys
    }

    /** Removes the links from `source` to the given neighbours, one after the other. */
    method RemoveLinks(source: NodeId, order: seq<NodeId>, ghost all: set<NodeId>) returns (updates: seq<Update>)
      requires Valid() && source in nodes
      requires forall y :: LinkCost(Graph(), source, y).Some? ==> y in all
      modifies this
      ensures Valid() && priorities == old(priorities) && nodes.Keys == old(nodes).Keys
      ensures Graph() == Restrict(old(Graph()), source, all - Elements(order))
      ensures Explains(old(Graph()), updates, Graph())
      ensures Unlinks(old(Graph()), source, Elements(order), updates)
    {
      updates := [];
      StoredOnce(nodes, priorities);
      ExplainsNothing(Graph());
      RestrictAll(Graph(), source, all);
      assert all - Elements(order[..0]) == all && Elements(order[..0]) == {};
      hide Restrict, Stored, Disconnect, GraphOf, ReplayAll;
      for i := 0 to |order|
        invariant Valid() && priorities == old(priorities) && nodes.Keys == old(nodes).Keys
        invariant Graph() == Restrict(old(Graph()), source, all - Elements(order[..i]))
        invariant Explains(old(Graph()), updates, Graph())
        invariant Unlinks(old(Graph()), source, Elements(order[..i]), updates)
      {
        ghost var g := Graph();
        RestrictLess(old(Graph()), source, all - Elements(order[..i]), order[i]);
        ElementsGrow(order, i);
        assert (all - Elements(order[..i])) - {order[i]} == all - Elements(order[..i + 1]);
        var u := RemoveLink(source, order[i]);
        UnlinksMore(old(Graph()), source, all, Elements(order[..i]), order[i], updates);
        ExplainsThen(old(Graph()), updates, g, u, Graph());
        updates := updates + u;
      }
      assert order[..|order|] == order;
    }

    method SyncLink(source: NodeId, links: seq<Neighbor>) returns (updates: seq<Update>)
      requires Valid()
      modifies this, counter
      ensures Valid() && counter.next >= old(counter.next)
      ensures Graph() == Sync(old(Graph()), source, links) && Explains(old(Graph()), updates, Graph())
    {
      updates := GetOrUpdateNode(PartialNode(source, NO_ATTR));
      ghost var g := Graph();
      assert source in g;
      hide Explains, Learnt, Stored;
      for i := 0 to |links|
        invariant Valid() && counter.next >= old(counter.next)
        invariant Graph() == LearnLinks(g, source, links[..i]) && source in nodes
        invariant Explains(old(Graph()), updates, Graph())
      {
        ghost var h := Graph();
        LearnOwnEmpty(h, source);
        assert links[..i + 1][..i] == links[..i];
        var n1 := GetOrUpdateNode(PartialNode(links[i].id, NO_ATTR));
        ghost var k := Graph();
        assert source in k && links[i].id in k;
        var n2 := StoreLink(source, links[i].id, links[i].linkCost);
        assert source in Graph();
        ExplainsThen(h, n1, k, n2, Graph());
        ExplainsThen(old(Graph()), updates, h, n1 + n2, Graph());
        updates := updates + (n1 + n2);
      }
      assert links[..|links|] == links;
      ghost var h := Graph();
      var all := NeighborsOf(source);
      var order := OrderOf(all - Ids(links));
      forall y | LinkCost(h, source, y).Some? ensures y in all + Ids(links) {
        GraphCost(nodes, source, y);
      }
      var n3 := RemoveLinks(source, order, all + Ids(links));
      assert (all + Ids(links)) - (all - Ids(links)) == Ids(links);
      ExplainsThen(old(Graph()), updates, h, n3, Graph());
      updates := updates + n3;
    }

    method RemoveNode(id: NodeId) returns (updates: seq<Update>)
      requires Valid()
      modifies this
      ensures Valid() && priorities == old(priorities)
      ensures Graph() == Isolate(old(Graph()), id) && Explains(old(Graph()), updates, Graph())
      ensures id !in old(nodes) ==> updates == []
      ensures id in old(nodes) ==>
                && updates != [] && updates[|updates| - 1] == NodeRemoved(id)
                && UnlinksAll(old(Graph()), id, updates[..|updates| - 1])
    {
      hide Explains, Unlinks;
      ghost var g := Graph();
      if id !in nodes {
        IsolateNothing(nodes, priorities, id);
        ExplainsNothing(g);
        return [];
      }
      var all := NeighborsOf(id);
      var order := OrderOf(all);
      NeighborsAreLinked(id);
      updates := RemoveLinks(id, order, all);
      assert all - all == {};
      UnlinksAllOf(g, id, all, updates);
      hide UnlinksAll, LinkCost;
      ghost var h := Graph();
      IsolateIsRestrict(g, id);
      NoLinksLeft(g, id);
      RemoveIsolated(nodes, priorities, id);
      nodes := nodes - {id};
      IsolationExplained(g, updates, h, id);
      updates := updates + [NodeRemoved(id)];
    }

    lemma NeighborsAreLinked(id: NodeId)
      requires id in nodes
      ensures forall y :: LinkCost(Graph(), id, y).Some? <==> y in NeighborsOf(id)
    {
      forall y ensures LinkCost(Graph(), id, y).Some? <==> y in NeighborsOf(id) {
        GraphCost(nodes, id, y);
      }
    }

    /** Breadth-first search.  The queue holds known nodes only. */
    method GetUnreachableNodes(initial: NodeId) returns (unvisited: set<NodeId>)
      requires Valid()
      ensures initial !in nodes ==> unvisited == {}
      ensures initial in nodes ==> unvisited == Unreachable(Graph(), initial)
    {
      if initial !in nodes {
        return {};
      }
      ghost var g := Graph();
      unvisited := nodes.Keys - {initial};
      var queue := [initial];
      StoredOnce(nodes, priorities);
      Trivially(g, initial);
      assert Searching(g, initial, unvisited, queue);
      while |queue| > 0
        invariant Searching(g, initial, unvisited, queue)
        decreases unvisited, |queue|
      {
        var current := queue[0];
        assert current in queue && current in g;
        ghost var waiting, before := queue, unvisited;
        queue := queue[1..];
        var neighbors := NeighborsOf(current) * unvisited;
        forall y ensures y in neighbors <==> y in unvisited && LinkCost(g, current, y).Some? {
          GraphCost(nodes, current, y);
        }
        var order := OrderOf(neighbors);
        for i := 0 to |order|
          invariant queue == waiting[1..] + order[..i] && unvisited == before - Elements(order[..i])
        {
          unvisited := unvisited - {order[i]};
          queue := queue + [order[i]];
          assert order[..i + 1] == order[..i] + [order[i]];
        }
        assert order[..|order|] == order;
        VisitNeighbors(g, initial, before, waiting, order);
        assert neighbors == {} ==> unvisited == before && order == [] && |queue| < |waiting| by {
          if order != [] { assert order[0] in neighbors; }
        }
        assert neighbors != {} ==> unvisited < before;
      }
      SearchEnds(g, initial, unvisited);
    }

    method RemoveNodes(order: seq<NodeId>) returns (updates: seq<Update>)
      requires Valid()
      modifies this
      ensures Valid() && priorities == old(priorities)
      ensures Graph() == WithoutAll(old(Graph()), Elements(order)) && Explains(old(Graph()), updates, Graph())
    {
      updates := [];
      ExplainsNothing(Graph());
      WithoutNone(Graph());
      assert Elements(order[..0]) == {};
      for i := 0 to |order|
        invariant Valid() && priorities == old(priorities)
        invariant Graph() == WithoutAll(old(Graph()), Elements(order[..i])) && Explains(old(Graph()), updates, Graph())
      {
        ghost var h := Graph();
        WithoutOneMore(old(Graph()), Elements(order[..i]), order[i]);
        assert order[..i + 1] == order[..i] + [order[i]];
        assert Elements(order[..i + 1]) == Elements(order[..i]) + {order[i]};
        var u := RemoveNode(order[i]);
        ExplainsThen(old(Graph()), updates, h, u, Graph());
        updates := updates + u;
      }
      assert order[..|order|] == order;
    }

    /** What observers do with the search: every unreachable node is removed. */
    method RemoveUnreachable(initial: NodeId) returns (updates: seq<Update>)
      requires Valid() && initial in nodes
      modifies this
      ensures Valid()
      ensures Graph() == Component(old(Graph()), initial) && Explains(old(Graph()), updates, Graph())
      ensures forall x <- Graph() :: Reachable(Graph(), initial, x)
    {
      StoredOnce(nodes, priorities);
      ComponentIsWhatRemains(Graph(), initial);
      ComponentStaysReachable(Graph(), initial);
      var gone := GetUnreachableNodes(initial);
      var order := OrderOf(gone);
      updates := RemoveNodes(order);
    }

    method DumpNodes(order: seq<NodeId>) returns (updates: seq<Update>)
      requires forall id <- order :: id in nodes
      ensures ReplayAll(map[], updates) == Bare(Graph(), Elements(order)) && |updates| == |order|
      ensures forall i :: 0 <= i < |updates| ==> updates[i].NodeUpdated?
    {
      updates := [];
      for i := 0 to |order|
        invariant ReplayAll(map[], updates) == Bare(Graph(), Elements(order[..i])) && |updates| == i
        invariant forall i :: 0 <= i < |updates| ==> updates[i].NodeUpdated?
      {
        var id := order[i];
        BareGrows(Graph(), Elements(order[..i]), id);
        assert order[..i + 1] == order[..i] + [id];
        assert Elements(order[..i + 1]) == Elements(order[..i]) + {id};
        ghost var before := updates;
        updates := updates + [NodeUpdated(PartialNode(id, nodes[id].attr))];
        assert updates[..|updates| - 1] == before;
      }
      assert order[..|order|] == order;
    }

    /** Tells of a link from its strong end, with all that is known. */
    predicate FromStrongEnd(u: Update)
      reads this
    {
      && u.LinkUpdated? && u.source.id in nodes && u.destination.id in nodes[u.source.id].strong
      && nodes[u.source.id].strong[u.destination.id] == u.linkCost
      && nodes[u.source.id].attr == u.source.attr
      && u.destination.id in nodes && nodes[u.destination.id].attr == u.destination.attr
    }

    /** The list goes on with links, each told of from its strong end. */
    ghost predicate GoesOn(listed: seq<Update>, updates: seq<Update>)
      reads this
    {
      listed <= updates && forall u <- updates[|listed|..] :: FromStrongEnd(u)
    }

    lemma GoesOnFurther(x: seq<Update>, y: seq<Update>, z: seq<Update>)
      requires GoesOn(x, y) && GoesOn(y, z)
      ensures GoesOn(x, z)
    {
      assert z[|x|..] == y[|x|..] + z[|y|..];
    }

    /** Lists the strong links of one node after those already `done`. */
    method DumpLinks(id: NodeId, listed: seq<Update>, ghost done: set<(NodeId, NodeId)>) returns (updates: seq<Update>)
      requires Valid() && id in nodes && Listing(nodes, listed, done)
      requires done <= StrongPairs(nodes, nodes.Keys - {id})
      ensures Listing(nodes, updates, done + StrongPairs(nodes, {id}))
      ensures GoesOn(listed, updates)
    {
      updates := listed;
      var targets := OrderOf(nodes[id].strong.Keys);
      assert done + PairsFrom(id, Elements(targets[..0])) == done;
      PairsOfOne(nodes, id);
      for j := 0 to |targets|
        invariant Listing(nodes, updates, done + PairsFrom(id, Elements(targets[..j])))
        invariant GoesOn(listed, updates)
      {
        var target := targets[j];
        NotYetListed(targets, j);
        ListTarget(nodes, priorities, updates, done, id, targets, j);
        updates := updates + [LinkUpdated(PartialNode(id, nodes[id].attr), PartialNode(target, nodes[target].attr),
                                          nodes[id].strong[target])];
      }
      assert targets[..|targets|] == targets;
    }

    /** Every node, then every link once, from its strong end. */
    method DumpAsUpdates() returns (updates: seq<Update>)
      requires Valid()
      ensures ReplayAll(map[], updates) == Graph()
      ensures ListsOnce(updates) && |nodes| <= |updates|
      ensures (forall u <- updates[..|nodes|] :: u.NodeUpdated?) && GoesOn(updates[..|nodes|], updates)
    {
      var order := OrderOf(nodes.Keys);
      assert forall id <- order :: id in Elements(order);
      DistinctSize(order);
      hide StrongPairs, Listing, ReplayAll, ListsOnce, Distinct, Stored, GoesOn, GraphOf, Bare;
      updates := DumpNodes(order);
      NodesListed(nodes, updates);
      ghost var listed := updates;
      NothingMore(listed);
      for i := 0 to |order|
        invariant Listing(nodes, updates, StrongPairs(nodes, Elements(order[..i])))
        invariant GoesOn(listed, updates)
      {
        NotYetListed(order, i);
        ElementsGrow(order, i);
        NodesPairsGrow(nodes, Elements(order[..i]), order[i]);
        ghost var before := updates;
        updates := DumpLinks(order[i], updates, StrongPairs(nodes, Elements(order[..i])));
        GoesOnFurther(listed, before, updates);
      }
      assert order[..|order|] == order;
      AllListed(nodes, priorities, StrongPairs(nodes, nodes.Keys));
      ListingTells(nodes, updates, StrongPairs(nodes, nodes.Keys));
      NodesThenLinks(listed, updates);
    }

    lemma NothingMore(listed: seq<Update>)
      ensures GoesOn(listed, listed)
    {
    }

    lemma NodesThenLinks(listed: seq<Update>, updates: seq<Update>)
      requires GoesOn(listed, updates)
      ensures |listed| <= |updates| && updates[..|listed|] == listed
    {
    }

    method ApplyUpdates(news: seq<Update>) returns (updates: seq<Update>)
      requires Valid()
      modifies this, counter
      ensures Valid() && counter.next >= old(counter.next)
      ensures Graph() == ReplayAll(old(Graph()), news) && Explains(old(Graph()), updates, Graph())
    {
      hide Stored, GraphOf, Learn, LearnLink, Isolate, Disconnect;
      ExplainsNothing(Graph());
      updates := [];
      for i := 0 to |news|
        invariant Valid() && counter.next >= old(counter.next)
        invariant Graph() == ReplayAll(old(Graph()), news[..i])
        invariant Explains(old(Graph()), updates, Graph())
      {
        ghost var g := Graph();
        assert news[..i + 1][..i] == news[..i];
        var u: seq<Update>;
        match news[i] {
          case NodeUpdated(p) => u := UpdateNode(p);
          case NodeRemoved(id) => u := RemoveNode(id);
          case LinkUpdated(p, q, cost) => u := UpdateLink(p, q, cost);
          case LinkRemoved(a, b) => u := RemoveLink(a, b);
        }
        ExplainsThen(old(Graph()), updates, g, u, Graph());
        updates := updates + u;
      }
      assert news[..|news|] == news;
    }
  }

  // ---------------------------------------------------------------- replication

  datatype Operation =
    | UpdateNode(node: PartialNode)
    | UpdateLink(source: PartialNode, destination: PartialNode, cost: Cost)
    | RemoveLink(a: NodeId, b: NodeId)
    | SyncLink(id: NodeId, links: seq<Neighbor>)
    | RemoveNode(gone: NodeId)

  function Effect(g: Graph, op: Operation): Graph {
    match op
    case UpdateNode(p) => Learn(g, p)
    case UpdateLink(p, q, cost) => LearnLink(g, p, q, cost)
    case RemoveLink(a, b) => Disconnect(g, a, b)
    case SyncLink(id, links) => Sync(g, id, links)
    case RemoveNode(id) => Isolate(g, id)
  }

  function EffectAll(g: Graph, ops: seq<Operation>): Graph {
    if ops == [] then g else Effect(EffectAll(g, ops[..|ops| - 1]), ops[|ops| - 1])
  }

  method Perform(state: NetworkState, op: Operation) returns (updates: seq<Update>)
    requires state.Valid()
    modifies state, state.counter
    ensures state.Valid() && state.counter.next >= old(state.counter.next)
    ensures state.Graph() == Effect(old(state.Graph()), op)
    ensures Explains(old(state.Graph()), updates, state.Graph())
  {
    match op {
      case UpdateNode(p) => updates := state.UpdateNode(p);
      case UpdateLink(p, q, cost) => updates := state.UpdateLink(p, q, cost);
      case RemoveLink(a, b) => updates := state.RemoveLink(a, b);
      case SyncLink(id, links) => updates := state.SyncLink(id, links);
      case RemoveNode(id) => updates := state.RemoveNode(id);
    }
  }

  /** A replica that starts with the same graph and applies every returned update list has
      the same graph after any operations, whichever ends its own table calls strong. */
  method Mirror(primary: NetworkState, replica: NetworkState, ops: seq<Operation>)
    requires primary != replica && primary.Valid() && replica.Valid()
    requires primary.Graph() == replica.Graph()
    modifies primary, primary.counter, replica, replica.counter
    ensures primary.Valid() && replica.Valid()
    ensures primary.Graph() == replica.Graph() == EffectAll(old(primary.Graph()), ops)
  {
    for i := 0 to |ops|
      invariant primary.Valid() && replica.Valid()
      invariant primary.Graph() == replica.Graph() == EffectAll(old(primary.Graph()), ops[..i])
    {
      assert ops[..i + 1][..i] == ops[..i];
      var updates := Perform(primary, ops[i]);
      var _ := replica.ApplyUpdates(updates);
    }
    assert ops[..|ops|] == ops;
  }
}
