/**
  The topology as an undirected graph with costs, the updates replicas exchange, and the
  two-sided storage of links (ts-core/src/net/node/networkState.ts).  `TopologyState` holds
  the mutable object.
*/
module Topology {
  import opened Common

  /** Only compared: the model needs no more than distinct keys. */
  type NodeId = int
  type Cost = nat

  datatype Attr = Attr(cluster: Option<nat>, cost: Option<Cost>)
  datatype PartialNode = PartialNode(id: NodeId, attr: Attr)

  const NO_ATTR := Attr(None, None)

  datatype Update =
    | NodeUpdated(node: PartialNode)
    | NodeRemoved(id: NodeId)
    | LinkUpdated(source: PartialNode, destination: PartialNode, linkCost: Cost)
    | LinkRemoved(sourceId: NodeId, destinationId: NodeId)

  // ---------------------------------------------------------------- the graph

  datatype Vertex = Vertex(attr: Attr, links: map<NodeId, Cost>)
  type Graph = map<NodeId, Vertex>

  function LinkCost(g: Graph, a: NodeId, b: NodeId): Option<Cost> {
    if a in g && b in g[a].links then Some(g[a].links[b]) else None
  }

  /** Every link is seen from both ends, at the same cost. */
  ghost predicate Undirected(g: Graph) {
    forall a, b :: LinkCost(g, a, b) == LinkCost(g, b, a)
  }

  ghost predicate SameAttrs(g: Graph, h: Graph) {
    g.Keys == h.Keys && forall x <- g :: g[x].attr == h[x].attr
  }

  lemma SameGraph(g: Graph, h: Graph)
    requires SameAttrs(g, h)
    requires forall x, y :: LinkCost(g, x, y) == LinkCost(h, x, y)
    ensures g == h
  {
    forall x | x in g ensures g[x] == h[x] {
      forall y ensures y in g[x].links <==> y in h[x].links
               ensures y in g[x].links ==> g[x].links[y] == h[x].links[y] {
        assert LinkCost(g, x, y) == LinkCost(h, x, y);
      }
      assert g[x].links == h[x].links;
    }
  }

  /** Known fields win, missing fields keep what was known. */
  function Merge(known: Attr, news: Attr): Attr {
    Attr(if news.cluster.Some? then news.cluster else known.cluster,
         if news.cost.Some? then news.cost else known.cost)
  }

  function Learn(g: Graph, p: PartialNode): Graph {
    var v := if p.id in g then g[p.id] else Vertex(NO_ATTR, map[]);
    g[p.id := v.(attr := Merge(v.attr, p.attr))]
  }

  function Half(g: Graph, a: NodeId, b: NodeId, cost: Cost): Graph
    requires a in g
  {
    g[a := g[a].(links := g[a].links[b := cost])]
  }

  function Connect(g: Graph, a: NodeId, b: NodeId, cost: Cost): Graph
    requires a in g && b in g
  {
    Half(Half(g, a, b, cost), b, a, cost)
  }

  lemma ConnectCosts(g: Graph, a: NodeId, b: NodeId, cost: Cost)
    requires a in g && b in g
    ensures var h := Connect(g, a, b, cost);
            && SameAttrs(g, h)
            && forall x, y :: LinkCost(h, x, y)
                           == if (x == a && y == b) || (x == b && y == a) then Some(cost) else LinkCost(g, x, y)
  {
  }

  function Without(links: map<NodeId, Cost>, drop: bool, id: NodeId): map<NodeId, Cost> {
    if drop then links - {id} else links
  }

  function Disconnect(g: Graph, a: NodeId, b: NodeId): Graph {
    map x | x in g :: g[x].(links := Without(Without(g[x].links, x == a, b), x == b, a))
  }

  lemma DisconnectCosts(g: Graph, a: NodeId, b: NodeId)
    ensures var h := Disconnect(g, a, b);
            && SameAttrs(g, h)
            && forall x, y :: LinkCost(h, x, y)
                           == if (x == a && y == b) || (x == b && y == a) then None else LinkCost(g, x, y)
  {
  }

  function Isolate(g: Graph, id: NodeId): Graph {
    map x | x in g && x != id :: g[x].(links := g[x].links - {id})
  }

  function LearnLink(g: Graph, p: PartialNode, q: PartialNode, cost: Cost): Graph {
    Connect(Learn(Learn(g, p), q), p.id, q.id, cost)
  }

  datatype Neighbor = Neighbor(id: NodeId, linkCost: Cost)

  function LearnLinks(g: Graph, source: NodeId, links: seq<Neighbor>): Graph {
    if links == [] then g
    else
      var last := links[|links| - 1];
      LearnLink(LearnLinks(g, source, links[..|links| - 1]),
                PartialNode(source, NO_ATTR), PartialNode(last.id, NO_ATTR), last.linkCost)
  }

  function Ids(links: seq<Neighbor>): set<NodeId> {
    set l <- links :: l.id
  }

  /** `source` keeps links to nobody but `kept`. */
  function Restrict(g: Graph, source: NodeId, kept: set<NodeId>): Graph {
    map x | x in g ::
      g[x].(links := map y | y in g[x].links && (x != source || y in kept) && (y != source || x in kept) ::
                       g[x].links[y])
  }

  /** The source's own report of its links replaces what was known of them. */
  function Sync(g: Graph, source: NodeId, links: seq<Neighbor>): Graph {
    Restrict(LearnLinks(Learn(g, PartialNode(source, NO_ATTR)), source, links), source, Ids(links))
  }

  function Replay(g: Graph, u: Update): Graph {
    match u
    case NodeUpdated(p) => Learn(g, p)
    case NodeRemoved(id) => Isolate(g, id)
    case LinkUpdated(p, q, cost) => LearnLink(g, p, q, cost)
    case LinkRemoved(a, b) => Disconnect(g, a, b)
  }

  function ReplayAll(g: Graph, updates: seq<Update>): Graph {
    if updates == [] then g else Replay(ReplayAll(g, updates[..|updates| - 1]), updates[|updates| - 1])
  }

  lemma {:induction false} ReplayAppend(g: Graph, x: seq<Update>, y: seq<Update>)
    ensures ReplayAll(g, x + y) == ReplayAll(ReplayAll(g, x), y)
    decreases |y|
  {
    if y == [] {
      assert x + y == x;
    } else {
      ReplayAppend(g, x, y[..|y| - 1]);
      assert (x + y)[..|x + y| - 1] == x + y[..|y| - 1];
    }
  }

  lemma ReplayOne(g: Graph, u: Update)
    ensures ReplayAll(g, [u]) == Replay(g, u)
  {
    assert ReplayAll(g, [u][..0]) == g;
  }

  // ---------------------------------------------------------------- the stored form

  /** Each link is kept twice: strong at the end with the smaller priority, weak at the other. */
  datatype Node = Node(attr: Attr, strong: map<NodeId, Cost>, weak: map<NodeId, Cost>) {
    function Links(): map<NodeId, Cost> { strong + weak }
  }

  type Nodes = map<NodeId, Node>
  type Priorities = map<NodeId, nat>

  function GraphOf(nodes: Nodes): Graph {
    map a | a in nodes :: Vertex(nodes[a].attr, nodes[a].Links())
  }

  function StrongCost(nodes: Nodes, a: NodeId, b: NodeId): Option<Cost> {
    if a in nodes && b in nodes[a].strong then Some(nodes[a].strong[b]) else None
  }

  function WeakCost(nodes: Nodes, a: NodeId, b: NodeId): Option<Cost> {
    if a in nodes && b in nodes[a].weak then Some(nodes[a].weak[b]) else None
  }

  /** `a` is the strong end of a link to `b`; of a link to itself it is both ends. */
  predicate Stronger(priorities: Priorities, a: NodeId, b: NodeId) {
    a in priorities && b in priorities && (a == b || priorities[a] < priorities[b])
  }

  ghost predicate Stored(nodes: Nodes, priorities: Priorities) {
    && (forall a, b :: StrongCost(nodes, a, b) == WeakCost(nodes, b, a))
    && (forall a, b :: StrongCost(nodes, a, b).Some? ==> Stronger(priorities, a, b))
  }

  lemma GraphCost(nodes: Nodes, a: NodeId, b: NodeId)
    ensures LinkCost(GraphOf(nodes), a, b)
         == if WeakCost(nodes, a, b).Some? then WeakCost(nodes, a, b) else StrongCost(nodes, a, b)
  {
  }

  /** A link is stored strong at exactly one end and weak at the other, no target is missing,
      and the graph it stands for is undirected. */
  lemma StoredOnce(nodes: Nodes, priorities: Priorities)
    requires Stored(nodes, priorities)
    ensures Undirected(GraphOf(nodes))
    ensures forall a, b :: LinkCost(GraphOf(nodes), a, b).Some? ==>
              && a in nodes && b in nodes
              && (a != b ==> (StrongCost(nodes, a, b).Some? <==> StrongCost(nodes, b, a).None?))
              && (a != b ==> (StrongCost(nodes, a, b).Some? <==> WeakCost(nodes, a, b).None?))
  {
    forall a, b ensures LinkCost(GraphOf(nodes), a, b) == LinkCost(GraphOf(nodes), b, a) {
      GraphCost(nodes, a, b);
      GraphCost(nodes, b, a);
      assert StrongCost(nodes, a, b) == WeakCost(nodes, b, a);
      assert StrongCost(nodes, b, a) == WeakCost(nodes, a, b);
    }
    forall a, b | LinkCost(GraphOf(nodes), a, b).Some?
      ensures a in nodes && b in nodes
      ensures a != b ==> (StrongCost(nodes, a, b).Some? <==> StrongCost(nodes, b, a).None?)
      ensures a != b ==> (StrongCost(nodes, a, b).Some? <==> WeakCost(nodes, a, b).None?)
    {
      GraphCost(nodes, a, b);
      assert StrongCost(nodes, a, b) == WeakCost(nodes, b, a);
      assert StrongCost(nodes, b, a) == WeakCost(nodes, a, b);
    }
  }

  function Strengthen(nodes: Nodes, a: NodeId, b: NodeId, cost: Cost): Nodes
    requires a in nodes
  {
    nodes[a := nodes[a].(strong := nodes[a].strong[b := cost])]
  }

  function Weaken(nodes: Nodes, a: NodeId, b: NodeId, cost: Cost): Nodes
    requires a in nodes
  {
    nodes[a := nodes[a].(weak := nodes[a].weak[b := cost])]
  }

  function StoreLink(nodes: Nodes, a: NodeId, b: NodeId, cost: Cost): Nodes
    requires a in nodes && b in nodes
  {
    Weaken(Strengthen(nodes, a, b, cost), b, a, cost)
  }

  lemma StrengthenCosts(nodes: Nodes, a: NodeId, b: NodeId, cost: Cost)
    requires a in nodes
    ensures var nodes' := Strengthen(nodes, a, b, cost);
            && SameAttrs(GraphOf(nodes), GraphOf(nodes'))
            && (forall x, y :: StrongCost(nodes', x, y)
                            == if x == a && y == b then Some(cost) else StrongCost(nodes, x, y))
            && (forall x, y :: WeakCost(nodes', x, y) == WeakCost(nodes, x, y))
  {
  }

  lemma WeakenCosts(nodes: Nodes, a: NodeId, b: NodeId, cost: Cost)
    requires a in nodes
    ensures var nodes' := Weaken(nodes, a, b, cost);
            && SameAttrs(GraphOf(nodes), GraphOf(nodes'))
            && (forall x, y :: StrongCost(nodes', x, y) == StrongCost(nodes, x, y))
            && (forall x, y :: WeakCost(nodes', x, y) == if x == a && y == b then Some(cost) else WeakCost(nodes, x, y))
  {
  }

  lemma StoreLinkCosts(nodes: Nodes, a: NodeId, b: NodeId, cost: Cost)
    requires a in nodes && b in nodes
    ensures var nodes' := StoreLink(nodes, a, b, cost);
            && SameAttrs(GraphOf(nodes), GraphOf(nodes'))
            && (forall x, y :: StrongCost(nodes', x, y)
                            == if x == a && y == b then Some(cost) else StrongCost(nodes, x, y))
            && (forall x, y :: WeakCost(nodes', x, y) == if x == b && y == a then Some(cost) else WeakCost(nodes, x, y))
  {
    StrengthenCosts(nodes, a, b, cost);
    WeakenCosts(Strengthen(nodes, a, b, cost), b, a, cost);
  }

  lemma StoreLinkConnects(nodes: Nodes, priorities: Priorities, a: NodeId, b: NodeId, cost: Cost)
    requires Stored(nodes, priorities) && a in nodes && b in nodes && Stronger(priorities, a, b)
    ensures var nodes' := StoreLink(nodes, a, b, cost);
            Stored(nodes', priorities) && GraphOf(nodes') == Connect(GraphOf(nodes), a, b, cost)
  {
    var nodes' := StoreLink(nodes, a, b, cost);
    StoreLinkCosts(nodes, a, b, cost);
    ConnectCosts(GraphOf(nodes), a, b, cost);
    forall x, y ensures LinkCost(GraphOf(nodes'), x, y) == LinkCost(Connect(GraphOf(nodes), a, b, cost), x, y) {
      GraphCost(nodes, x, y);
      GraphCost(nodes', x, y);
      assert StrongCost(nodes, x, y) == WeakCost(nodes, y, x);
      assert StrongCost(nodes, y, x) == WeakCost(nodes, x, y);
    }
    SameGraph(GraphOf(nodes'), Connect(GraphOf(nodes), a, b, cost));
  }

  /** The strong end alone decides whether the link is news. */
  lemma StrongTells(nodes: Nodes, priorities: Priorities, a: NodeId, b: NodeId, cost: Cost)
    requires Stored(nodes, priorities) && a in nodes && b in nodes && Stronger(priorities, a, b)
    ensures StrongCost(nodes, a, b) == Some(cost) <==> Connect(GraphOf(nodes), a, b, cost) == GraphOf(nodes)
  {
    var g := GraphOf(nodes);
    var h := Connect(g, a, b, cost);
    ConnectCosts(g, a, b, cost);
    StoredOnce(nodes, priorities);
    GraphCost(nodes, a, b);
    assert StrongCost(nodes, b, a) == WeakCost(nodes, a, b);
    if StrongCost(nodes, a, b) == Some(cost) {
      assert LinkCost(g, a, b) == LinkCost(g, b, a) == Some(cost);
      SameGraph(h, g);
    } else {
      assert LinkCost(h, a, b) == Some(cost);
    }
  }

  lemma ConnectCommutes(g: Graph, a: NodeId, b: NodeId, cost: Cost)
    requires a in g && b in g
    ensures Connect(g, a, b, cost) == Connect(g, b, a, cost)
  {
    ConnectCosts(g, a, b, cost);
    ConnectCosts(g, b, a, cost);
    SameGraph(Connect(g, a, b, cost), Connect(g, b, a, cost));
  }

  /** `removeLink` of one node: the weak table is looked at only if the strong one had nothing. */
  function Drop(n: Node, id: NodeId): Node {
    if id in n.strong then n.(strong := n.strong - {id}) else n.(weak := n.weak - {id})
  }

  function Unlink(nodes: Nodes, a: NodeId, b: NodeId): Nodes
    requires a in nodes && b in nodes
  {
    var nodes1 := nodes[b := Drop(nodes[b], a)];
    nodes1[a := Drop(nodes1[a], b)]
  }

  lemma DropCosts(nodes: Nodes, a: NodeId, id: NodeId)
    requires a in nodes
    ensures var nodes' := nodes[a := Drop(nodes[a], id)];
            && SameAttrs(GraphOf(nodes), GraphOf(nodes'))
            && (forall x, y :: StrongCost(nodes', x, y) == if x == a && y == id then None else StrongCost(nodes, x, y))
            && (forall x, y :: WeakCost(nodes', x, y)
                            == if x == a && y == id && StrongCost(nodes, a, id).None? then None
                               else WeakCost(nodes, x, y))
  {
  }

  lemma UnlinkCosts(nodes: Nodes, priorities: Priorities, a: NodeId, b: NodeId)
    requires Stored(nodes, priorities) && a in nodes && b in nodes
    ensures var nodes' := Unlink(nodes, a, b);
            && SameAttrs(GraphOf(nodes), GraphOf(nodes'))
            && (forall x, y :: StrongCost(nodes', x, y)
                            == if (x == a && y == b) || (x == b && y == a) then None else StrongCost(nodes, x, y))
            && (forall x, y :: WeakCost(nodes', x, y)
                            == if (x == a && y == b) || (x == b && y == a) then None else WeakCost(nodes, x, y))
  {
    assert StrongCost(nodes, a, b) == WeakCost(nodes, b, a);
    assert StrongCost(nodes, b, a) == WeakCost(nodes, a, b);
    DropCosts(nodes, b, a);
    DropCosts(nodes[b := Drop(nodes[b], a)], a, b);
  }

  lemma UnlinkDisconnects(nodes: Nodes, priorities: Priorities, a: NodeId, b: NodeId)
    requires Stored(nodes, priorities) && a in nodes && b in nodes
    ensures Stored(Unlink(nodes, a, b), priorities)
    ensures GraphOf(Unlink(nodes, a, b)) == Disconnect(GraphOf(nodes), a, b)
  {
    var nodes' := Unlink(nodes, a, b);
    UnlinkCosts(nodes, priorities, a, b);
    DisconnectCosts(GraphOf(nodes), a, b);
    forall x, y ensures LinkCost(GraphOf(nodes'), x, y) == LinkCost(Disconnect(GraphOf(nodes), a, b), x, y) {
      GraphCost(nodes, x, y);
      GraphCost(nodes', x, y);
    }
    SameGraph(GraphOf(nodes'), Disconnect(GraphOf(nodes), a, b));
  }

  // ---------------------------------------------------------------- laws of the graph

  lemma LearnCosts(g: Graph, p: PartialNode)
    ensures forall x, y :: LinkCost(Learn(g, p), x, y) == LinkCost(g, x, y)
  {
  }

  lemma LearnOwn(g: Graph, id: NodeId)
    requires id in g
    ensures Learn(g, PartialNode(id, g[id].attr)) == g
  {
  }

  lemma DisconnectNothing(g: Graph, a: NodeId, b: NodeId)
    requires LinkCost(g, a, b).None? && LinkCost(g, b, a).None?
    ensures Disconnect(g, a, b) == g
  {
    DisconnectCosts(g, a, b);
    SameGraph(Disconnect(g, a, b), g);
  }

  lemma RestrictCosts(g: Graph, source: NodeId, kept: set<NodeId>)
    ensures var h := Restrict(g, source, kept);
            && SameAttrs(g, h)
            && forall x, y :: LinkCost(h, x, y)
                           == if (x != source || y in kept) && (y != source || x in kept) then LinkCost(g, x, y)
                              else None
  {
  }

  lemma RestrictAll(g: Graph, source: NodeId, kept: set<NodeId>)
    requires Undirected(g) && forall y :: LinkCost(g, source, y).Some? ==> y in kept
    ensures Restrict(g, source, kept) == g
  {
    RestrictCosts(g, source, kept);
    forall x, y ensures LinkCost(Restrict(g, source, kept), x, y) == LinkCost(g, x, y) {
      assert LinkCost(g, x, y) == LinkCost(g, y, x);
    }
    SameGraph(Restrict(g, source, kept), g);
  }

  lemma RestrictLess(g: Graph, source: NodeId, kept: set<NodeId>, id: NodeId)
    ensures Disconnect(Restrict(g, source, kept), source, id) == Restrict(g, source, kept - {id})
  {
    RestrictCosts(g, source, kept);
    RestrictCosts(g, source, kept - {id});
    DisconnectCosts(Restrict(g, source, kept), source, id);
    SameGraph(Disconnect(Restrict(g, source, kept), source, id), Restrict(g, source, kept - {id}));
  }

  lemma IsolateIsRestrict(g: Graph, id: NodeId)
    ensures Isolate(Restrict(g, id, {}), id) == Isolate(g, id)
    ensures Isolate(g, id) == Restrict(g, id, {}) - {id}
  {
    RestrictCosts(g, id, {});
    var h := Restrict(g, id, {});
    forall x | x in g && x != id ensures h[x].links == g[x].links - {id} && h[x].links - {id} == h[x].links {
      forall y ensures y in h[x].links <==> y in g[x].links && y != id
               ensures y in h[x].links ==> h[x].links[y] == g[x].links[y] {
        assert LinkCost(h, x, y) == if y != id then LinkCost(g, x, y) else None;
      }
    }
  }

  // ---------------------------------------------------------------- getting or updating a node

  function Touch(nodes: Nodes, p: PartialNode): Nodes {
    nodes[p.id := if p.id in nodes then nodes[p.id].(attr := Merge(nodes[p.id].attr, p.attr))
                  else Node(p.attr, map[], map[])]
  }

  lemma TouchLearns(nodes: Nodes, priorities: Priorities, p: PartialNode)
    requires Stored(nodes, priorities)
    ensures Stored(Touch(nodes, p), priorities)
    ensures GraphOf(Touch(nodes, p)) == Learn(GraphOf(nodes), p)
  {
    var nodes' := Touch(nodes, p);
    assert forall a, b :: StrongCost(nodes', a, b) == StrongCost(nodes, a, b);
    assert forall a, b :: WeakCost(nodes', a, b) == WeakCost(nodes, a, b);
  }

  /** Learning changes nothing exactly if the node is known and so is every given field. */
  lemma LearnsNothing(g: Graph, p: PartialNode)
    ensures Learn(g, p) == g <==> p.id in g && Merge(g[p.id].attr, p.attr) == g[p.id].attr
  {
    if p.id in g && Merge(g[p.id].attr, p.attr) == g[p.id].attr {
      assert Learn(g, p)[p.id] == g[p.id];
    }
  }

  lemma LearnOwnEmpty(g: Graph, id: NodeId)
    requires id in g
    ensures Learn(g, PartialNode(id, NO_ATTR)) == g
  {
    LearnsNothing(g, PartialNode(id, NO_ATTR));
  }

  lemma IsolateNothing(nodes: Nodes, priorities: Priorities, id: NodeId)
    requires Stored(nodes, priorities) && id !in nodes
    ensures Isolate(GraphOf(nodes), id) == GraphOf(nodes)
  {
    StoredOnce(nodes, priorities);
    var g := GraphOf(nodes);
    forall x | x in g ensures g[x].links - {id} == g[x].links {
      assert LinkCost(g, x, id).None?;
    }
  }

  /** A node without links can be taken out. */
  lemma RemoveIsolated(nodes: Nodes, priorities: Priorities, id: NodeId)
    requires Stored(nodes, priorities) && id in nodes
    requires forall y :: LinkCost(GraphOf(nodes), id, y).None?
    ensures Stored(nodes - {id}, priorities)
    ensures GraphOf(nodes - {id}) == GraphOf(nodes) - {id}
    ensures Isolate(GraphOf(nodes), id) == GraphOf(nodes) - {id}
  {
    var nodes' := nodes - {id};
    var g := GraphOf(nodes);
    StoredOnce(nodes, priorities);
    forall a, b
      ensures StrongCost(nodes', a, b) == StrongCost(nodes, a, b) && WeakCost(nodes', a, b) == WeakCost(nodes, a, b)
    {
      if a == id {
        assert LinkCost(g, a, b).None?;
        GraphCost(nodes, a, b);
      }
    }
    forall x | x in g ensures g[x].links - {id} == g[x].links {
      assert LinkCost(g, x, id) == LinkCost(g, id, x);
    }
  }

  // ---------------------------------------------------------------- reachability

  ghost predicate IsPath(g: Graph, a: NodeId, b: NodeId, path: seq<NodeId>) {
    && path != [] && path[0] == a && path[|path| - 1] == b && a in g
    && forall i :: 0 < i < |path| ==> LinkCost(g, path[i - 1], path[i]).Some? && path[i] in g
  }

  ghost predicate Reachable(g: Graph, a: NodeId, b: NodeId) {
    exists path :: IsPath(g, a, b, path)
  }

  ghost function Unreachable(g: Graph, a: NodeId): set<NodeId> {
    set x | x in g && !Reachable(g, a, x)
  }

  lemma Trivially(g: Graph, a: NodeId)
    requires a in g
    ensures Reachable(g, a, a)
  {
    assert IsPath(g, a, a, [a]);
  }

  lemma OneFurther(g: Graph, a: NodeId, b: NodeId, c: NodeId)
    requires Reachable(g, a, b) && LinkCost(g, b, c).Some? && c in g
    ensures Reachable(g, a, c)
  {
    var path :| IsPath(g, a, b, path);
    assert IsPath(g, a, c, path + [c]);
  }

  /** A path that starts in a set closed under links never leaves it. */
  lemma {:induction false} StaysInside(g: Graph, path: seq<NodeId>, inside: set<NodeId>)
    requires path != [] && path[0] in inside
    requires forall i :: 0 < i < |path| ==> LinkCost(g, path[i - 1], path[i]).Some? && path[i] in g
    requires forall x, y :: x in inside && LinkCost(g, x, y).Some? && y in g ==> y in inside
    ensures path[|path| - 1] in inside
    decreases |path|
  {
    var n := |path| - 1;
    if n > 0 {
      StaysInside(g, path[..n], inside);
      assert path[n - 1] == path[..n][n - 1];
    }
  }

  /** All visited nodes are reachable, and those no longer queued have only visited neighbours. */
  ghost predicate Searching(g: Graph, initial: NodeId, unvisited: set<NodeId>, queue: seq<NodeId>) {
    && Undirected(g)
    && unvisited <= g.Keys && initial in g && initial !in unvisited
    && (forall x <- queue :: x in g && x !in unvisited)
    && (forall x :: x in g && x !in unvisited ==> Reachable(g, initial, x))
    && (forall x, y :: x in g && x !in unvisited && x !in queue && LinkCost(g, x, y).Some? ==> y !in unvisited)
  }

  lemma VisitNeighbors(g: Graph, initial: NodeId, unvisited: set<NodeId>, queue: seq<NodeId>, order: seq<NodeId>)
    requires Searching(g, initial, unvisited, queue) && queue != []
    requires forall y :: y in Elements(order) <==> y in unvisited && LinkCost(g, queue[0], y).Some?
    ensures Searching(g, initial, unvisited - Elements(order), queue[1..] + order)
  {
    var rest, queue' := unvisited - Elements(order), queue[1..] + order;
    forall x | x in g && x !in rest ensures Reachable(g, initial, x) {
      if x in unvisited {
        OneFurther(g, initial, queue[0], x);
      }
    }
    forall x | x in queue' ensures x in g && x !in rest {
      if x in order { assert x in Elements(order); }
    }
    forall x, y | x in g && x !in rest && x !in queue' && LinkCost(g, x, y).Some? ensures y !in rest {
      if x in queue {
        assert x == queue[0];
      }
    }
  }

  lemma SearchEnds(g: Graph, initial: NodeId, unvisited: set<NodeId>)
    requires Searching(g, initial, unvisited, [])
    ensures unvisited == Unreachable(g, initial)
  {
    forall x | x in unvisited ensures !Reachable(g, initial, x) {
      if Reachable(g, initial, x) {
        var path :| IsPath(g, initial, x, path);
        StaysInside(g, path, g.Keys - unvisited);
        assert false;
      }
    }
  }

  function WithoutAll(g: Graph, gone: set<NodeId>): Graph {
    map x | x in g && x !in gone :: g[x].(links := g[x].links - gone)
  }

  lemma WithoutNone(g: Graph)
    ensures WithoutAll(g, {}) == g
  {
    assert forall x <- g :: g[x].links - {} == g[x].links;
  }

  lemma WithoutOneMore(g: Graph, gone: set<NodeId>, id: NodeId)
    ensures Isolate(WithoutAll(g, gone), id) == WithoutAll(g, gone + {id})
  {
    forall x | x in g ensures g[x].links - gone - {id} == g[x].links - (gone + {id}) {}
  }

  /** The nodes reachable from `initial`, as they are. */
  ghost function Component(g: Graph, initial: NodeId): Graph {
    map x | x in g && Reachable(g, initial, x) :: g[x]
  }

  lemma ComponentIsWhatRemains(g: Graph, initial: NodeId)
    requires Undirected(g) && initial in g
    ensures WithoutAll(g, Unreachable(g, initial)) == Component(g, initial)
  {
    var gone := Unreachable(g, initial);
    forall x | x in g && Reachable(g, initial, x) ensures g[x].links - gone == g[x].links {
      forall y | y in g[x].links ensures y !in gone {
        assert LinkCost(g, x, y).Some?;
        assert LinkCost(g, y, x).Some?;
        OneFurther(g, initial, x, y);
      }
    }
  }

  lemma {:induction false} PathInComponent(g: Graph, initial: NodeId, x: NodeId, path: seq<NodeId>)
    requires IsPath(g, initial, x, path)
    ensures IsPath(Component(g, initial), initial, x, path)
    decreases |path|
  {
    Trivially(g, initial);
    var n := |path| - 1;
    if n > 0 {
      PathInComponent(g, initial, path[n - 1], path[..n]);
      assert IsPath(g, initial, x, path);
      assert Reachable(g, initial, x);
      var h := Component(g, initial);
      forall i | 0 < i < |path| ensures LinkCost(h, path[i - 1], path[i]).Some? && path[i] in h {
        if i < n {
          assert path[..n][i - 1] == path[i - 1] && path[..n][i] == path[i];
        } else {
          assert path[..n][n - 1] == path[n - 1];
        }
      }
    }
  }

  lemma ComponentStaysReachable(g: Graph, initial: NodeId)
    ensures forall x <- Component(g, initial) :: Reachable(Component(g, initial), initial, x)
  {
    forall x | x in Component(g, initial) ensures Reachable(Component(g, initial), initial, x) {
      var path :| IsPath(g, initial, x, path);
      PathInComponent(g, initial, x, path);
    }
  }

  // ---------------------------------------------------------------- dumping

  /** Both list the link between the same two nodes, in whatever direction. */
  predicate SameLink(u: Update, v: Update) {
    && u.LinkUpdated? && v.LinkUpdated?
    && ((u.source.id == v.source.id && u.destination.id == v.destination.id)
        || (u.source.id == v.destination.id && u.destination.id == v.source.id))
  }

  ghost predicate ListsOnce(updates: seq<Update>) {
    forall i, j :: 0 <= i < j < |updates| ==> !SameLink(updates[i], updates[j])
  }

  function Bare(g: Graph, ids: set<NodeId>): Graph {
    map x | x in g && x in ids :: Vertex(g[x].attr, map[])
  }

  lemma BareGrows(g: Graph, ids: set<NodeId>, id: NodeId)
    requires id in g
    ensures Learn(Bare(g, ids), PartialNode(id, g[id].attr)) == Bare(g, ids + {id})
  {
  }

  /** The part of the graph whose links have been listed. */
  function Listed(g: Graph, done: set<(NodeId, NodeId)>): Graph {
    map x | x in g :: Vertex(g[x].attr, map y | y in g[x].links && ((x, y) in done || (y, x) in done) :: g[x].links[y])
  }

  lemma BareIsUnlinked(g: Graph)
    ensures Bare(g, g.Keys) == Listed(g, {})
  {
  }

  lemma ListedCosts(g: Graph, done: set<(NodeId, NodeId)>)
    ensures var h := Listed(g, done);
            && SameAttrs(g, h)
            && forall x, y :: LinkCost(h, x, y) == if (x, y) in done || (y, x) in done then LinkCost(g, x, y) else None
  {
  }

  ghost function StrongPairs(nodes: Nodes, ids: set<NodeId>): set<(NodeId, NodeId)> {
    set a, b | a in nodes && a in ids && b in nodes[a].strong :: (a, b)
  }

  ghost predicate Listing(nodes: Nodes, updates: seq<Update>, done: set<(NodeId, NodeId)>) {
    && ReplayAll(map[], updates) == Listed(GraphOf(nodes), done)
    && ListsOnce(updates)
    && forall i :: 0 <= i < |updates| ==>
         updates[i].LinkUpdated? ==> (updates[i].source.id, updates[i].destination.id) in done
  }

  /** The update that lists the link from its strong end. */
  function Listing1(nodes: Nodes, a: NodeId, b: NodeId): Update
    requires a in nodes && b in nodes && b in nodes[a].strong
  {
    LinkUpdated(PartialNode(a, nodes[a].attr), PartialNode(b, nodes[b].attr), nodes[a].strong[b])
  }

  ghost function PairsFrom(id: NodeId, targets: set<NodeId>): set<(NodeId, NodeId)> {
    set t <- targets :: (id, t)
  }

  lemma PairsOfOne(nodes: Nodes, id: NodeId)
    requires id in nodes
    ensures StrongPairs(nodes, {id}) == PairsFrom(id, nodes[id].strong.Keys)
  {
  }

  lemma ReplayListsOneMore(nodes: Nodes, priorities: Priorities, done: set<(NodeId, NodeId)>, a: NodeId, b: NodeId)
    requires Stored(nodes, priorities) && a in nodes && b in nodes && b in nodes[a].strong
    ensures Replay(Listed(GraphOf(nodes), done), Listing1(nodes, a, b)) == Listed(GraphOf(nodes), done + {(a, b)})
  {
    var g, cost := GraphOf(nodes), nodes[a].strong[b];
    LearnOwn(Listed(g, done), a);
    LearnOwn(Listed(g, done), b);
    assert StrongCost(nodes, a, b) == WeakCost(nodes, b, a);
    GraphCost(nodes, b, a);
    StoredOnce(nodes, priorities);
    ConnectListed(g, done, a, b, cost);
  }

  lemma ConnectListed(g: Graph, done: set<(NodeId, NodeId)>, a: NodeId, b: NodeId, cost: Cost)
    requires a in g && b in g && LinkCost(g, a, b) == LinkCost(g, b, a) == Some(cost)
    ensures Connect(Listed(g, done), a, b, cost) == Listed(g, done + {(a, b)})
  {
    ConnectCosts(Listed(g, done), a, b, cost);
    ListedCosts(g, done);
    ListedCosts(g, done + {(a, b)});
    SameGraph(Connect(Listed(g, done), a, b, cost), Listed(g, done + {(a, b)}));
  }

  lemma ListOneMore(nodes: Nodes, priorities: Priorities, updates: seq<Update>, done: set<(NodeId, NodeId)>,
                    a: NodeId, b: NodeId)
    requires Stored(nodes, priorities) && Listing(nodes, updates, done)
    requires done <= StrongPairs(nodes, nodes.Keys)
    requires a in nodes && b in nodes && b in nodes[a].strong && (a, b) !in done
    ensures Listing(nodes, updates + [Listing1(nodes, a, b)], done + {(a, b)})
  {
    ReplayListsOneMore(nodes, priorities, done, a, b);
    var all := updates + [Listing1(nodes, a, b)];
    assert all[..|updates|] == updates;
    assert a != b ==> (b, a) !in done by {
      assert StrongCost(nodes, a, b).Some? ==> Stronger(priorities, a, b);
      assert StrongCost(nodes, b, a).Some? ==> Stronger(priorities, b, a);
    }
  }

  lemma PairsGrow(id: NodeId, done: set<(NodeId, NodeId)>, targets: set<NodeId>, target: NodeId)
    ensures done + PairsFrom(id, targets) + {(id, target)} == done + PairsFrom(id, targets + {target})
  {
  }

  /** What is done so far, of the links of other nodes and of `id`, is part of all that is to do. */
  lemma PairsWithin(nodes: Nodes, id: NodeId, done: set<(NodeId, NodeId)>, targets: set<NodeId>, target: NodeId)
    requires id in nodes && targets <= nodes[id].strong.Keys && target !in targets
    requires done <= StrongPairs(nodes, nodes.Keys - {id})
    ensures done + PairsFrom(id, targets) <= StrongPairs(nodes, nodes.Keys)
    ensures (id, target) !in done + PairsFrom(id, targets)
  {
  }

  /** One step of listing the strong links of `id`. */
  lemma ListTarget(nodes: Nodes, priorities: Priorities, updates: seq<Update>, done: set<(NodeId, NodeId)>,
                   id: NodeId, targets: seq<NodeId>, j: nat)
    requires Stored(nodes, priorities) && id in nodes && Elements(targets) == nodes[id].strong.Keys
    requires j < |targets| && targets[j] !in Elements(targets[..j])
    requires done <= StrongPairs(nodes, nodes.Keys - {id})
    requires Listing(nodes, updates, done + PairsFrom(id, Elements(targets[..j])))
    ensures targets[j] in nodes && targets[j] in nodes[id].strong
    ensures Listing(nodes, updates + [Listing1(nodes, id, targets[j])],
                    done + PairsFrom(id, Elements(targets[..j + 1])))
  {
    var target, before := targets[j], Elements(targets[..j]);
    assert target in Elements(targets);
    assert StrongCost(nodes, id, target) == WeakCost(nodes, target, id);
    assert before <= Elements(targets);
    assert Elements(targets[..j + 1]) == before + {target} by {
      assert targets[..j + 1] == targets[..j] + [target];
    }
    hide Listing, Stored, StrongPairs, PairsFrom, Elements;
    PairsWithin(nodes, id, done, before, target);
    ListOneMore(nodes, priorities, updates, done + PairsFrom(id, before), id, target);
    PairsGrow(id, done, before, target);
  }

  lemma NodesPairsGrow(nodes: Nodes, ids: set<NodeId>, id: NodeId)
    ensures StrongPairs(nodes, ids + {id}) == StrongPairs(nodes, ids) + StrongPairs(nodes, {id})
    ensures id !in ids && ids <= nodes.Keys ==> StrongPairs(nodes, ids) <= StrongPairs(nodes, nodes.Keys - {id})
  {
  }

  lemma AllListed(nodes: Nodes, priorities: Priorities, done: set<(NodeId, NodeId)>)
    requires Stored(nodes, priorities)
    requires done == StrongPairs(nodes, nodes.Keys)
    ensures Listed(GraphOf(nodes), done) == GraphOf(nodes)
  {
    var g := GraphOf(nodes);
    ListedCosts(g, done);
    forall x, y ensures LinkCost(Listed(g, done), x, y) == LinkCost(g, x, y) {
      GraphCost(nodes, x, y);
      assert StrongCost(nodes, x, y).Some? <==> (x, y) in done;
      assert StrongCost(nodes, y, x).Some? <==> (y, x) in done;
      assert StrongCost(nodes, y, x) == WeakCost(nodes, x, y);
    }
    SameGraph(Listed(g, done), g);
  }

  // ---------------------------------------------------------------- what an update means

  /** The attributes known of a node; none of one that is not there. */
  function AttrOf(g: Graph, id: NodeId): Attr {
    if id in g then g[id].attr else Attr(None, None)
  }

  /** Given fields are taken over, missing ones stay as they were. */
  predicate Learnt(before: Attr, given: Attr, after: Attr) {
    && (given.cluster.Some? ==> after.cluster == given.cluster)
    && (given.cluster.None? ==> after.cluster == before.cluster)
    && (given.cost.Some? ==> after.cost == given.cost)
    && (given.cost.None? ==> after.cost == before.cost)
  }

  ghost predicate OthersStay(g: Graph, h: Graph, changed: set<NodeId>) {
    forall x <- g :: x !in changed ==> x in h && h[x].attr == g[x].attr
  }

  /** The links but those between the two nodes are the same. */
  ghost predicate LinksStay(g: Graph, h: Graph, a: NodeId, b: NodeId) {
    forall x, y :: !((x == a && y == b) || (x == b && y == a)) ==> LinkCost(h, x, y) == LinkCost(g, x, y)
  }

  /** A node update: the given fields of that node, and nothing else, are what they are given as. */
  lemma NodeUpdateMeans(g: Graph, p: PartialNode)
    ensures var h := Replay(g, NodeUpdated(p));
            && h.Keys == g.Keys + {p.id}
            && Learnt(AttrOf(g, p.id), p.attr, h[p.id].attr)
            && h[p.id].links == (if p.id in g then g[p.id].links else map[])
            && forall x <- g :: x != p.id ==> h[x] == g[x]
  {
  }

  /** A node removal takes the node and, at every other node, the link to it. */
  lemma NodeRemovalMeans(g: Graph, id: NodeId)
    ensures var h := Replay(g, NodeRemoved(id));
            && h.Keys == g.Keys - {id}
            && (forall x <- h :: h[x].attr == g[x].attr && h[x].links.Keys == g[x].links.Keys - {id})
            && forall x <- h, y <- h[x].links :: h[x].links[y] == g[x].links[y]
  {
  }

  /** A link update: both nodes are learnt, one after the other, and the link has its cost at both
      ends. */
  lemma LinkUpdateMeans(g: Graph, p: PartialNode, q: PartialNode, cost: Cost)
    ensures var h := Replay(g, LinkUpdated(p, q, cost));
            && h.Keys == g.Keys + {p.id, q.id}
            && (p.id != q.id ==> Learnt(AttrOf(g, p.id), p.attr, h[p.id].attr)
                                 && Learnt(AttrOf(g, q.id), q.attr, h[q.id].attr))
            && (p.id == q.id ==> exists between :: && Learnt(AttrOf(g, p.id), p.attr, between)
                                                   && Learnt(between, q.attr, h[q.id].attr))
            && OthersStay(g, h, {p.id, q.id})
            && q.id in h[p.id].links && h[p.id].links[q.id] == cost
            && p.id in h[q.id].links && h[q.id].links[p.id] == cost
            && LinksStay(g, h, p.id, q.id)
  {
    var g1 := Learn(g, p);
    var g2 := Learn(g1, q);
    LearnCosts(g, p);
    LearnCosts(g1, q);
    ConnectCosts(g2, p.id, q.id, cost);
    if p.id == q.id {
      assert Learnt(AttrOf(g, p.id), p.attr, g1[p.id].attr);
      assert Learnt(g1[p.id].attr, q.attr, g2[q.id].attr);
    }
  }

  /** A link removal takes that link from both ends. */
  lemma LinkRemovalMeans(g: Graph, a: NodeId, b: NodeId)
    ensures var h := Replay(g, LinkRemoved(a, b));
            && h.Keys == g.Keys && OthersStay(g, h, {})
            && (a in h ==> b !in h[a].links) && (b in h ==> a !in h[b].links)
            && LinksStay(g, h, a, b)
  {
    DisconnectCosts(g, a, b);
  }

  // ---------------------------------------------------------------- what a report means

  /** The cost a report gives a neighbour: the last entry wins. */
  function LastCost(links: seq<Neighbor>, id: NodeId): Option<Cost> {
    if links == [] then None
    else
      var last := links[|links| - 1];
      if last.id == id then Some(last.linkCost) else LastCost(links[..|links| - 1], id)
  }

  lemma {:induction false} LearnLinksCosts(g: Graph, source: NodeId, links: seq<Neighbor>, x: NodeId, y: NodeId)
    ensures LinkCost(LearnLinks(g, source, links), x, y)
         == if x == source && LastCost(links, y).Some? then LastCost(links, y)
            else if y == source && LastCost(links, x).Some? then LastCost(links, x)
            else LinkCost(g, x, y)
    decreases |links|
  {
    if links != [] {
      var n := |links| - 1;
      var h := LearnLinks(g, source, links[..n]);
      var p, q := PartialNode(source, NO_ATTR), PartialNode(links[n].id, NO_ATTR);
      LearnLinksCosts(g, source, links[..n], x, y);
      LearnCosts(h, p);
      LearnCosts(Learn(h, p), q);
      ConnectCosts(Learn(Learn(h, p), q), p.id, q.id, links[n].linkCost);
    }
  }

  lemma {:induction false} LastCostIsListed(links: seq<Neighbor>, id: NodeId)
    ensures LastCost(links, id).Some? <==> id in Ids(links)
    decreases |links|
  {
    if links != [] {
      var n := |links| - 1;
      LastCostIsListed(links[..n], id);
      assert links == links[..n] + [links[n]];
    }
  }

  lemma {:induction false} LearnLinksNodes(g: Graph, source: NodeId, links: seq<Neighbor>)
    requires source in g
    ensures var h := LearnLinks(g, source, links);
            && h.Keys == g.Keys + Ids(links) && forall x <- h :: h[x].attr == AttrOf(g, x)
    decreases |links|
  {
    if links != [] {
      var n := |links| - 1;
      LearnLinksNodes(g, source, links[..n]);
      assert links == links[..n] + [links[n]];
      assert Ids(links) == Ids(links[..n]) + {links[n].id};
    }
  }

  /** A report makes the source and the reported nodes known, without any attributes. */
  lemma SyncKeepsAttributes(g: Graph, source: NodeId, links: seq<Neighbor>)
    ensures var h := Sync(g, source, links);
            && h.Keys == g.Keys + {source} + Ids(links) && forall x <- h :: h[x].attr == AttrOf(g, x)
  {
    var g1 := Learn(g, PartialNode(source, NO_ATTR));
    LearnLinksNodes(g1, source, links);
    RestrictCosts(LearnLinks(g1, source, links), source, Ids(links));
    assert forall x :: AttrOf(g1, x) == AttrOf(g, x);
  }

  /** After a report the source's links are the reported ones, from both ends; every other
      link is as it was. */
  lemma SyncIsTheReport(g: Graph, source: NodeId, links: seq<Neighbor>, x: NodeId, y: NodeId)
    ensures LinkCost(Sync(g, source, links), x, y)
         == if x == source then LastCost(links, y) else if y == source then LastCost(links, x) else LinkCost(g, x, y)
  {
    var g1 := Learn(g, PartialNode(source, NO_ATTR));
    LearnCosts(g, PartialNode(source, NO_ATTR));
    LearnLinksCosts(g1, source, links, x, y);
    RestrictCosts(LearnLinks(g1, source, links), source, Ids(links));
    LastCostIsListed(links, x);
    LastCostIsListed(links, y);
  }
}
