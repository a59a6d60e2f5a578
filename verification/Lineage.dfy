/**
 Data lineage: a directed graph of pipeline stages, possibly cyclic, with edges that may name
 stages nobody registered.  Upstream and downstream queries are one depth-limited depth-first
 search, run on the transposed and on the plain edges.
 */
module Lineage {
  import opened Prelude

  type Id = string

  datatype Node = Node(id: Id, inputs: seq<Id>, outputs: seq<Id>)

  type Edges = map<Id, set<Id>>

  function Successors(edges: Edges, v: Id): set<Id> {
    if v in edges then edges[v] else {}
  }

  // ----- Paths -----

  /** `to` can be reached from `from` along at most `k` edges. */
  ghost predicate Within(edges: Edges, from: Id, to: Id, k: nat)
    decreases k
  {
    from == to || (k > 0 && exists w :: w in Successors(edges, from) && Within(edges, w, to, k - 1))
  }

  ghost predicate Reachable(edges: Edges, from: Id, to: Id) {
    exists k: nat :: Within(edges, from, to, k)
  }

  ghost predicate Closed(edges: Edges, vertices: set<Id>) {
    forall v :: v in vertices ==> Successors(edges, v) <= vertices
  }

  lemma {:induction false} ClosedHoldsReachable(edges: Edges, vertices: set<Id>, from: Id, to: Id, k: nat)
    requires Closed(edges, vertices) && from in vertices && Within(edges, from, to, k)
    ensures to in vertices
    decreases k
  {
    if from != to {
      var w :| w in Successors(edges, from) && Within(edges, w, to, k - 1);
      ClosedHoldsReachable(edges, vertices, w, to, k - 1);
    }
  }

  /** All vertices of the graph: those with edges out, and those with edges in. */
  function Vertices(edges: Edges): set<Id> {
    edges.Keys + set v, w | v in edges && w in edges[v] :: w
  }

  lemma VerticesAreClosed(edges: Edges, start: Id)
    ensures Closed(edges, Vertices(edges) + {start})
  {
  }

  // ----- Transposition -----

  ghost predicate IsTranspose(edges: Edges, rev: Edges) {
    forall v, w :: w in Successors(rev, v) <==> v in Successors(edges, w)
  }

  lemma {:induction false} AppendEdge(edges: Edges, from: Id, mid: Id, to: Id, k: nat)
    requires Within(edges, from, mid, k) && to in Successors(edges, mid)
    ensures Within(edges, from, to, k + 1)
    decreases k
  {
    if from == mid {
      assert Within(edges, to, to, k);
    } else {
      var w :| w in Successors(edges, from) && Within(edges, w, mid, k - 1);
      AppendEdge(edges, w, mid, to, k - 1);
    }
  }

  lemma {:induction false} TransposedPath(edges: Edges, rev: Edges, from: Id, to: Id, k: nat)
    requires IsTranspose(edges, rev) && Within(edges, from, to, k)
    ensures Within(rev, to, from, k)
    decreases k
  {
    if from != to {
      var w :| w in Successors(edges, from) && Within(edges, w, to, k - 1);
      TransposedPath(edges, rev, w, to, k - 1);
      AppendEdge(rev, to, w, from, k - 1);
    }
  }

  lemma TransposedReach(edges: Edges, rev: Edges, from: Id, to: Id)
    requires IsTranspose(edges, rev)
    ensures Reachable(edges, from, to) <==> Reachable(rev, to, from)
  {
    if Reachable(edges, from, to) {
      var k: nat :| Within(edges, from, to, k);
      TransposedPath(edges, rev, from, to, k);
    }
    if Reachable(rev, to, from) {
      var k: nat :| Within(rev, to, from, k);
      TransposedPath(rev, edges, to, from, k);
    }
  }

  // ----- What a query promises -----

  ghost predicate OnceEach(result: seq<Node>) {
    forall i, j :: 0 <= i < j < |result| ==> result[i].id != result[j].id
  }

  ghost predicate IsNear(nodes: map<Id, Node>, edges: Edges, start: Id, maxDepth: int, node: Node) {
    && node.id in nodes && nodes[node.id] == node
    && maxDepth >= 0 && Within(edges, start, node.id, maxDepth)
  }

  /** Every returned node is registered, appears once, and lies within `maxDepth` edges of the start. */
  ghost predicate Sound(nodes: map<Id, Node>, edges: Edges, start: Id, maxDepth: int, result: seq<Node>) {
    && (forall i :: 0 <= i < |result| ==> IsNear(nodes, edges, start, maxDepth, result[i]))
    && OnceEach(result)
  }

  /** The result is exactly the registered nodes that can be reached. */
  ghost predicate Exact(nodes: map<Id, Node>, edges: Edges, start: Id, result: seq<Node>) {
    forall v :: v in nodes ==> (nodes[v] in result <==> Reachable(edges, start, v))
  }

  /** The depth reaches past every simple path from the start. */
  ghost predicate DeepEnough(edges: Edges, start: Id, maxDepth: int) {
    exists vertices :: Closed(edges, vertices) && start in vertices && |vertices| - 1 <= maxDepth
  }

  /** A depth of the vertex count less one is deep enough. */
  lemma VertexCountIsDeepEnough(edges: Edges, start: Id, maxDepth: int)
    requires |Vertices(edges) + {start}| - 1 <= maxDepth
    ensures DeepEnough(edges, start, maxDepth)
  {
    VerticesAreClosed(edges, start);
  }

  /** For registered stages and deep enough queries, `a` is upstream of `b` iff `b` is downstream of `a`. */
  lemma UpstreamIffDownstream(nodes: map<Id, Node>, edges: Edges, rev: Edges, a: Id, b: Id,
                              downstream: seq<Node>, upstream: seq<Node>)
    requires IsTranspose(edges, rev) && a in nodes && b in nodes
    requires Exact(nodes, edges, a, downstream) && Exact(nodes, rev, b, upstream)
    ensures nodes[a] in upstream <==> nodes[b] in downstream
  {
    TransposedReach(edges, rev, a, b);
  }

  // ----- The depth condition is tight -----

  function Link(i: nat): Id {
    seq(i, _ => 'x')
  }

  /** A chain of `n` vertices. */
  function Chain(n: nat): Edges {
    if n <= 1 then map[] else Chain(n - 1)[Link(n - 2) := {Link(n - 1)}]
  }

  lemma {:induction false} ChainSuccessors(n: nat, i: nat)
    ensures Successors(Chain(n), Link(i)) == if i < n - 1 then {Link(i + 1)} else {}
    decreases n
  {
    if n > 1 {
      ChainSuccessors(n - 1, i);
      assert |Link(i)| == i && |Link(n - 2)| == n - 2;
    }
  }

  lemma {:induction false} ChainIsLong(n: nat, i: nat, j: nat, k: nat)
    requires i <= j && Within(Chain(n), Link(i), Link(j), k)
    ensures j - i <= k
    decreases k
  {
    assert |Link(i)| == i && |Link(j)| == j;
    if i < j {
      ChainSuccessors(n, i);
      ChainIsLong(n, i + 1, j, k - 1);
    }
  }

  lemma {:induction false} ChainIsConnected(n: nat, i: nat, j: nat)
    requires i <= j < n
    ensures Within(Chain(n), Link(i), Link(j), j - i)
    decreases j - i
  {
    if i < j {
      ChainIsConnected(n, i + 1, j);
      ChainSuccessors(n, i);
      assert Link(i + 1) in Successors(Chain(n), Link(i));
    }
  }

  /** One edge less of depth and, on a chain, no sound answer is exact. */
  lemma DepthConditionIsTight(n: nat, nodes: map<Id, Node>, result: seq<Node>)
    requires n >= 1 && Link(n - 1) in nodes && nodes[Link(n - 1)].id == Link(n - 1)
    requires Sound(nodes, Chain(n), Link(0), n - 2, result)
    ensures !Exact(nodes, Chain(n), Link(0), result)
  {
    ChainIsConnected(n, 0, n - 1);
    assert Reachable(Chain(n), Link(0), Link(n - 1));
    if nodes[Link(n - 1)] in result {
      var i :| 0 <= i < |result| && result[i] == nodes[Link(n - 1)];
      ChainIsLong(n, 0, n - 1, n - 2);
    }
  }

  // ----- The search -----

  /** How the set of neighbours filed under a vertex happens to iterate. */
  type Order = (Id, set<Id>) -> seq<Id>

  ghost predicate Iterates(order: Order) {
    forall v, s, w :: w in order(v, s) <==> w in s
  }

  /** The vertices visited so far, in order, after a call of the search on `nid`. */
  function Explore(edges: Edges, order: Order, maxDepth: int, trail: seq<Id>, nid: Id, depth: nat): seq<Id>
    decreases maxDepth + 1 - depth, 0
  {
    if depth > maxDepth || nid in trail then trail
    else ExploreAll(edges, order, maxDepth, trail + [nid], order(nid, Successors(edges, nid)), depth + 1)
  }

  function ExploreAll(edges: Edges, order: Order, maxDepth: int, trail: seq<Id>, ids: seq<Id>,
                      depth: nat): seq<Id>
    decreases maxDepth + 1 - depth, |ids| + 1
  {
    if ids == [] then trail
    else ExploreAll(edges, order, maxDepth, Explore(edges, order, maxDepth, trail, ids[0], depth), ids[1..], depth)
  }

  /** The registered nodes of a trail. */
  function Registered(nodes: map<Id, Node>, trail: seq<Id>): seq<Node> {
    if trail == [] then []
    else
      var n := |trail| - 1;
      Registered(nodes, trail[..n]) + if trail[n] in nodes then [nodes[trail[n]]] else []
  }

  lemma NothingRegistered(nodes: map<Id, Node>)
    ensures Registered(nodes, []) == []
  {
  }

  lemma RegisteredStep(nodes: map<Id, Node>, trail: seq<Id>, v: Id)
    ensures Registered(nodes, trail + [v]) == Registered(nodes, trail) + if v in nodes then [nodes[v]] else []
  {
    assert (trail + [v])[..|trail|] == trail;
  }

  /** The nodes are filed under their ids, and the result lists the registered ones of the visited, each once. */
  ghost predicate Lists(nodes: map<Id, Node>, visited: set<Id>, result: seq<Node>) {
    && (forall v :: v in nodes ==> nodes[v].id == v)
    && (forall v :: v in nodes ==> (nodes[v] in result <==> v in visited))
    && (forall i :: 0 <= i < |result| ==> result[i].id in nodes && nodes[result[i].id] == result[i])
    && OnceEach(result)
  }

  lemma ListsOneMore(nodes: map<Id, Node>, visited: set<Id>, result: seq<Node>, v: Id)
    requires Lists(nodes, visited, result) && v !in visited
    ensures Lists(nodes, visited + {v}, if v in nodes then result + [nodes[v]] else result)
  {
    if v in nodes {
      forall i | 0 <= i < |result|
        ensures result[i].id != v
      {
        assert nodes[result[i].id] in result;
      }
    }
  }

  lemma ListedWasVisited(nodes: map<Id, Node>, visited: set<Id>, result: seq<Node>, i: nat)
    requires Lists(nodes, visited, result) && i < |result|
    ensures result[i].id in nodes && nodes[result[i].id] == result[i] && result[i].id in visited
  {
    hide OnceEach;
    var v := result[i].id;
    assert v in nodes && nodes[v] == result[i];
    assert nodes[v] in result;
  }

  lemma ListedIsSound(nodes: map<Id, Node>, edges: Edges, start: Id, maxDepth: int,
                      visited: set<Id>, result: seq<Node>)
    requires Lists(nodes, visited, result)
    requires forall v :: v in visited ==> maxDepth >= 0 && Within(edges, start, v, maxDepth)
    ensures Sound(nodes, edges, start, maxDepth, result)
  {
    assert OnceEach(result);
    hide Within, OnceEach, Lists;
    forall i | 0 <= i < |result|
      ensures IsNear(nodes, edges, start, maxDepth, result[i])
    {
      ListedWasVisited(nodes, visited, result, i);
    }
    hide IsNear;
  }

  lemma ListedIsExact(nodes: map<Id, Node>, edges: Edges, start: Id, maxDepth: int,
                      visited: set<Id>, result: seq<Node>)
    requires Lists(nodes, visited, result)
    requires forall v :: v in visited ==> maxDepth >= 0 && Within(edges, start, v, maxDepth)
    requires start in visited && Closed(edges, visited)
    ensures Exact(nodes, edges, start, result)
  {
    forall v | v in nodes && Reachable(edges, start, v)
      ensures v in visited
    {
      var k: nat :| Within(edges, start, v, k);
      ClosedHoldsReachable(edges, visited, start, v, k);
    }
  }

  /** The `visited` set and `result` list that all calls of one search share. */
  class Search {
    const nodes: map<Id, Node>
    const edges: Edges
    const order: Order
    const maxDepth: int
    var visited: set<Id>
    var result: seq<Node>
    ghost var trail: seq<Id>

    constructor (nodes: map<Id, Node>, edges: Edges, order: Order, maxDepth: int)
      ensures this.nodes == nodes && this.edges == edges && this.order == order && this.maxDepth == maxDepth
      ensures visited == {} && result == [] && trail == []
    {
      this.nodes, this.edges, this.order, this.maxDepth := nodes, edges, order, maxDepth;
      visited, result, trail := {}, [], [];
    }

    /** The result lists the registered visited nodes, each once, in the order of the visits. */
    ghost predicate Valid()
      reads this
    {
      && (forall v :: v in visited <==> v in trail)
      && result == Registered(nodes, trail)
      && Lists(nodes, visited, result)
    }

    /** No simple path can outrun the depth limit: the vertices on the way here have all been visited. */
    ghost predicate Roomy(vertices: set<Id>, depth: int)
      reads this
    {
      && Closed(edges, vertices) && visited <= vertices
      && |vertices| - 1 <= maxDepth && depth <= |visited|
    }

    method Mark(nid: Id)
      requires Valid() && nid !in visited
      modifies this
      ensures Valid() && visited == old(visited) + {nid} && trail == old(trail) + [nid]
    {
      hide Lists;
      ListsOneMore(nodes, visited, result, nid);
      RegisteredStep(nodes, trail, nid);
      visited := visited + {nid};
      if nid in nodes {
        result := result + [nodes[nid]];
      }
      trail := trail + [nid];
    }

    /**
     The recursive search.  It visits exactly what `Explore` says; what it newly visits lies within
     the remaining depth; and with room enough it leaves no successor of it unvisited.
     */
    method Visit(nid: Id, depth: nat, ghost vertices: set<Id>)
      requires Valid() && Iterates(order)
      modifies this
      ensures Valid() && old(visited) <= visited
      ensures trail == Explore(edges, order, maxDepth, old(trail), nid, depth)
      ensures forall v :: v in visited && v !in old(visited) ==>
                depth <= maxDepth && Within(edges, nid, v, maxDepth - depth)
      ensures old(Roomy(vertices, depth)) && nid in vertices ==>
                && nid in visited && visited <= vertices
                && forall v :: v in visited && v !in old(visited) ==> Successors(edges, v) <= visited
      decreases maxDepth + 1 - depth
    {
      hide Registered, Explore, ExploreAll, Lists;
      ghost var roomy := Roomy(vertices, depth) && nid in vertices;
      ExploreStep(edges, order, maxDepth, trail, nid, depth);
      if depth > maxDepth || nid in visited {
        SmallerSet(visited, nid, vertices);
        return;
      }
      Mark(nid);
      ghost var first := visited;
      var ids := order(nid, Successors(edges, nid));
      while ids != []
        invariant Valid() && first <= visited
        invariant forall w :: w in ids ==> w in Successors(edges, nid)
        invariant ExploreAll(edges, order, maxDepth, trail, ids, depth + 1)
                  == Explore(edges, order, maxDepth, old(trail), nid, depth)
        invariant forall v :: v in visited && v !in first ==> Within(edges, nid, v, maxDepth - depth)
        invariant roomy ==> visited <= vertices
        invariant roomy ==> forall w :: w in Successors(edges, nid) ==> w in visited || w in ids
        invariant roomy ==> forall v :: v in visited && v !in first ==> Successors(edges, v) <= visited
        decreases |ids|
      {
        ExploreAllStep(edges, order, maxDepth, trail, ids, depth + 1);
        if roomy {
          GrownSet(old(visited), nid, visited);
        }
        VisitChild(ids[0], nid, depth, vertices);
        assert forall w :: w in ids ==> w == ids[0] || w in ids[1..];
        assert forall w :: w in ids[1..] ==> w in ids;
        ids := ids[1..];
      }
      ExploreAllStep(edges, order, maxDepth, trail, [], depth + 1);
    }

    /** The call on one neighbour, seen from the vertex it was made for. */
    method VisitChild(child: Id, nid: Id, depth: nat, ghost vertices: set<Id>)
      requires Valid() && Iterates(order) && depth <= maxDepth && child in Successors(edges, nid)
      modifies this
      ensures Valid() && old(visited) <= visited
      ensures trail == Explore(edges, order, maxDepth, old(trail), child, depth + 1)
      ensures forall v :: v in visited && v !in old(visited) ==> Within(edges, nid, v, maxDepth - depth)
      ensures old(Roomy(vertices, depth + 1)) && child in vertices ==>
                && child in visited && visited <= vertices
                && forall v :: v in visited && v !in old(visited) ==> Successors(edges, v) <= visited
      decreases maxDepth + 1 - depth, 0
    {
      hide Registered, Explore, Lists;
      Visit(child, depth + 1, vertices);
      forall v | v in visited && v !in old(visited)
        ensures Within(edges, nid, v, maxDepth - depth)
      {
        assert Within(edges, child, v, maxDepth - depth - 1);
      }
    }
  }

  lemma ExploreStep(edges: Edges, order: Order, maxDepth: int, trail: seq<Id>, nid: Id, depth: nat)
    ensures depth > maxDepth || nid in trail ==> Explore(edges, order, maxDepth, trail, nid, depth) == trail
    ensures depth <= maxDepth && nid !in trail ==>
              Explore(edges, order, maxDepth, trail, nid, depth)
              == ExploreAll(edges, order, maxDepth, trail + [nid], order(nid, Successors(edges, nid)), depth + 1)
  {
  }

  lemma ExploreAllStep(edges: Edges, order: Order, maxDepth: int, trail: seq<Id>, ids: seq<Id>, depth: nat)
    ensures ids == [] ==> ExploreAll(edges, order, maxDepth, trail, ids, depth) == trail
    ensures ids != [] ==>
              ExploreAll(edges, order, maxDepth, trail, ids, depth)
              == ExploreAll(edges, order, maxDepth, Explore(edges, order, maxDepth, trail, ids[0], depth),
                            ids[1..], depth)
  {
  }

  // ----- Short of the depth condition -----

  /** `a` leads to `b` and `c`, `b` to `c`, and `c` to `d`: there is a long and a short way to `d`. */
  const Shortcut: Edges := map["a" := {"b", "c"}, "b" := {"c"}, "c" := {"d"}]

  ghost predicate IteratesShortcut(order: Order) {
    order("b", {"c"}) == ["c"] && order("c", {"d"}) == ["d"] && order("d", {}) == []
  }

  lemma LongWayFirst(order: Order)
    requires IteratesShortcut(order) && order("a", {"b", "c"}) == ["b", "c"]
    ensures Explore(Shortcut, order, 2, [], "a", 0) == ["a", "b", "c"]
  {
    var abc := ["a", "b", "c"];
    assert Explore(Shortcut, order, 2, abc[..2], "c", 2) == ExploreAll(Shortcut, order, 2, abc, ["d"], 3) == abc;
    assert Explore(Shortcut, order, 2, abc[..1], "b", 1) == ExploreAll(Shortcut, order, 2, abc[..2], ["c"], 2) == abc;
    assert ExploreAll(Shortcut, order, 2, abc, ["c"], 1) == abc;
    assert Explore(Shortcut, order, 2, [], "a", 0) == ExploreAll(Shortcut, order, 2, abc[..1], ["b", "c"], 1);
  }

  lemma ShortWayFirst(order: Order)
    requires IteratesShortcut(order) && order("a", {"b", "c"}) == ["c", "b"]
    ensures Explore(Shortcut, order, 2, [], "a", 0) == ["a", "c", "d", "b"]
  {
    var all := ["a", "c", "d", "b"];
    assert Explore(Shortcut, order, 2, all[..2], "d", 2) == ExploreAll(Shortcut, order, 2, all[..3], [], 3) == all[..3];
    assert ExploreAll(Shortcut, order, 2, all[..2], ["d"], 2) == all[..3];
    assert Explore(Shortcut, order, 2, all[..1], "c", 1) == all[..3];
    assert Explore(Shortcut, order, 2, all[..3], "b", 1) == ExploreAll(Shortcut, order, 2, all, ["c"], 2) == all;
    assert ExploreAll(Shortcut, order, 2, all[..3], ["b"], 1) == all;
    assert Explore(Shortcut, order, 2, [], "a", 0) == ExploreAll(Shortcut, order, 2, all[..1], ["c", "b"], 1);
  }

  /**
   Short of the depth condition the answer depends on how sets iterate.  With a depth of 2, `d` is within
   two edges of `a`, but if `b` comes first, `c` is first met too deep to be expanded, and `d` is missed.
   */
  lemma DepthLimitMissesNearNodes(order: Order)
    requires IteratesShortcut(order)
    ensures Within(Shortcut, "a", "d", 2)
    ensures order("a", {"b", "c"}) == ["b", "c"] ==> "d" !in Explore(Shortcut, order, 2, [], "a", 0)
    ensures order("a", {"b", "c"}) == ["c", "b"] ==> "d" in Explore(Shortcut, order, 2, [], "a", 0)
  {
    assert "c" in Successors(Shortcut, "a") && "d" in Successors(Shortcut, "c");
    assert Within(Shortcut, "d", "d", 0) && Within(Shortcut, "c", "d", 1);
    hide Explore;
    if order("a", {"b", "c"}) == ["b", "c"] {
      LongWayFirst(order);
    } else if order("a", {"b", "c"}) == ["c", "b"] {
      ShortWayFirst(order);
    }
  }

  lemma SmallerSet(s: set<Id>, x: Id, t: set<Id>)
    ensures x !in s && s <= t && x in t ==> |s + {x}| <= |t| && |s + {x}| == |s| + 1
  {
    if x !in s && s <= t && x in t {
      SubsetSize(s + {x}, t);
    }
  }

  lemma GrownSet(s: set<Id>, x: Id, t: set<Id>)
    requires x !in s && s + {x} <= t
    ensures |t| >= |s| + 1
  {
    SubsetSize(s + {x}, t);
  }

  lemma {:induction false} SubsetSize(s: set<Id>, t: set<Id>)
    requires s <= t
    ensures |s| <= |t|
    decreases s
  {
    if s != {} {
      var x :| x in s;
      SubsetSize(s - {x}, t - {x});
    }
  }

  // ----- The tracker -----

  ghost predicate ListedEdgesExist(nodes: map<Id, Node>, edges: Edges) {
    && (forall v, w :: v in nodes && w in nodes[v].outputs ==> w in Successors(edges, v))
    && (forall v, w :: v in nodes && w in nodes[v].inputs ==> v in Successors(edges, w))
  }

  /** The nodes after an edge was noted on its end points. */
  ghost predicate EdgeNoted(nodes: map<Id, Node>, nodes': map<Id, Node>, from: Id, to: Id) {
    && nodes'.Keys == nodes.Keys
    && forall v :: v in nodes' ==>
         && nodes'[v].id == nodes[v].id
         && nodes'[v].outputs == nodes[v].outputs + (if v == from then [to] else [])
         && nodes'[v].inputs == nodes[v].inputs + (if v == to then [from] else [])
  }

  lemma OutThenIn(nodes: map<Id, Node>, mid: map<Id, Node>, nodes': map<Id, Node>, from: Id, to: Id)
    requires mid == if from in nodes then nodes[from := nodes[from].(outputs := nodes[from].outputs + [to])] else nodes
    requires nodes' == if to in mid then mid[to := mid[to].(inputs := mid[to].inputs + [from])] else mid
    ensures EdgeNoted(nodes, nodes', from, to)
  {
    forall v | v in nodes
      ensures nodes'[v].id == nodes[v].id
      ensures nodes'[v].outputs == nodes[v].outputs + if v == from then [to] else []
      ensures nodes'[v].inputs == nodes[v].inputs + if v == to then [from] else []
    {
      assert nodes[v].outputs + [] == nodes[v].outputs && nodes[v].inputs + [] == nodes[v].inputs;
    }
  }

  lemma NotedEdgeExists(nodes: map<Id, Node>, nodes': map<Id, Node>, edges: Edges, edges': Edges, from: Id, to: Id)
    requires ListedEdgesExist(nodes, edges) && EdgeNoted(nodes, nodes', from, to)
    requires forall v :: Successors(edges', v) == Successors(edges, v) + if v == from then {to} else {}
    ensures ListedEdgesExist(nodes', edges')
  {
    hide Successors;
    forall v, w | v in nodes' && w in nodes'[v].outputs
      ensures w in Successors(edges', v)
    {
      assert w in nodes[v].outputs || (v == from && w == to);
    }
    forall v, w | v in nodes' && w in nodes'[v].inputs
      ensures v in Successors(edges', w)
    {
      assert w in nodes[v].inputs || (v == to && w == from);
    }
  }

  class DataLineageTracker {
    var nodes: map<Id, Node>
    var edges: Edges
    var reverseEdges: Edges

    constructor ()
      ensures nodes == map[] && edges == map[] && FiledById() && Consistent()
    {
      nodes, edges, reverseEdges := map[], map[], map[];
    }

    /** Nodes are filed under their own ids: true of every tracker. */
    ghost predicate FiledById()
      reads this
    {
      forall v :: v in nodes ==> nodes[v].id == v
    }

    /** The edges that nodes list are edges of the graph: true unless a node is registered with edges of its own. */
    ghost predicate Consistent()
      reads this
    {
      ListedEdgesExist(nodes, edges)
    }

    method RegisterNode(node: Node)
      modifies this`nodes
      ensures nodes == old(nodes)[node.id := node]
      ensures old(FiledById()) ==> FiledById()
      ensures old(Consistent()) && node.inputs == [] && node.outputs == [] ==> Consistent()
    {
      nodes := nodes[node.id := node];
    }

    /** Adds one edge and notes it on the end points that are registered; a self-loop is noted twice on one node. */
    method AddEdge(from: Id, to: Id)
      modifies this`nodes, this`edges
      ensures forall v :: Successors(edges, v) == Successors(old(edges), v) + if v == from then {to} else {}
      ensures EdgeNoted(old(nodes), nodes, from, to)
      ensures old(FiledById()) ==> FiledById()
      ensures old(Consistent()) ==> Consistent()
    {
      edges := edges[from := Successors(edges, from) + {to}];
      assert forall v :: Successors(edges, v) == Successors(old(edges), v) + if v == from then {to} else {};
      hide Successors, ListedEdgesExist, EdgeNoted;
      if from in nodes {
        var n := nodes[from];
        nodes := nodes[from := n.(outputs := n.outputs + [to])];
      }
      ghost var mid := nodes;
      if to in nodes {
        var n := nodes[to];
        nodes := nodes[to := n.(inputs := n.inputs + [from])];
      }
      OutThenIn(old(nodes), mid, nodes, from, to);
      if old(Consistent()) {
        NotedEdgeExists(old(nodes), nodes, old(edges), edges, from, to);
      }
    }

    method BuildReverseEdges()
      modifies this`reverseEdges
      ensures IsTranspose(edges, reverseEdges)
    {
      reverseEdges := map[];
      var sources := edges.Keys;
      while sources != {}
        invariant sources <= edges.Keys
        invariant forall v, w :: w in Successors(reverseEdges, v) <==> w !in sources && v in Successors(edges, w)
      {
        var src :| src in sources;
        sources := sources - {src};
        var targets := edges[src];
        while targets != {}
          invariant targets <= edges[src]
          invariant forall v, w :: w in Successors(reverseEdges, v) <==>
                      w !in sources && v in Successors(edges, w) && !(w == src && v in targets)
        {
          var dst :| dst in targets;
          targets := targets - {dst};
          ghost var before := reverseEdges;
          reverseEdges := reverseEdges[dst := Successors(reverseEdges, dst) + {src}];
          assert forall v :: Successors(reverseEdges, v) == Successors(before, v) + if v == dst then {src} else {};
        }
      }
    }

    method Query(graph: Edges, order: Order, nodeId: Id, maxDepth: int) returns (result: seq<Node>)
      requires FiledById() && Iterates(order)
      ensures result == Registered(nodes, Explore(graph, order, maxDepth, [], nodeId, 0))
      ensures Sound(nodes, graph, nodeId, maxDepth, result)
      ensures DeepEnough(graph, nodeId, maxDepth) ==> Exact(nodes, graph, nodeId, result)
    {
      hide Registered, Explore;
      ghost var vertices := {};
      if DeepEnough(graph, nodeId, maxDepth) {
        vertices :| Closed(graph, vertices) && nodeId in vertices && |vertices| - 1 <= maxDepth;
      }
      var search := new Search(nodes, graph, order, maxDepth);
      NothingRegistered(nodes);
      search.Visit(nodeId, 0, vertices);
      result := search.result;
      assert forall v :: v in search.visited ==> maxDepth >= 0 && Within(graph, nodeId, v, maxDepth - 0);
      hide Lists;
      ListedIsSound(nodes, graph, nodeId, maxDepth, search.visited, result);
      if DeepEnough(graph, nodeId, maxDepth) {
        ListedIsExact(nodes, graph, nodeId, maxDepth, search.visited, result);
      }
    }

    method GetDownstream(order: Order, nodeId: Id, maxDepth: int) returns (result: seq<Node>)
      requires FiledById() && Iterates(order)
      ensures result == Registered(nodes, Explore(edges, order, maxDepth, [], nodeId, 0))
      ensures Sound(nodes, edges, nodeId, maxDepth, result)
      ensures DeepEnough(edges, nodeId, maxDepth) ==> Exact(nodes, edges, nodeId, result)
    {
      result := Query(edges, order, nodeId, maxDepth);
    }

    /** The upstream query rebuilds the transposed edges first; nothing else of the tracker changes. */
    method GetUpstream(order: Order, nodeId: Id, maxDepth: int) returns (result: seq<Node>)
      requires FiledById() && Iterates(order)
      modifies this`reverseEdges
      ensures IsTranspose(edges, reverseEdges)
      ensures result == Registered(nodes, Explore(reverseEdges, order, maxDepth, [], nodeId, 0))
      ensures Sound(nodes, reverseEdges, nodeId, maxDepth, result)
      ensures DeepEnough(reverseEdges, nodeId, maxDepth) ==> Exact(nodes, reverseEdges, nodeId, result)
    {
      BuildReverseEdges();
      result := Query(reverseEdges, order, nodeId, maxDepth);
    }
  }
}
