/**
 * The part of a networkx `DiGraph` that the converter uses: nodes kept in insertion order,
 * a node-attribute dictionary per node, and per-node successor and predecessor dictionaries
 * whose keys keep edge-insertion order. `Graph` is the value; `DiGraph` is the mutable object
 * whose methods are proved to update its fields exactly as the value-level operations say.
 */
module NxGraph {
  import opened Wrappers

  /**
   * A node's attribute dictionary, restricted to the three keys the converter writes:
   * `task_func_name`, `runtime` and `time_invoked`. A missing key is None.
   */
  datatype Attrs = Attrs(name: Option<string>, runtime: Option<real>, invoked: Option<string>)

  /** The empty dictionary a node gets when `add_edge` creates it. */
  const NoAttrs := Attrs(None, None, None)

  /** `d.update(new)`: keys present in `new` overwrite, the others are kept. */
  function Update(current: Attrs, given: Attrs): (r: Attrs)
    ensures r.name.Some? <==> current.name.Some? || given.name.Some?
    ensures r.runtime.Some? <==> current.runtime.Some? || given.runtime.Some?
    ensures given.name.Some? ==> r.name == given.name
    ensures given.name.None? ==> r.name == current.name
    ensures given.runtime.Some? ==> r.runtime == given.runtime
    ensures given.runtime.None? ==> r.runtime == current.runtime
    ensures given.invoked.Some? ==> r.invoked == given.invoked
    ensures given.invoked.None? ==> r.invoked == current.invoked
  {
    Attrs(
      if given.name.Some? then given.name else current.name,
      if given.runtime.Some? then given.runtime else current.runtime,
      if given.invoked.Some? then given.invoked else current.invoked)
  }

  datatype Graph = Graph(
    nodes: seq<int>,
    attrs: map<int, Attrs>,
    succ: map<int, seq<int>>,
    pred: map<int, seq<int>>)

  const Empty := Graph([], map[], map[], map[])

  predicate NoDups(s: seq<int>)
  {
    forall i, j :: 0 <= i < j < |s| ==> s[i] != s[j]
  }

  /** Every node has an attribute dictionary and an adjacency entry in both directions. */
  ghost predicate Keyed(g: Graph)
  {
    && g.succ.Keys == g.attrs.Keys
    && g.pred.Keys == g.attrs.Keys
    && (forall n :: n in g.attrs <==> n in g.nodes)
  }

  /**
   * The invariant of a networkx DiGraph: nodes are distinct, successor and predecessor
   * dictionaries mirror each other, and no adjacency list repeats a node (edges form a set).
   */
  ghost predicate WF(g: Graph)
  {
    && Keyed(g)
    && NoDups(g.nodes)
    && SuccMirrored(g)
    && PredMirrored(g)
    && NoParallelEdges(g)
  }

  /** There is an edge u -> v. */
  predicate HasEdge(g: Graph, u: int, v: int)
  {
    u in g.succ && v in g.succ[u]
  }

  /** The edge set. */
  ghost function Edges(g: Graph): set<(int, int)>
  {
    set u, v | u in g.succ && v in g.succ[u] :: (u, v)
  }

  /** Adds node n with no attributes unless it is present (the first half of `add_edge`). */
  function WithBareNode(g: Graph, n: int): (r: Graph)
    requires Keyed(g)
    ensures Keyed(r) && n in r.attrs
  {
    if n in g.succ then g
    else Graph(g.nodes + [n], g.attrs[n := NoAttrs], g.succ[n := []], g.pred[n := []])
  }

  /** `add_node(n, **a)`: appends a new node, or updates the attributes of an existing one. */
  function WithNode(g: Graph, n: int, a: Attrs): (r: Graph)
    requires Keyed(g)
    ensures Keyed(r) && n in r.attrs
  {
    if n in g.succ then g.(attrs := g.attrs[n := Update(g.attrs[n], a)])
    else Graph(g.nodes + [n], g.attrs[n := a], g.succ[n := []], g.pred[n := []])
  }

  /** `add_edge(u, v)`: creates u, then v, if missing; records the edge unless present. */
  function WithEdge(g: Graph, u: int, v: int): (r: Graph)
    requires Keyed(g)
    ensures Keyed(r) && u in r.attrs && v in r.attrs
  {
    var g2 := WithBareNode(WithBareNode(g, u), v);
    if v in g2.succ[u] then g2 else Link(g2, u, v)
  }

  /** Records a new edge u -> v at the end of u's successors and of v's predecessors. */
  function Link(g: Graph, u: int, v: int): (r: Graph)
    requires Keyed(g) && u in g.attrs && v in g.attrs
    ensures Keyed(r)
  {
    g.(succ := g.succ[u := g.succ[u] + [v]], pred := g.pred[v := g.pred[v] + [u]])
  }

  /** `[n for n in dag if degree(n) == 0]` over the adjacency map `adj`, in node order. */
  function ZeroDegree(adj: map<int, seq<int>>, ns: seq<int>): (r: seq<int>)
    requires forall n :: n in ns ==> n in adj
    ensures |r| <= |ns|
  {
    if |ns| == 0 then []
    else
      var n := ns[0];
      assert n in ns;
      assert n in adj;
      (if |adj[n]| == 0 then [n] else []) + ZeroDegree(adj, ns[1..])
  }

  /** ZeroDegree keeps exactly the nodes of ns whose adjacency list is empty. */
  lemma {:induction false} ZeroDegreeMembers(adj: map<int, seq<int>>, ns: seq<int>)
    requires forall n :: n in ns ==> n in adj
    ensures forall n :: n in ZeroDegree(adj, ns) <==> n in ns && |adj[n]| == 0
  {
    if |ns| > 0 {
      ZeroDegreeMembers(adj, ns[1..]);
      assert forall n :: n in ns <==> n == ns[0] || n in ns[1..];
    }
  }

  /** One more node of the comprehension: it is kept exactly when its adjacency list is empty. */
  lemma ZeroDegreeFirst(adj: map<int, seq<int>>, ns: seq<int>, acc: seq<int>)
    requires |ns| > 0 && forall m :: m in ns ==> m in adj
    ensures ns[0] in adj && forall m :: m in ns[1..] ==> m in adj
    ensures |adj[ns[0]]| == 0 ==> acc + ZeroDegree(adj, ns) == (acc + [ns[0]]) + ZeroDegree(adj, ns[1..])
    ensures |adj[ns[0]]| != 0 ==> acc + ZeroDegree(adj, ns) == acc + ZeroDegree(adj, ns[1..])
  {
    var n := ns[0];
    assert n in ns;
    forall m | m in ns[1..] ensures m in adj {
      assert m in ns;
    }
    var rest := ZeroDegree(adj, ns[1..]);
    assert ZeroDegree(adj, ns) == (if |adj[n]| == 0 then [n] else []) + rest;
    if |adj[n]| == 0 {
      assert acc + ([n] + rest) == (acc + [n]) + rest;
    } else {
      assert [] + rest == rest;
    }
  }

  /** Nodes with in-degree 0. */
  function Sources(g: Graph): seq<int>
    requires Keyed(g)
  {
    ZeroDegree(g.pred, g.nodes)
  }

  /** Nodes with out-degree 0. */
  function Sinks(g: Graph): seq<int>
    requires Keyed(g)
  {
    ZeroDegree(g.succ, g.nodes)
  }

  /**
   * h extends g: nodes keep their positions, adjacency lists only get longer at their end,
   * and an attribute once set stays set. Nothing is ever removed.
   */
  ghost predicate Grows(g: Graph, h: Graph)
  {
    && g.nodes <= h.nodes
    && (forall n :: n in g.succ ==> n in h.succ && g.succ[n] <= h.succ[n])
    && (forall n :: n in g.pred ==> n in h.pred && g.pred[n] <= h.pred[n])
    && (forall n :: n in g.attrs ==> n in h.attrs)
    && (forall n :: n in g.attrs && g.attrs[n].name.Some? ==> h.attrs[n].name.Some?)
    && (forall n :: n in g.attrs && g.attrs[n].runtime.Some? ==> h.attrs[n].runtime.Some?)
  }

  lemma GrowsTrans(a: Graph, b: Graph, c: Graph)
    requires Grows(a, b) && Grows(b, c)
    ensures Grows(a, c)
  {
  }

  lemma GrowsEdges(g: Graph, h: Graph)
    requires Grows(g, h)
    ensures Edges(g) <= Edges(h)
  {
    forall e | e in Edges(g) ensures e in Edges(h) {
      var (u, v) := e;
      assert v in g.succ[u];
      assert v in h.succ[u];
    }
  }

  lemma WithBareNodeFacts(g: Graph, n: int)
    requires WF(g)
    ensures WF(WithBareNode(g, n)) && Grows(g, WithBareNode(g, n))
    ensures WithBareNode(g, n).nodes == if n in g.attrs then g.nodes else g.nodes + [n]
  {
    if n !in g.succ {
      NewNodeWF(g, n, NoAttrs);
      NewNodeGrows(g, n, NoAttrs);
    }
  }

  lemma NewNodeWF(g: Graph, n: int, a: Attrs)
    requires WF(g) && n !in g.succ
    ensures WF(WithNode(g, n, a))
  {
  }

  lemma NewNodeGrows(g: Graph, n: int, a: Attrs)
    requires WF(g) && n !in g.succ
    ensures Grows(g, WithNode(g, n, a))
  {
  }

  lemma OldNodeWF(g: Graph, n: int, a: Attrs)
    requires WF(g) && n in g.succ
    ensures WF(WithNode(g, n, a))
  {
  }

  lemma OldNodeGrows(g: Graph, n: int, a: Attrs)
    requires WF(g) && n in g.succ
    ensures Grows(g, WithNode(g, n, a))
  {
  }

  /** `add_node` keeps the graph well formed, adds no edge, and only grows the graph. */
  lemma WithNodeFacts(g: Graph, n: int, a: Attrs)
    requires WF(g)
    ensures WF(WithNode(g, n, a)) && Grows(g, WithNode(g, n, a))
    ensures WithNode(g, n, a).succ == WithBareNode(g, n).succ
    ensures WithNode(g, n, a).nodes == if n in g.attrs then g.nodes else g.nodes + [n]
  {
    if n !in g.succ {
      NewNodeWF(g, n, a);
      NewNodeGrows(g, n, a);
    } else {
      OldNodeWF(g, n, a);
      OldNodeGrows(g, n, a);
    }
  }

  /** `add_node` sets the given attributes of n and leaves every other node's attributes alone. */
  lemma WithNodeAttrs(g: Graph, n: int, a: Attrs)
    requires Keyed(g)
    ensures forall m :: m in g.attrs && m != n ==> WithNode(g, n, a).attrs[m] == g.attrs[m]
    ensures a.name.Some? ==> WithNode(g, n, a).attrs[n].name == a.name
    ensures a.runtime.Some? ==> WithNode(g, n, a).attrs[n].runtime == a.runtime
    ensures a.invoked.Some? ==> WithNode(g, n, a).attrs[n].invoked == a.invoked
  {
  }

  /** Successor lists mirror predecessor lists: u -> v is recorded on both sides. */
  ghost predicate SuccMirrored(g: Graph)
  {
    forall u, v :: u in g.succ && v in g.succ[u] ==> v in g.pred && u in g.pred[v]
  }

  ghost predicate PredMirrored(g: Graph)
  {
    forall u, v :: v in g.pred && u in g.pred[v] ==> u in g.succ && v in g.succ[u]
  }

  ghost predicate NoParallelEdges(g: Graph)
  {
    && (forall u :: u in g.succ ==> NoDups(g.succ[u]))
    && (forall v :: v in g.pred ==> NoDups(g.pred[v]))
  }

  lemma LinkSuccMirrored(g: Graph, u: int, v: int)
    requires Keyed(g) && SuccMirrored(g) && u in g.attrs && v in g.attrs
    ensures SuccMirrored(Link(g, u, v))
  {
    var r := Link(g, u, v);
    forall x, y | x in r.succ && y in r.succ[x] ensures y in r.pred && x in r.pred[y] {
      if x != u || y != v {
        assert y in g.succ[x];
      }
    }
  }

  lemma LinkPredMirrored(g: Graph, u: int, v: int)
    requires Keyed(g) && PredMirrored(g) && u in g.attrs && v in g.attrs
    ensures PredMirrored(Link(g, u, v))
  {
    var r := Link(g, u, v);
    forall x, y | y in r.pred && x in r.pred[y] ensures x in r.succ && y in r.succ[x] {
      if x != u || y != v {
        assert x in g.pred[y];
      }
    }
  }

  lemma LinkNoParallelEdges(g: Graph, u: int, v: int)
    requires Keyed(g) && PredMirrored(g) && NoParallelEdges(g) && u in g.attrs && v in g.attrs
    requires v !in g.succ[u]
    ensures NoParallelEdges(Link(g, u, v))
  {
    assert u !in g.pred[v];
  }

  lemma LinkWF(g: Graph, u: int, v: int)
    requires WF(g) && u in g.attrs && v in g.attrs && v !in g.succ[u]
    ensures WF(Link(g, u, v))
  {
    LinkSuccMirrored(g, u, v);
    LinkPredMirrored(g, u, v);
    LinkNoParallelEdges(g, u, v);
  }

  lemma LinkGrows(g: Graph, u: int, v: int)
    requires WF(g) && u in g.attrs && v in g.attrs && v !in g.succ[u]
    ensures Grows(g, Link(g, u, v))
    ensures forall x, y :: HasEdge(Link(g, u, v), x, y) <==> HasEdge(g, x, y) || (x == u && y == v)
  {
  }

  lemma WithEdgeWF(g: Graph, u: int, v: int)
    requires WF(g)
    ensures WF(WithEdge(g, u, v)) && Grows(g, WithEdge(g, u, v))
  {
    var g1 := WithBareNode(g, u);
    var g2 := WithBareNode(g1, v);
    WithBareNodeFacts(g, u);
    WithBareNodeFacts(g1, v);
    GrowsTrans(g, g1, g2);
    if v !in g2.succ[u] {
      LinkWF(g2, u, v);
      LinkGrows(g2, u, v);
      GrowsTrans(g, g2, Link(g2, u, v));
    }
  }

  lemma WithEdgeAdjacency(g: Graph, u: int, v: int)
    requires WF(g)
    ensures forall x, y :: HasEdge(WithEdge(g, u, v), x, y) <==> HasEdge(g, x, y) || (x == u && y == v)
    ensures u in WithEdge(g, u, v).pred[v]
  {
    var g1 := WithBareNode(g, u);
    var g2 := WithBareNode(g1, v);
    WithBareNodeFacts(g, u);
    WithBareNodeFacts(g1, v);
    assert forall x, y :: HasEdge(g2, x, y) <==> HasEdge(g, x, y);
    if v !in g2.succ[u] {
      LinkGrows(g2, u, v);
    }
  }

  lemma WithEdgeNodes(g: Graph, u: int, v: int)
    requires WF(g)
    ensures WithEdge(g, u, v).nodes ==
      g.nodes + (if u in g.attrs then [] else [u]) + (if v in g.attrs || v == u then [] else [v])
    ensures WithEdge(g, u, v).attrs == WithBareNode(WithBareNode(g, u), v).attrs
  {
  }

  /**
   * `add_edge(u, v)` keeps the graph well formed, adds exactly the edge u -> v, appends to the
   * node order only the endpoints not present before, and only grows the graph.
   */
  lemma WithEdgeFacts(g: Graph, u: int, v: int)
    requires WF(g)
    ensures WF(WithEdge(g, u, v)) && Grows(g, WithEdge(g, u, v))
    ensures forall x, y :: HasEdge(WithEdge(g, u, v), x, y) <==> HasEdge(g, x, y) || (x == u && y == v)
    ensures WithEdge(g, u, v).nodes ==
      g.nodes + (if u in g.attrs then [] else [u]) + (if v in g.attrs || v == u then [] else [v])
    ensures WithEdge(g, u, v).attrs == WithBareNode(WithBareNode(g, u), v).attrs
    ensures u in WithEdge(g, u, v).pred[v]
  {
    WithEdgeWF(g, u, v);
    WithEdgeAdjacency(g, u, v);
    WithEdgeNodes(g, u, v);
  }

  /** `add_edge` leaves existing attributes alone and gives new endpoints an empty dictionary. */
  lemma WithEdgeAttrs(g: Graph, u: int, v: int)
    requires Keyed(g)
    ensures forall n :: n in g.attrs ==> WithEdge(g, u, v).attrs[n] == g.attrs[n]
    ensures forall n :: n in WithEdge(g, u, v).attrs <==> n in g.attrs || n == u || n == v
    ensures forall n :: n in WithEdge(g, u, v).attrs && n !in g.attrs ==> WithEdge(g, u, v).attrs[n] == NoAttrs
  {
    var g1 := WithBareNode(g, u);
    var g2 := WithBareNode(g1, v);
    BareAttrs(g, u);
    BareAttrs(g1, v);
    assert WithEdge(g, u, v).attrs == g2.attrs;
  }

  lemma BareAttrs(g: Graph, n: int)
    requires Keyed(g)
    ensures WithBareNode(g, n).attrs == if n in g.attrs then g.attrs else g.attrs[n := NoAttrs]
  {
  }

  /** The edge set after `add_edge(u, v)` is the old one plus (u, v). */
  lemma WithEdgeEdges(g: Graph, u: int, v: int)
    requires WF(g)
    ensures Edges(WithEdge(g, u, v)) == Edges(g) + {(u, v)}
  {
    WithEdgeAdjacency(g, u, v);
    var r := WithEdge(g, u, v);
    forall e | e in Edges(r) ensures e in Edges(g) + {(u, v)} {
      EdgeMember(r, e);
      EdgeMember(g, e);
    }
    forall e | e in Edges(g) + {(u, v)} ensures e in Edges(r) {
      EdgeMember(r, e);
      EdgeMember(g, e);
    }
  }

  lemma EdgeMember(g: Graph, e: (int, int))
    ensures e in Edges(g) <==> HasEdge(g, e.0, e.1)
  {
  }

  /** `in_degree(n) == 0` exactly for the nodes Sources lists (and likewise for Sinks). */
  lemma SourcesSinksMembers(g: Graph)
    requires WF(g)
    ensures forall n :: n in Sources(g) <==> n in g.nodes && |g.pred[n]| == 0
    ensures forall n :: n in Sinks(g) <==> n in g.nodes && |g.succ[n]| == 0
  {
    ZeroDegreeMembers(g.pred, g.nodes);
    ZeroDegreeMembers(g.succ, g.nodes);
  }

  /**
   * A networkx `DiGraph` as a mutable object. The fields are the graph's own dictionaries;
   * `Value()` is the graph they currently hold.
   */
  class DiGraph {
    var nodes: seq<int>
    var attrs: map<int, Attrs>
    var succ: map<int, seq<int>>
    var pred: map<int, seq<int>>

    function Value(): Graph
      reads this
    {
      Graph(nodes, attrs, succ, pred)
    }

    ghost predicate Valid()
      reads this
    {
      WF(Value())
    }

    /** `nx.DiGraph()` */
    constructor ()
      ensures Valid() && Value() == Empty
    {
      nodes, attrs, succ, pred := [], map[], map[], map[];
    }

    /** `dag.add_node(n, **a)` */
    method AddNode(n: int, a: Attrs)
      requires Valid()
      modifies this
      ensures Valid() && Value() == WithNode(old(Value()), n, a)
    {
      if n in succ {
        attrs := attrs[n := Update(attrs[n], a)];
      } else {
        nodes := nodes + [n];
        attrs := attrs[n := a];
        succ := succ[n := []];
        pred := pred[n := []];
      }
      WithNodeFacts(old(Value()), n, a);
    }

    /** `dag.add_edge(u, v)` */
    method AddEdge(u: int, v: int)
      requires Valid()
      modifies this
      ensures Valid() && Value() == WithEdge(old(Value()), u, v)
    {
      ghost var g0 := Value();
      if u !in succ {
        nodes := nodes + [u];
        attrs := attrs[u := NoAttrs];
        succ := succ[u := []];
        pred := pred[u := []];
      }
      ghost var g1 := Value();
      assert g1 == WithBareNode(g0, u);
      if v !in succ {
        nodes := nodes + [v];
        attrs := attrs[v := NoAttrs];
        succ := succ[v := []];
        pred := pred[v := []];
      }
      ghost var g2 := Value();
      assert g2 == WithBareNode(g1, v);
      if v !in succ[u] {
        succ := succ[u := succ[u] + [v]];
        pred := pred[v := pred[v] + [u]];
        assert Value() == Link(g2, u, v);
      }
      assert Value() == WithEdge(g0, u, v);
      WithEdgeWF(g0, u, v);
    }

    /** `[n for n in dag if dag.in_degree(n) == 0]` */
    method SourceNodes() returns (sources: seq<int>)
      requires Keyed(Value())
      ensures sources == Sources(Value())
    {
      var adj := pred;
      var rest := nodes;
      sources := [];
      while |rest| > 0
        invariant forall m :: m in rest ==> m in adj
        invariant Sources(Value()) == sources + ZeroDegree(adj, rest)
      {
        var n := rest[0];
        ZeroDegreeFirst(adj, rest, sources);
        if |adj[n]| == 0 {
          sources := sources + [n];
        }
        rest := rest[1..];
      }
    }

    /** `[n for n in dag if dag.out_degree(n) == 0]` */
    method SinkNodes() returns (sinks: seq<int>)
      requires Keyed(Value())
      ensures sinks == Sinks(Value())
    {
      var adj := succ;
      var rest := nodes;
      sinks := [];
      while |rest| > 0
        invariant forall m :: m in rest ==> m in adj
        invariant Sinks(Value()) == sinks + ZeroDegree(adj, rest)
      {
        var n := rest[0];
        ZeroDegreeFirst(adj, rest, sinks);
        if |adj[n]| == 0 {
          sinks := sinks + [n];
        }
        rest := rest[1..];
      }
    }
  }
}
