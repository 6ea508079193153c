// A worked run of load_graph: task 1 without dependencies, then task 2 depending on 1,
// given out of order; plus the dependency-string cases ("", "1,,3", a bad token).
module TaskGraphExample {
  import opened Wrappers
  import opened PyText
  import opened NxGraph
  import opened TaskGraph

  /** Task 1 has an empty dependency string; task 2 depends on task 1. */
  const R1 := TaskRow("R", 1, "f", 2.0, Some(""), "t1")
  const R2 := TaskRow("R", 2, "g", 3.0, Some("1"), "t2")

  lemma SelectSort()
    ensures RunRows([R2, R1], "R") == [R1, R2]
  {
    assert [R2, R1][1..] == [R1];
    assert [R1][1..] == [];
    assert SelectRun([R1], "R") == [R1];
    assert SelectRun([R2, R1], "R") == [R2, R1];
    assert [R1][1..] == [];
    assert SortByTaskId([R1]) == [R1];
    assert SortByTaskId([R2, R1]) == InsertByTaskId(R2, [R1]);
    assert [R1][1..] == [];
    assert InsertByTaskId(R2, []) == [R2];
  }

  lemma TokenExamples()
    ensures DependencyTokens("") == []
    ensures DependencyTokens("1") == ["1"]
    ensures ParseInt("1") == Some(1)
  {
    assert Split("", ',') == [""];
    assert [""][1..] == [];
    assert "1"[1..] == "";
    assert "1"[0] == '1';
    assert Split("1"[1..], ',') == [""];
    assert ['1'] + "" == "1";
    assert Split("1", ',') == ["1"];
    assert ["1"][1..] == [];
    assert StripLeft("1") == "1";
    assert StripRight("1") == "1";
    assert "1"[..0] == "";
    assert DigitsValue("1") == 1;
  }

  /** Attributes after the first row, and after the second. */
  const Attrs1 := map[1 := TaskAttrs(R1), -1 := SourceAttrs, -2 := SinkAttrs]
  const Attrs2 := Attrs1[2 := TaskAttrs(R2)]

  /** The first row: A1 after add_node, W0 after the sentinel nodes, W1 after -1 -> 1, G1 at the end. */
  const A1 := Graph([1], map[1 := TaskAttrs(R1)], map[1 := []], map[1 := []])
  const W0 := Graph([1, -1, -2], Attrs1, map[1 := [], -1 := [], -2 := []], map[1 := [], -1 := [], -2 := []])
  const W1 := W0.(succ := W0.succ[-1 := [1]], pred := W0.pred[1 := [-1]])
  const G1 := W1.(succ := W1.succ[1 := [-2]], pred := W1.pred[-2 := [1]])

  /** The second row: B0 after add_node, B1 after 1 -> 2, B2 after -1 -> -1, B3 after -2 -> -2, G2 at the end. */
  const B0 := Graph([1, -1, -2, 2], Attrs2, G1.succ[2 := []], G1.pred[2 := []])
  const B1 := B0.(succ := B0.succ[1 := [-2, 2]], pred := B0.pred[2 := [1]])
  const B2 := B1.(succ := B1.succ[-1 := [1, -1]], pred := B1.pred[-1 := [-1]])
  const B3 := B2.(succ := B2.succ[-2 := [-2]], pred := B2.pred[-2 := [1, -2]])
  const G2 := B3.(succ := B3.succ[2 := [-2]], pred := B3.pred[-2 := [1, -2, 2]])

  lemma Append0(y: int)
    ensures [] + [y] == [y]
  {
  }

  lemma Append1(x: int, y: int)
    ensures [x] + [y] == [x, y]
  {
  }

  lemma Append2(x: int, y: int, z: int)
    ensures [x, y] + [z] == [x, y, z]
  {
  }

  lemma Append3(x: int, y: int, z: int, w: int)
    ensures [x, y, z] + [w] == [x, y, z, w]
  {
  }

  /** A new edge between two present nodes is appended to the given lists on both sides. */
  lemma FreshEdgeAt(g: Graph, u: int, v: int, su: seq<int>, pv: seq<int>)
    requires Keyed(g) && u in g.succ && v in g.succ
    requires g.succ[u] == su && g.pred[v] == pv && v !in su
    ensures WithEdge(g, u, v) == g.(succ := g.succ[u := su + [v]], pred := g.pred[v := pv + [u]])
  {
    FreshEdge(g, u, v);
  }

  /** A new edge between two present nodes is appended on both sides. */
  lemma FreshEdge(g: Graph, u: int, v: int)
    requires Keyed(g) && u in g.succ && v in g.succ && v !in g.succ[u]
    ensures WithEdge(g, u, v) == Link(g, u, v)
  {
    assert WithBareNode(g, u) == g;
    assert WithBareNode(g, v) == g;
  }

  lemma FirstSentinels()
    ensures Keyed(A1) && WithSentinels(A1) == W0 && Keyed(W0)
  {
    assert A1.attrs.Keys == {1};
  }

  lemma FirstLinkSource()
    ensures Keyed(W0) && WithEdge(W0, -1, 1) == W1 && Keyed(W1)
  {
    FirstSentinels();
    FreshEdge(W0, -1, 1);
    Append0(1);
    Append0(-1);
  }

  lemma FirstLinkSink()
    ensures Keyed(W1) && WithEdge(W1, 1, -2) == G1 && Keyed(G1)
  {
    FirstLinkSource();
    FreshEdge(W1, 1, -2);
    Append0(-2);
    Append0(1);
  }

  lemma FirstAttach()
    ensures Keyed(A1) && Attach(A1) == G1
  {
    FirstSentinels();
    FirstLinkSource();
    FirstLinkSink();
    ZeroDegreeOne(A1.pred, 1);
    ZeroDegreeOne(A1.succ, 1);
    LinkFromOne(W0, -1, 1);
    LinkToOne(W1, 1, -2);
    AttachBy(A1, [1], [1], W0, G1);
  }

  lemma FirstRow()
    ensures Step(Empty, R1) == Success(G1) && Keyed(G1)
  {
    TokenExamples();
    FirstAttach();
    FirstNode();
    StepWithoutDependencies(Empty, R1, A1, G1);
  }

  /** A row with no dependency tokens adds its node and attaches the sentinels. */
  lemma StepWithoutDependencies(g: Graph, r: TaskRow, a: Graph, h: Graph)
    requires Keyed(g) && Keyed(a)
    requires r.depends.Some? && DependencyTokens(r.depends.value) == []
    requires WithNode(g, r.taskId, TaskAttrs(r)) == a && Attach(a) == h
    ensures Step(g, r) == Success(h)
  {
  }

  lemma FirstNode()
    ensures WithNode(Empty, 1, TaskAttrs(R1)) == A1
  {
  }

  lemma SecondNode()
    ensures Keyed(G1) && WithNode(G1, 2, TaskAttrs(R2)) == B0 && Keyed(B0)
  {
    FirstLinkSink();
    assert 2 !in G1.succ;
    Append3(1, -1, -2, 2);
  }

  lemma SecondDependency()
    ensures Keyed(B0) && WithEdge(B0, 1, 2) == B1 && Keyed(B1)
  {
    SecondNode();
    FreshEdgeAt(B0, 1, 2, [-2], []);
    Append1(-2, 2);
    Append0(1);
  }

  lemma SecondLinkSource()
    ensures Keyed(B1) && WithEdge(B1, -1, -1) == B2 && Keyed(B2)
  {
    SecondDependency();
    SecondSuccessors();
    SecondPredecessors();
    FreshEdgeAt(B1, -1, -1, [1], []);
    Append1(1, -1);
    Append0(-1);
  }

  lemma SecondLinkSinkSelf()
    ensures Keyed(B2) && WithEdge(B2, -2, -2) == B3 && Keyed(B3)
  {
    SecondLinkSource();
    SecondSuccessors();
    SecondPredecessors();
    FreshEdgeAt(B2, -2, -2, [], [1]);
    Append0(-2);
    Append1(1, -2);
  }

  lemma SecondLinkSink()
    ensures Keyed(B3) && WithEdge(B3, 2, -2) == G2 && Keyed(G2)
  {
    SecondLinkSinkSelf();
    SecondSuccessors();
    FreshEdgeAt(B3, 2, -2, [], [1, -2]);
    Append0(-2);
    Append2(1, -2, 2);
  }

  /** The adjacency lists after the dependency edge of the second row. */
  lemma SecondSuccessors()
    ensures B1.succ.Keys == {1, -1, -2, 2}
    ensures B1.succ[1] == [-2, 2] && B1.succ[-1] == [1] && B1.succ[-2] == [] && B1.succ[2] == []
  {
  }

  lemma SecondPredecessors()
    ensures B1.pred.Keys == {1, -1, -2, 2}
    ensures B1.pred[1] == [-1] && B1.pred[-1] == [] && B1.pred[-2] == [1] && B1.pred[2] == [1]
  {
  }

  /** ZeroDegree over a single node. */
  lemma ZeroDegreeOne(adj: map<int, seq<int>>, n: int)
    requires n in adj
    ensures ZeroDegree(adj, [n]) == if |adj[n]| == 0 then [n] else []
  {
    assert [n][1..] == [];
  }

  /** ZeroDegree over the four nodes [1, -1, -2, 2], one node at a time. */
  lemma ZeroDegreeFour(adj: map<int, seq<int>>)
    requires adj.Keys == {1, -1, -2, 2}
    ensures ZeroDegree(adj, [1, -1, -2, 2]) ==
      (if |adj[1]| == 0 then [1] else []) + ((if |adj[-1]| == 0 then [-1] else []) +
      ((if |adj[-2]| == 0 then [-2] else []) + (if |adj[2]| == 0 then [2] else [])))
  {
    var z2 := if |adj[2]| == 0 then [2] else [];
    var z3 := (if |adj[-2]| == 0 then [-2] else []) + z2;
    ZeroDegreeOne(adj, 2);
    assert [-2, 2][1..] == [2];
    assert ZeroDegree(adj, [-2, 2]) == z3;
    assert [-1, -2, 2][1..] == [-2, 2];
    assert ZeroDegree(adj, [-1, -2, 2]) == (if |adj[-1]| == 0 then [-1] else []) + z3;
    assert [1, -1, -2, 2][1..] == [-1, -2, 2];
  }

  lemma SecondSources()
    ensures Keyed(B1) && Sources(B1) == [-1]
  {
    SecondDependency();
    SecondPredecessors();
    ZeroDegreeFour(B1.pred);
  }

  lemma SecondSinks()
    ensures Keyed(B1) && Sinks(B1) == [-2, 2]
  {
    SecondDependency();
    SecondSuccessors();
    ZeroDegreeFour(B1.succ);
  }

  lemma SecondSentinels()
    ensures Keyed(B1) && WithSentinels(B1) == B1
  {
    SecondDependency();
    WithNodeSame(B1, -1, SourceAttrs);
    WithNodeSame(B1, -2, SinkAttrs);
  }

  /** Giving a node the attributes it already has changes nothing. */
  lemma WithNodeSame(g: Graph, n: int, a: Attrs)
    requires Keyed(g) && n in g.attrs && g.attrs[n] == a
    ensures WithNode(g, n, a) == g
  {
    assert Update(a, a) == a;
    assert g.attrs[n := a] == g.attrs;
  }

  lemma SecondDependencies()
    ensures Keyed(B0) && AddDependencies(B0, ["1"], 2) == Success(B1)
  {
    TokenExamples();
    SecondDependency();
    OneDependency(B0, "1", 1, 2);
  }

  /** A single dependency token that parses adds one edge. */
  lemma OneDependency(g: Graph, token: string, d: int, t: int)
    requires Keyed(g) && ParseInt(token) == Some(d)
    ensures AddDependencies(g, [token], t) == Success(WithEdge(g, d, t))
  {
    assert [token][1..] == [];
  }

  lemma SecondAttach()
    ensures Keyed(B1) && Attach(B1) == G2
  {
    SecondSources();
    SecondSinks();
    SecondSentinels();
    SecondLinkSource();
    SecondLinkSinkSelf();
    SecondLinkSink();
    LinkFromOne(B1, -1, -1);
    LinkToTwo(B2, -2, 2, -2);
    AttachBy(B1, [-1], [-2, 2], B1, G2);
  }

  /** Attach spelled out from its parts. */
  lemma AttachBy(g: Graph, sources: seq<int>, sinks: seq<int>, w: Graph, h: Graph)
    requires Keyed(g) && Keyed(w)
    requires Sources(g) == sources && Sinks(g) == sinks && WithSentinels(g) == w
    requires LinkTo(LinkFrom(w, SourceId, sources), sinks, SinkId) == h
    ensures Attach(g) == h
  {
  }

  lemma LinkFromOne(g: Graph, u: int, v: int)
    requires Keyed(g)
    ensures LinkFrom(g, u, [v]) == WithEdge(g, u, v)
  {
    assert [v][1..] == [];
  }

  lemma LinkToOne(g: Graph, u: int, v: int)
    requires Keyed(g)
    ensures LinkTo(g, [u], v) == WithEdge(g, u, v)
  {
    assert [u][1..] == [];
  }

  lemma LinkToTwo(g: Graph, u1: int, u2: int, v: int)
    requires Keyed(g)
    ensures LinkTo(g, [u1, u2], v) == WithEdge(WithEdge(g, u1, v), u2, v)
  {
    assert [u1, u2][1..] == [u2];
    LinkToOne(WithEdge(g, u1, v), u2, v);
  }

  lemma SecondRow()
    ensures Keyed(G1) && Step(G1, R2) == Success(G2)
  {
    TokenExamples();
    SecondNode();
    SecondDependencies();
    SecondAttach();
  }

  lemma BuildRows()
    ensures BuildFrom(Empty, [R1, R2]) == Success(G2)
  {
    FirstRow();
    SecondRow();
    BuildTwo(Empty, R1, R2, G1, G2);
  }

  lemma BuildTwo(g0: Graph, r1: TaskRow, r2: TaskRow, g1: Graph, g2: Graph)
    requires Keyed(g0) && Keyed(g1)
    requires Step(g0, r1) == Success(g1) && Step(g1, r2) == Success(g2)
    ensures BuildFrom(g0, [r1, r2]) == Success(g2)
  {
    BuildOne(g0, [r1, r2], g1);
    assert [r1, r2][1..] == [r2];
    BuildOne(g1, [r2], g2);
    assert [r2][1..] == [];
  }

  /** One iteration of the loop, spelled out. */
  lemma BuildOne(g: Graph, rows: seq<TaskRow>, h: Graph)
    requires Keyed(g) && |rows| > 0 && Step(g, rows[0]) == Success(h)
    ensures BuildFrom(g, rows) == BuildFrom(h, rows[1..])
  {
  }

  lemma FinalSuccessors()
    ensures G2.succ.Keys == {1, -1, -2, 2}
    ensures G2.succ[1] == [-2, 2] && G2.succ[-1] == [1, -1] && G2.succ[-2] == [-2] && G2.succ[2] == [-2]
  {
  }

  lemma ExampleEdges()
    ensures Edges(G2) == {(-1, 1), (1, -2), (1, 2), (-1, -1), (-2, -2), (2, -2)}
  {
    var e := {(-1, 1), (1, -2), (1, 2), (-1, -1), (-2, -2), (2, -2)};
    FinalSuccessors();
    forall p | p in Edges(G2) ensures p in e {
      EdgeMember(G2, p);
      assert p.0 in G2.succ.Keys;
    }
    forall p | p in e ensures p in Edges(G2) {
      EdgeMember(G2, p);
    }
  }

  /** The two rows, given in reverse order, build nodes [1, -1, -2, 2] with exactly these six edges. */
  lemma WorkedExample()
    ensures BuildGraph([R2, R1], "R") == Built(G2)
    ensures G2.nodes == [1, -1, -2, 2]
    ensures Edges(G2) == {(-1, 1), (1, -2), (1, 2), (-1, -1), (-2, -2), (2, -2)}
  {
    SelectSort();
    BuildRows();
    ExampleEdges();
  }

  lemma SplitAtSeparator(s: string)
    ensures Split([','] + s, ',') == [""] + Split(s, ',')
  {
    assert ([','] + s)[1..] == s;
  }

  lemma SplitAtChar(c: char, s: string)
    requires c != ','
    ensures Split([c] + s, ',') == [[c] + Split(s, ',')[0]] + Split(s, ',')[1..]
  {
    assert ([c] + s)[1..] == s;
  }

  lemma SplitExamplePieces(depends: string)
    requires depends == "1,,3"
    ensures Split(depends, ',') == ["1", "", "3"]
  {
    assert Split("", ',') == [""];
    SplitAtChar('3', "");
    assert ['3'] + "" == "3";
    SplitAtSeparator("3");
    assert [','] + "3" == ",3";
    SplitAtSeparator(",3");
    assert [','] + ",3" == ",,3";
    SplitAtChar('1', ",,3");
    assert ['1'] + ",,3" == "1,,3";
    assert ['1'] + "" == "1";
  }

  /** `"1,,3"` gives the tokens "1" and "3": the empty token between the commas is dropped. */
  lemma SplitExample(depends: string)
    requires depends == "1,,3"
    ensures DependencyTokens(depends) == ["1", "3"]
  {
    SplitExamplePieces(depends);
    var pieces := ["1", "", "3"];
    assert pieces[1..][1..] == ["3"] && ["3"][1..] == [];
    assert NonEmpty(["3"]) == ["3"];
    assert NonEmpty(pieces[1..]) == ["3"];
    assert NonEmpty(pieces) == ["1"] + ["3"];
    TwoTokens("1", "3");
  }

  lemma TwoTokens(a: string, b: string)
    ensures [a] + [b] == [a, b]
  {
  }

  /** A row whose second dependency token is not an integer. */
  const R3 := TaskRow("R", 3, "h", 1.0, Some("1,x"), "t3")

  lemma BadTokens()
    ensures DependencyTokens("1,x") == ["1", "x"]
  {
    assert ",x"[1..] == "x";
    assert "x"[1..] == "";
    assert "x"[0] == 'x';
    assert ['x'] + "" == "x";
    assert Split("x", ',') == ["x"];
    assert Split(",x", ',') == ["", "x"];
    assert "1,x"[1..] == ",x";
    assert "1,x"[0] == '1';
    assert ['1'] + "" == "1";
    assert Split("1,x", ',') == ["1", "x"];
    assert ["1", "x"][1..] == ["x"];
    assert ["x"][1..] == [];
  }

  lemma BadParse()
    ensures ParseInt("x") == None
  {
    assert StripLeft("x") == "x";
    assert StripRight("x") == "x";
  }

  /** `int("\x1c7")` raises: the separator 0x1C is not white space to `int()`. */
  lemma SeparatorParse()
    ensures ParseInt("\U{1C}7") == None
  {
    var token := "\U{1C}7";
    assert !NumeralChar(token[0]);
  }

  lemma BadTokenExample()
    ensures Step(Empty, R3) == Failure(BadDependency("x"))
  {
    BadTokens();
    var a := WithNode(Empty, 3, TaskAttrs(R3));
    GoodTokenHead(a);
    BadTokenTail(WithEdge(a, 1, 3));
    StepFails(Empty, R3, BadDependency("x"));
  }

  lemma StepFails(g: Graph, r: TaskRow, e: LoadError)
    requires Keyed(g) && r.depends.Some?
    requires AddDependencies(WithNode(g, r.taskId, TaskAttrs(r)), DependencyTokens(r.depends.value), r.taskId) == Failure(e)
    ensures Step(g, r) == Failure(e)
  {
  }

  lemma GoodTokenHead(g: Graph)
    requires Keyed(g)
    ensures AddDependencies(g, ["1", "x"], 3) == AddDependencies(WithEdge(g, 1, 3), ["x"], 3)
  {
    TokenExamples();
    assert ["1", "x"][1..] == ["x"];
  }

  lemma BadTokenTail(g: Graph)
    requires Keyed(g)
    ensures AddDependencies(g, ["x"], 3) == Failure(BadDependency("x"))
  {
    BadParse();
  }
}
