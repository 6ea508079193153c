/**
 * `load_graph`: the rows of one run, in ascending task id order, are turned into a networkx
 * DiGraph. Each row adds its task node and one edge per dependency, and then, still inside the
 * per-row loop, the current in-degree-0 and out-degree-0 nodes are linked from the sentinel
 * -1 ("source") and to the sentinel -2 ("sink").
 */
module TaskGraph {
  import opened Wrappers
  import opened PyText
  import opened NxGraph

  /** One row of the cleaned `task` table; `depends` is None for a NULL cell. */
  datatype TaskRow = TaskRow(
    runId: string,
    taskId: int,
    funcName: string,
    runtime: real,
    depends: Option<string>,
    invoked: string)

  /** The exceptions load_graph lets escape. */
  datatype LoadError =
    | NullDepends(taskId: int)     // `None.split(',')` on a NULL `task_depends`
    | BadDependency(token: string) // `int(d)` on a token that is not an integer

  const SourceId: int := -1
  const SinkId: int := -2
  const SourceAttrs := Attrs(Some("source"), Some(0.0), None)
  const SinkAttrs := Attrs(Some("sink"), Some(0.0), None)

  /** `task_func_name`, `runtime` and `time_invoked` of a row. */
  function TaskAttrs(r: TaskRow): Attrs
  {
    Attrs(Some(r.funcName), Some(r.runtime), Some(r.invoked))
  }

  // ---------------------------------------------------------------------------
  // df[df["run_id"] == run_id].sort_values(by=["task_id"])
  // ---------------------------------------------------------------------------

  function SelectRun(rows: seq<TaskRow>, runId: string): (r: seq<TaskRow>)
    ensures forall x :: x in r <==> x in rows && x.runId == runId
  {
    if |rows| == 0 then []
    else (if rows[0].runId == runId then [rows[0]] else []) + SelectRun(rows[1..], runId)
  }

  predicate SortedByTaskId(rows: seq<TaskRow>)
  {
    forall i, j :: 0 <= i < j < |rows| ==> rows[i].taskId <= rows[j].taskId
  }

  /** Puts x before the first row whose task id is not smaller. */
  function InsertByTaskId(x: TaskRow, sorted: seq<TaskRow>): (r: seq<TaskRow>)
    ensures |r| == |sorted| + 1
  {
    if |sorted| == 0 || x.taskId <= sorted[0].taskId then [x] + sorted
    else [sorted[0]] + InsertByTaskId(x, sorted[1..])
  }

  /** Ascending order of task id; rows with equal ids keep their order. */
  function SortByTaskId(rows: seq<TaskRow>): (r: seq<TaskRow>)
    ensures |r| == |rows|
  {
    if |rows| == 0 then [] else InsertByTaskId(rows[0], SortByTaskId(rows[1..]))
  }

  /** A row whose task id is at most the first one's can go in front of a sorted list. */
  lemma SortedCons(x: TaskRow, sorted: seq<TaskRow>)
    requires SortedByTaskId(sorted) && (|sorted| == 0 || x.taskId <= sorted[0].taskId)
    ensures SortedByTaskId([x] + sorted)
  {
    var r := [x] + sorted;
    forall i, j | 0 <= i < j < |r| ensures r[i].taskId <= r[j].taskId {
      if i == 0 && j > 1 {
        assert r[j] == sorted[j - 1];
      }
    }
  }

  /**
   * Inserting into a sorted list keeps it sorted, adds exactly x, and puts in front either x or
   * the former first row.
   */
  lemma {:induction false} InsertSorted(x: TaskRow, sorted: seq<TaskRow>)
    requires SortedByTaskId(sorted)
    ensures SortedByTaskId(InsertByTaskId(x, sorted))
    ensures multiset(InsertByTaskId(x, sorted)) == multiset(sorted) + multiset{x}
    ensures InsertByTaskId(x, sorted)[0] == x || (|sorted| > 0 && InsertByTaskId(x, sorted)[0] == sorted[0])
    decreases |sorted|
  {
    if |sorted| == 0 || x.taskId <= sorted[0].taskId {
      SortedCons(x, sorted);
    } else {
      var tail := sorted[1..];
      assert SortedByTaskId(tail) by {
        forall i, j | 0 <= i < j < |tail| ensures tail[i].taskId <= tail[j].taskId {
          assert tail[i] == sorted[i + 1] && tail[j] == sorted[j + 1];
        }
      }
      InsertSorted(x, tail);
      var rest := InsertByTaskId(x, tail);
      assert rest[0].taskId >= sorted[0].taskId by {
        if rest[0] != x {
          assert rest[0] == sorted[1];
        }
      }
      SortedCons(sorted[0], rest);
      assert sorted == [sorted[0]] + tail;
      assert multiset(sorted) == multiset{sorted[0]} + multiset(tail);
    }
  }

  /** Sorting yields a sorted permutation of the rows. */
  lemma {:induction false} SortSpec(rows: seq<TaskRow>)
    ensures SortedByTaskId(SortByTaskId(rows))
    ensures multiset(SortByTaskId(rows)) == multiset(rows)
  {
    if |rows| > 0 {
      SortSpec(rows[1..]);
      InsertSorted(rows[0], SortByTaskId(rows[1..]));
      assert rows == [rows[0]] + rows[1..];
    }
  }

  /** The rows load_graph iterates over. */
  function RunRows(rows: seq<TaskRow>, runId: string): seq<TaskRow>
  {
    SortByTaskId(SelectRun(rows, runId))
  }

  /** The rows iterated are sorted by task id and are exactly the rows of the run. */
  lemma RunRowsSpec(rows: seq<TaskRow>, runId: string)
    ensures SortedByTaskId(RunRows(rows, runId))
    ensures multiset(RunRows(rows, runId)) == multiset(SelectRun(rows, runId))
    ensures forall x :: x in RunRows(rows, runId) <==> x in rows && x.runId == runId
  {
    var sel := SelectRun(rows, runId);
    var run := RunRows(rows, runId);
    SortSpec(sel);
    assert forall x :: x in run <==> x in multiset(run);
    assert forall x :: x in sel <==> x in multiset(sel);
  }

  // ---------------------------------------------------------------------------
  // The per-row loop body
  // ---------------------------------------------------------------------------

  /** `for d in depends_on: dag.add_edge(int(d), task_id)` */
  function AddDependencies(g: Graph, tokens: seq<string>, t: int): (r: Result<Graph, LoadError>)
    requires Keyed(g)
    ensures r.Success? ==> Keyed(r.value)
    decreases |tokens|
  {
    if |tokens| == 0 then Success(g)
    else match ParseInt(tokens[0])
      case None => Failure(BadDependency(tokens[0]))
      case Some(d) => AddDependencies(WithEdge(g, d, t), tokens[1..], t)
  }

  /** `for s in sources: dag.add_edge(u, s)` */
  function LinkFrom(g: Graph, u: int, vs: seq<int>): (r: Graph)
    requires Keyed(g)
    ensures Keyed(r)
    decreases |vs|
  {
    if |vs| == 0 then g else LinkFrom(WithEdge(g, u, vs[0]), u, vs[1..])
  }

  /** `for t in sinks: dag.add_edge(t, v)` */
  function LinkTo(g: Graph, us: seq<int>, v: int): (r: Graph)
    requires Keyed(g)
    ensures Keyed(r)
    decreases |us|
  {
    if |us| == 0 then g else LinkTo(WithEdge(g, us[0], v), us[1..], v)
  }

  /** `dag.add_node(-1, ...)` and `dag.add_node(-2, ...)` */
  function WithSentinels(g: Graph): (r: Graph)
    requires Keyed(g)
    ensures Keyed(r)
  {
    WithNode(WithNode(g, SourceId, SourceAttrs), SinkId, SinkAttrs)
  }

  /** Sources and sinks of g are computed first, then the sentinel nodes and edges are added. */
  function Attach(g: Graph): (r: Graph)
    requires Keyed(g)
    ensures Keyed(r)
  {
    LinkTo(LinkFrom(WithSentinels(g), SourceId, Sources(g)), Sinks(g), SinkId)
  }

  /** One iteration of the loop over the run's rows. */
  function Step(g: Graph, r: TaskRow): (res: Result<Graph, LoadError>)
    requires Keyed(g)
    ensures res.Success? ==> Keyed(res.value)
  {
    match r.depends
    case None => Failure(NullDepends(r.taskId))
    case Some(depends) =>
      var tokens := DependencyTokens(depends);
      match AddDependencies(WithNode(g, r.taskId, TaskAttrs(r)), tokens, r.taskId)
      case Failure(e) => Failure(e)
      case Success(g2) => Success(Attach(g2))
  }

  /** The remaining iterations of the loop, from graph g on. */
  function BuildFrom(g: Graph, rows: seq<TaskRow>): (res: Result<Graph, LoadError>)
    requires Keyed(g)
    ensures res.Success? ==> Keyed(res.value)
    decreases |rows|
  {
    if |rows| == 0 then Success(g)
    else match Step(g, rows[0])
      case Failure(e) => Failure(e)
      case Success(g1) => BuildFrom(g1, rows[1..])
  }

  /** What load_graph returns: None, an escaping exception, or the graph. */
  datatype BuildResult = NoGraph | BuildFailed(error: LoadError) | Built(graph: Graph)

  function BuildGraph(rows: seq<TaskRow>, runId: string): BuildResult
  {
    var run := RunRows(rows, runId);
    if |run| == 0 then NoGraph
    else match BuildFrom(Empty, run)
      case Failure(e) => BuildFailed(e)
      case Success(g) => Built(g)
  }

  // ---------------------------------------------------------------------------
  // load_graph on the mutable DiGraph
  // ---------------------------------------------------------------------------

  datatype LoadResult = NoDag | LoadFailed(error: LoadError) | Loaded(dag: DiGraph)

  /** The value a LoadResult stands for. */
  function Observed(res: LoadResult): BuildResult
    reads if res.Loaded? then {res.dag} else {}
  {
    match res
    case NoDag => NoGraph
    case LoadFailed(e) => BuildFailed(e)
    case Loaded(dag) => Built(dag.Value())
  }

  /** `for d in depends_on: dag.add_edge(int(d), task_id)`, stopping at the first bad token. */
  method AddDependencyEdges(dag: DiGraph, tokens: seq<string>, t: int) returns (err: Option<LoadError>)
    requires dag.Valid()
    modifies dag
    ensures dag.Valid()
    ensures match AddDependencies(old(dag.Value()), tokens, t)
      case Failure(e) => err == Some(e)
      case Success(g) => err == None && dag.Value() == g
  {
    var j := 0;
    while j < |tokens|
      invariant 0 <= j <= |tokens|
      invariant dag.Valid()
      invariant AddDependencies(old(dag.Value()), tokens, t) == AddDependencies(dag.Value(), tokens[j..], t)
    {
      assert tokens[j..][1..] == tokens[j + 1..];
      var d := ParseInt(tokens[j]);
      if d.None? {
        return Some(BadDependency(tokens[j]));
      }
      dag.AddEdge(d.value, t);
      j := j + 1;
    }
    return None;
  }

  /** Recomputes sources and sinks and links them to the sentinels. */
  method AttachSentinels(dag: DiGraph)
    requires dag.Valid()
    modifies dag
    ensures dag.Valid() && dag.Value() == Attach(old(dag.Value()))
  {
    var sources := dag.SourceNodes();
    var sinks := dag.SinkNodes();
    dag.AddNode(SourceId, SourceAttrs);
    dag.AddNode(SinkId, SinkAttrs);
    ghost var g1 := dag.Value();
    var k := 0;
    while k < |sources|
      invariant 0 <= k <= |sources|
      invariant dag.Valid()
      invariant LinkFrom(g1, SourceId, sources) == LinkFrom(dag.Value(), SourceId, sources[k..])
    {
      assert sources[k..][1..] == sources[k + 1..];
      dag.AddEdge(SourceId, sources[k]);
      k := k + 1;
    }
    ghost var g2 := dag.Value();
    k := 0;
    while k < |sinks|
      invariant 0 <= k <= |sinks|
      invariant dag.Valid()
      invariant LinkTo(g2, sinks, SinkId) == LinkTo(dag.Value(), sinks[k..], SinkId)
    {
      assert sinks[k..][1..] == sinks[k + 1..];
      dag.AddEdge(sinks[k], SinkId);
      k := k + 1;
    }
  }

  /** The body of load_graph's loop for one row: its node, its dependency edges, the sentinels. */
  method AddRow(dag: DiGraph, r: TaskRow) returns (err: Option<LoadError>)
    requires dag.Valid()
    modifies dag
    ensures dag.Valid()
    ensures match Step(old(dag.Value()), r)
      case Failure(e) => err == Some(e)
      case Success(g) => err == None && dag.Value() == g
  {
    if r.depends.None? {
      return Some(NullDepends(r.taskId));
    }
    var tokens := DependencyTokens(r.depends.value);
    dag.AddNode(r.taskId, TaskAttrs(r));
    err := AddDependencyEdges(dag, tokens, r.taskId);
    if err.None? {
      AttachSentinels(dag);
    }
  }

  /** `load_graph(run_id, df)` */
  method LoadGraph(rows: seq<TaskRow>, runId: string) returns (res: LoadResult)
    ensures res.Loaded? ==> fresh(res.dag) && res.dag.Valid()
    ensures Observed(res) == BuildGraph(rows, runId)
  {
    var run := RunRows(rows, runId);
    if |run| == 0 {
      return NoDag;
    }
    res := BuildDag(run);
  }

  /** The loop of load_graph: a fresh DiGraph, then one AddRow per row until one raises. */
  method BuildDag(run: seq<TaskRow>) returns (res: LoadResult)
    ensures BuildFrom(Empty, run).Failure? ==> res == LoadFailed(BuildFrom(Empty, run).error)
    ensures BuildFrom(Empty, run).Success? ==>
      res.Loaded? && fresh(res.dag) && res.dag.Valid() && res.dag.Value() == BuildFrom(Empty, run).value
  {
    var dag := new DiGraph();
    var i := 0;
    while i < |run|
      invariant 0 <= i <= |run|
      invariant fresh(dag) && dag.Valid()
      invariant BuildFrom(Empty, run) == BuildFrom(dag.Value(), run[i..])
    {
      ghost var before := dag.Value();
      assert run[i..][1..] == run[i + 1..];
      var err := AddRow(dag, run[i]);
      if err.Some? {
        assert BuildFrom(before, run[i..]) == Failure(err.value);
        return LoadFailed(err.value);
      }
      assert BuildFrom(before, run[i..]) == BuildFrom(dag.Value(), run[i + 1..]);
      i := i + 1;
    }
    assert run[i..] == [];
    return Loaded(dag);
  }
}
