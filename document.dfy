/**
 * `create_wfcommon`: the graph of one run is walked in node insertion order, and every node
 * gives one WfCommons specification entry (name, id, parents, children) and one execution entry
 * (name, id, runtime). The workflow row of the run supplies the document's name, creation time
 * and makespan.
 */
module WfDocument {
  import opened Wrappers
  import opened PyText
  import opened NxGraph
  import opened TaskGraph
  import opened TaskGraphProperties

  /** An entry of `workflow.specification.tasks`. */
  datatype SpecTask = SpecTask(name: string, id: string, parents: seq<string>, children: seq<string>)

  /** An entry of `workflow.execution.tasks`. */
  datatype ExecTask = ExecTask(name: string, id: string, runtime: real)

  /** The two lists the walk appends to. */
  datatype Walked = Walked(tasks: seq<SpecTask>, execs: seq<ExecTask>)

  /** The attribute whose lookup raised a KeyError. */
  datatype Key = FuncName | Runtime

  datatype WalkError = MissingKey(node: int, key: Key)

  /** `[str(i) for i in ns]` */
  function Stringify(ns: seq<int>): (r: seq<string>)
    ensures |r| == |ns|
  {
    if |ns| == 0 then [] else [IntToString(ns[0])] + Stringify(ns[1..])
  }

  /** Position by position, the strings are the decimal forms of the ids. */
  lemma {:induction false} StringifyAt(ns: seq<int>)
    ensures forall k :: 0 <= k < |ns| ==> Stringify(ns)[k] == IntToString(ns[k])
  {
    if |ns| > 0 {
      StringifyAt(ns[1..]);
      assert forall k :: 1 <= k < |ns| ==> ns[k] == ns[1..][k - 1];
    }
  }

  /** Position by position, the strings are the decimal forms of the ids and read back as them. */
  lemma StringifyElements(ns: seq<int>)
    ensures forall k :: 0 <= k < |ns| ==> Stringify(ns)[k] == IntToString(ns[k])
    ensures forall k :: 0 <= k < |ns| ==> ParseInt(Stringify(ns)[k]) == Some(ns[k])
  {
    StringifyAt(ns);
    forall k | 0 <= k < |ns| ensures ParseInt(Stringify(ns)[k]) == Some(ns[k]) {
      ParseIntToString(ns[k]);
    }
  }

  /** Both `task_func_name` and `runtime` can be looked up on node n. */
  predicate Complete(g: Graph, n: int)
    requires n in g.attrs
  {
    g.attrs[n].name.Some? && g.attrs[n].runtime.Some?
  }

  /** The error the entries of an incomplete node raise: the name is looked up first. */
  function MissingOf(g: Graph, n: int): WalkError
    requires n in g.attrs
  {
    MissingKey(n, if g.attrs[n].name.None? then FuncName else Runtime)
  }

  /** The specification entry of a complete node. */
  function SpecEntry(g: Graph, n: int): SpecTask
    requires Keyed(g) && n in g.attrs && Complete(g, n)
  {
    SpecTask(g.attrs[n].name.value, IntToString(n), Stringify(g.pred[n]), Stringify(g.succ[n]))
  }

  /** The execution entry of a complete node. */
  function ExecEntry(g: Graph, n: int): ExecTask
    requires n in g.attrs && Complete(g, n)
  {
    ExecTask(g.attrs[n].name.value, IntToString(n), g.attrs[n].runtime.value)
  }

  /** The loop from the nodes `ns` on, with the entries `acc` already appended. */
  function WalkFrom(g: Graph, ns: seq<int>, acc: Walked): Result<Walked, WalkError>
    requires Keyed(g) && forall n :: n in ns ==> n in g.attrs
  {
    if |ns| == 0 then Success(acc)
    else if !Complete(g, ns[0]) then Failure(MissingOf(g, ns[0]))
    else WalkFrom(g, ns[1..], Walked(acc.tasks + [SpecEntry(g, ns[0])], acc.execs + [ExecEntry(g, ns[0])]))
  }

  /** `for id, n in dag.nodes(data=True): ...` */
  function Walk(g: Graph): Result<Walked, WalkError>
    requires Keyed(g)
  {
    WalkFrom(g, g.nodes, Walked([], []))
  }

  /** The loop completes exactly when every node is complete. */
  lemma {:induction false} WalkFromOutcome(g: Graph, ns: seq<int>, acc: Walked)
    requires Keyed(g) && forall n :: n in ns ==> n in g.attrs
    ensures WalkFrom(g, ns, acc).Success? <==> forall n :: n in ns ==> Complete(g, n)
    decreases |ns|
  {
    if |ns| > 0 {
      assert forall n :: n in ns <==> n == ns[0] || n in ns[1..];
      if Complete(g, ns[0]) {
        WalkFromOutcome(g, ns[1..], Walked(acc.tasks + [SpecEntry(g, ns[0])], acc.execs + [ExecEntry(g, ns[0])]));
      }
    }
  }

  /** When the loop raises, it is for the first incomplete node. */
  lemma {:induction false} WalkFromError(g: Graph, ns: seq<int>, acc: Walked)
    requires Keyed(g) && forall n :: n in ns ==> n in g.attrs
    requires WalkFrom(g, ns, acc).Failure?
    ensures exists k :: (0 <= k < |ns| && !Complete(g, ns[k]) && WalkFrom(g, ns, acc).error == MissingOf(g, ns[k])
      && forall j :: 0 <= j < k ==> Complete(g, ns[j]))
    decreases |ns|
  {
    if Complete(g, ns[0]) {
      var rest := ns[1..];
      var acc1 := Walked(acc.tasks + [SpecEntry(g, ns[0])], acc.execs + [ExecEntry(g, ns[0])]);
      assert forall n :: n in rest ==> n in ns;
      assert WalkFrom(g, ns, acc) == WalkFrom(g, rest, acc1);
      WalkFromError(g, rest, acc1);
      var k :| 0 <= k < |rest| && !Complete(g, rest[k]) && WalkFrom(g, rest, acc1).error == MissingOf(g, rest[k])
        && forall j :: 0 <= j < k ==> Complete(g, rest[j]);
      forall j | 0 <= j < k + 1 ensures Complete(g, ns[j]) {
        if j > 0 {
          assert ns[j] == rest[j - 1];
        }
      }
      assert ns[k + 1] == rest[k];
    } else {
      assert !Complete(g, ns[0]) && WalkFrom(g, ns, acc).error == MissingOf(g, ns[0]);
    }
  }

  /** The specification entries of complete nodes, in order. */
  function SpecEntries(g: Graph, ns: seq<int>): (r: seq<SpecTask>)
    requires Keyed(g) && forall n :: n in ns ==> n in g.attrs && Complete(g, n)
    ensures |r| == |ns|
  {
    if |ns| == 0 then [] else [SpecEntry(g, ns[0])] + SpecEntries(g, ns[1..])
  }

  /** The execution entries of complete nodes, in order. */
  function ExecEntries(g: Graph, ns: seq<int>): (r: seq<ExecTask>)
    requires forall n :: n in ns ==> n in g.attrs && Complete(g, n)
    ensures |r| == |ns|
  {
    if |ns| == 0 then [] else [ExecEntry(g, ns[0])] + ExecEntries(g, ns[1..])
  }

  /** Position k of the specification entries is the entry of the k-th node. */
  lemma {:induction false} SpecEntriesAt(g: Graph, ns: seq<int>)
    requires Keyed(g) && forall n :: n in ns ==> n in g.attrs && Complete(g, n)
    ensures forall k :: 0 <= k < |ns| ==> SpecEntries(g, ns)[k] == SpecEntry(g, ns[k])
  {
    if |ns| > 0 {
      assert forall n :: n in ns[1..] ==> n in ns;
      SpecEntriesAt(g, ns[1..]);
      var tail := SpecEntries(g, ns[1..]);
      assert SpecEntries(g, ns) == [SpecEntry(g, ns[0])] + tail;
      forall k | 0 <= k < |ns| ensures SpecEntries(g, ns)[k] == SpecEntry(g, ns[k]) {
        if k > 0 {
          assert SpecEntries(g, ns)[k] == tail[k - 1];
          assert ns[k] == ns[1..][k - 1];
        }
      }
    }
  }

  /** Position k of the execution entries is the entry of the k-th node. */
  lemma {:induction false} ExecEntriesAt(g: Graph, ns: seq<int>)
    requires forall n :: n in ns ==> n in g.attrs && Complete(g, n)
    ensures forall k :: 0 <= k < |ns| ==> ExecEntries(g, ns)[k] == ExecEntry(g, ns[k])
  {
    if |ns| > 0 {
      assert forall n :: n in ns[1..] ==> n in ns;
      ExecEntriesAt(g, ns[1..]);
      var tail := ExecEntries(g, ns[1..]);
      assert ExecEntries(g, ns) == [ExecEntry(g, ns[0])] + tail;
      forall k | 0 <= k < |ns| ensures ExecEntries(g, ns)[k] == ExecEntry(g, ns[k]) {
        if k > 0 {
          assert ExecEntries(g, ns)[k] == tail[k - 1];
          assert ns[k] == ns[1..][k - 1];
        }
      }
    }
  }

  /** Over complete nodes the loop completes, appending the nodes' entries to both lists. */
  lemma {:induction false} WalkFromAppends(g: Graph, ns: seq<int>, acc: Walked)
    requires Keyed(g) && forall n :: n in ns ==> n in g.attrs && Complete(g, n)
    ensures WalkFrom(g, ns, acc) ==
      Success(Walked(acc.tasks + SpecEntries(g, ns), acc.execs + ExecEntries(g, ns)))
  {
    if |ns| == 0 {
      assert acc.tasks + [] == acc.tasks && acc.execs + [] == acc.execs;
    } else {
      var acc1 := Walked(acc.tasks + [SpecEntry(g, ns[0])], acc.execs + [ExecEntry(g, ns[0])]);
      assert forall n :: n in ns[1..] ==> n in ns;
      WalkFromAppends(g, ns[1..], acc1);
      assert acc1.tasks + SpecEntries(g, ns[1..]) == acc.tasks + SpecEntries(g, ns);
      assert acc1.execs + ExecEntries(g, ns[1..]) == acc.execs + ExecEntries(g, ns);
    }
  }

  /**
   * The walk over a well formed graph completes exactly when every node carries a name and a
   * runtime; otherwise it raises for the first node, in insertion order, that lacks one.
   */
  lemma WalkOutcome(g: Graph)
    requires Keyed(g)
    ensures Walk(g).Success? <==> forall n :: n in g.nodes ==> Complete(g, n)
    ensures Walk(g).Failure? ==>
      exists k :: (0 <= k < |g.nodes| && !Complete(g, g.nodes[k]) && Walk(g).error == MissingOf(g, g.nodes[k])
        && forall j :: 0 <= j < k ==> Complete(g, g.nodes[j]))
  {
    WalkFromOutcome(g, g.nodes, Walked([], []));
    if Walk(g).Failure? {
      WalkFromError(g, g.nodes, Walked([], []));
    }
  }

  /**
   * A completed walk emits one specification entry and one execution entry per node, in node
   * insertion order. At each position both carry `str(node)` as id and the node's name; the
   * parents and children are the predecessor and successor lists, in insertion order, as strings.
   */
  lemma WalkEntries(g: Graph)
    requires Keyed(g) && forall n :: n in g.nodes ==> Complete(g, n)
    ensures Walk(g).Success?
    ensures var w := Walk(g).value;
      && |w.tasks| == |g.nodes| && |w.execs| == |g.nodes|
      && forall k :: 0 <= k < |g.nodes| ==>
        && w.tasks[k].id == IntToString(g.nodes[k]) && w.execs[k].id == w.tasks[k].id
        && g.nodes[k] in g.attrs && Complete(g, g.nodes[k])
        && w.tasks[k].name == g.attrs[g.nodes[k]].name.value && w.execs[k].name == w.tasks[k].name
        && w.execs[k].runtime == g.attrs[g.nodes[k]].runtime.value
        && w.tasks[k].parents == Stringify(g.pred[g.nodes[k]])
        && w.tasks[k].children == Stringify(g.succ[g.nodes[k]])
  {
    WalkFromAppends(g, g.nodes, Walked([], []));
    SpecEntriesAt(g, g.nodes);
    ExecEntriesAt(g, g.nodes);
    assert Walk(g).value == Walked(SpecEntries(g, g.nodes), ExecEntries(g, g.nodes));
  }

  /** On a well formed graph, whose nodes are distinct, the walk gives every task a different id. */
  lemma WalkIdsDistinct(g: Graph)
    requires WF(g) && Walk(g).Success?
    ensures forall i, j :: 0 <= i < j < |Walk(g).value.tasks| ==> Walk(g).value.tasks[i].id != Walk(g).value.tasks[j].id
  {
    var w := Walk(g).value;
    WalkOutcome(g);
    WalkEntries(g);
    forall i, j | 0 <= i < j < |w.tasks| ensures w.tasks[i].id != w.tasks[j].id {
      if w.tasks[i].id == w.tasks[j].id {
        IntToStringInjective(g.nodes[i], g.nodes[j]);
      }
    }
  }

  /** The walk on the DiGraph load_graph returned, appending to `tasks` and `tasks_exec`. */
  method WalkNodes(dag: DiGraph) returns (res: Result<Walked, WalkError>)
    requires dag.Valid()
    ensures res == Walk(dag.Value())
  {
    var ns := dag.nodes;
    var tasks: seq<SpecTask> := [];
    var execs: seq<ExecTask> := [];
    var i := 0;
    while i < |ns|
      invariant 0 <= i <= |ns|
      invariant Walk(dag.Value()) == WalkFrom(dag.Value(), ns[i..], Walked(tasks, execs))
    {
      assert ns[i..][1..] == ns[i + 1..];
      var n := ns[i];
      assert n in dag.attrs;
      var a := dag.attrs[n];
      if a.name.None? {
        return Failure(MissingKey(n, FuncName));
      }
      tasks := tasks + [SpecTask(a.name.value, IntToString(n), Stringify(dag.pred[n]), Stringify(dag.succ[n]))];
      if a.runtime.None? {
        return Failure(MissingKey(n, Runtime));
      }
      execs := execs + [ExecTask(a.name.value, IntToString(n), a.runtime.value)];
      i := i + 1;
    }
    return Success(Walked(tasks, execs));
  }

  /** On a graph load_graph built, every task of the run and both sentinels carry a name and a runtime. */
  lemma BuiltNamedNode(rows: seq<TaskRow>, runId: string, n: int)
    requires BuildGraph(rows, runId).Built? && n in BuildGraph(rows, runId).graph.nodes
    requires n in RunTaskIds(rows, runId) || n == SourceId || n == SinkId
    ensures n in BuildGraph(rows, runId).graph.attrs && Complete(BuildGraph(rows, runId).graph, n)
  {
    BuildGraphBuilt(rows, runId);
    if n in RunTaskIds(rows, runId) {
      var x :| x in rows && x.runId == runId && x.taskId == n;
    }
  }

  /** On a graph load_graph built, every other node carries no attribute at all. */
  lemma BuiltBareNode(rows: seq<TaskRow>, runId: string, n: int)
    requires BuildGraph(rows, runId).Built? && n in BuildGraph(rows, runId).graph.nodes
    requires !(n in RunTaskIds(rows, runId) || n == SourceId || n == SinkId)
    ensures n in BuildGraph(rows, runId).graph.attrs && BuildGraph(rows, runId).graph.attrs[n] == NoAttrs
  {
    BuiltKeyed(rows, runId);
    BuiltBare(rows, runId);
    assert n !in RunTaskIds(rows, runId) + {SourceId, SinkId};
  }

  /**
   * On a graph load_graph built, the walk completes exactly when every node is a task of the run
   * or a sentinel, that is when no dependency names a task the run has no row for.
   */
  lemma WalkBuilt(rows: seq<TaskRow>, runId: string)
    requires BuildGraph(rows, runId).Built?
    ensures WF(BuildGraph(rows, runId).graph)
    ensures Walk(BuildGraph(rows, runId).graph).Success? <==>
      forall n :: n in BuildGraph(rows, runId).graph.nodes ==> n in RunTaskIds(rows, runId) || n == SourceId || n == SinkId
  {
    var h := BuildGraph(rows, runId).graph;
    BuildGraphBuilt(rows, runId);
    WalkFromOutcome(h, h.nodes, Walked([], []));
    forall n | n in h.nodes
      ensures Complete(h, n) <==> n in RunTaskIds(rows, runId) || n == SourceId || n == SinkId
    {
      if n in RunTaskIds(rows, runId) || n == SourceId || n == SinkId {
        BuiltNamedNode(rows, runId, n);
      } else {
        BuiltBareNode(rows, runId, n);
      }
    }
  }

  // ---------------------------------------------------------------------------
  // create_wfcommon
  // ---------------------------------------------------------------------------

  /** A row of the cleaned `workflow` table; `began` is `str(time_began)`. */
  datatype WfRow = WfRow(runId: string, name: string, began: string, runtime: real)

  /**
   * The parts of `wf_json` that depend on the run. The description, schema version, empty file
   * list, author and runtime system are fixed text.
   */
  datatype Document = Document(
    name: string,
    createdAt: string,
    makespan: real,
    executedAt: string,
    tasks: seq<SpecTask>,
    execs: seq<ExecTask>)

  /** The exception create_wfcommon lets escape, in the order it can raise them. */
  datatype CreateError =
    | LoadRaised(error: LoadError)  // inside load_graph
    | NoWorkflowRow                 // `.iloc[0]` on an empty selection
    | NoGraphToWalk                 // `None.nodes(...)` when load_graph returned None
    | WalkRaised(walk: WalkError)   // `n["task_func_name"]` or `n["runtime"]`

  /** `df_wf.loc[df_wf["run_id"] == run_id].iloc[0]` */
  function FirstWfRow(wf: seq<WfRow>, runId: string): (r: Option<WfRow>)
  {
    if |wf| == 0 then None
    else if wf[0].runId == runId then Some(wf[0])
    else FirstWfRow(wf[1..], runId)
  }

  /** The selection is empty exactly when no row has the run id; else it is the first row that has it. */
  lemma {:induction false} FirstWfRowSpec(wf: seq<WfRow>, runId: string)
    ensures FirstWfRow(wf, runId).None? <==> forall x :: x in wf ==> x.runId != runId
    ensures FirstWfRow(wf, runId).Some? ==>
      exists k :: (0 <= k < |wf| && wf[k] == FirstWfRow(wf, runId).value && wf[k].runId == runId
        && forall j :: 0 <= j < k ==> wf[j].runId != runId)
  {
    if |wf| > 0 {
      assert forall x :: x in wf <==> x == wf[0] || x in wf[1..];
      if wf[0].runId != runId {
        FirstWfRowSpec(wf[1..], runId);
        if FirstWfRow(wf, runId).Some? {
          var k :| 0 <= k < |wf[1..]| && wf[1..][k] == FirstWfRow(wf, runId).value && wf[1..][k].runId == runId
            && forall j :: 0 <= j < k ==> wf[1..][j].runId != runId;
          assert wf[k + 1] == wf[1..][k];
          assert forall j :: 1 <= j < k + 1 ==> wf[j] == wf[1..][j - 1];
        }
      } else {
        assert wf[0] == FirstWfRow(wf, runId).value;
      }
    }
  }

  /** The document `create_wfcommon(df_tasks, df_wf, run_id, ...)` dumps, or the exception it raises. */
  function CreateWfCommon(rows: seq<TaskRow>, wf: seq<WfRow>, runId: string): Result<Document, CreateError>
  {
    var built := BuildGraph(rows, runId);
    if built.BuildFailed? then Failure(LoadRaised(built.error))
    else match FirstWfRow(wf, runId)
      case None => Failure(NoWorkflowRow)
      case Some(w) =>
        if built.NoGraph? then Failure(NoGraphToWalk)
        else
          BuiltKeyed(rows, runId);
          match Walk(built.graph)
          case Failure(e) => Failure(WalkRaised(e))
          case Success(walked) => Success(Document(w.name, w.began, w.runtime, w.began, walked.tasks, walked.execs))
  }

  /**
   * create_wfcommon produces a document exactly when the run has task rows that all parse, the
   * workflow table has a row for it, and every dependency is a task of the run; the document
   * then has one specification and one execution entry per graph node, and takes its name,
   * creation time and makespan from the first workflow row of the run.
   */
  lemma CreateWfCommonSpec(rows: seq<TaskRow>, wf: seq<WfRow>, runId: string)
    ensures CreateWfCommon(rows, wf, runId).Success? <==>
      && BuildGraph(rows, runId).Built?
      && (exists x :: x in wf && x.runId == runId)
      && forall n :: n in BuildGraph(rows, runId).graph.nodes ==> n in RunTaskIds(rows, runId) || n == SourceId || n == SinkId
    ensures CreateWfCommon(rows, wf, runId).Success? ==>
      var d := CreateWfCommon(rows, wf, runId).value;
      var h := BuildGraph(rows, runId).graph;
      && |d.tasks| == |h.nodes| && |d.execs| == |h.nodes|
      && (forall k :: 0 <= k < |h.nodes| ==> d.tasks[k].id == IntToString(h.nodes[k]) && d.execs[k].id == d.tasks[k].id)
      && d.name == FirstWfRow(wf, runId).value.name
      && d.createdAt == d.executedAt == FirstWfRow(wf, runId).value.began
      && d.makespan == FirstWfRow(wf, runId).value.runtime
    ensures BuildGraph(rows, runId).BuildFailed? ==> CreateWfCommon(rows, wf, runId) == Failure(LoadRaised(BuildGraph(rows, runId).error))
    ensures CreateWfCommon(rows, wf, runId) == Failure(NoWorkflowRow) <==>
      !BuildGraph(rows, runId).BuildFailed? && forall x :: x in wf ==> x.runId != runId
    ensures CreateWfCommon(rows, wf, runId) == Failure(NoGraphToWalk) <==>
      BuildGraph(rows, runId).NoGraph? && exists x :: x in wf && x.runId == runId
    ensures BuildGraph(rows, runId).Built? && (exists x :: x in wf && x.runId == runId) && Walk(BuildGraph(rows, runId).graph).Failure? ==>
      CreateWfCommon(rows, wf, runId) == Failure(WalkRaised(Walk(BuildGraph(rows, runId).graph).error))
  {
    FirstWfRowSpec(wf, runId);
    if BuildGraph(rows, runId).Built? {
      WalkBuilt(rows, runId);
      WalkOutcome(BuildGraph(rows, runId).graph);
      if CreateWfCommon(rows, wf, runId).Success? {
        WalkEntries(BuildGraph(rows, runId).graph);
      }
    }
  }

  /** `create_wfcommon` up to the JSON dump: load_graph on the DiGraph, the workflow row, the walk. */
  method CreateWfCommonRun(rows: seq<TaskRow>, wf: seq<WfRow>, runId: string) returns (res: Result<Document, CreateError>)
    ensures res == CreateWfCommon(rows, wf, runId)
  {
    var loaded := LoadGraph(rows, runId);
    if loaded.LoadFailed? {
      return Failure(LoadRaised(loaded.error));
    }
    var row := FirstWfRow(wf, runId);
    if row.None? {
      return Failure(NoWorkflowRow);
    }
    if loaded.NoDag? {
      return Failure(NoGraphToWalk);
    }
    var walked := WalkNodes(loaded.dag);
    if walked.Failure? {
      return Failure(WalkRaised(walked.error));
    }
    var w := row.value;
    return Success(Document(w.name, w.began, w.runtime, w.began, walked.value.tasks, walked.value.execs));
  }
}
