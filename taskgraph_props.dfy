/**
 * What load_graph guarantees about the graph it returns: when it returns one at all, when it
 * fails, that every row and every declared dependency is in it, that nothing is ever removed,
 * and which nodes the sentinel edges leave with a predecessor and a successor.
 */
module TaskGraphProperties {
  import opened Wrappers
  import opened PyText
  import opened NxGraph
  import opened TaskGraph

  /** n has at least one predecessor and at least one successor. */
  ghost predicate Covered(g: Graph, n: int)
  {
    n in g.pred && n in g.succ && |g.pred[n]| > 0 && |g.succ[n]| > 0
  }

  /** The row's `task_depends` cell is a string whose every token `int()` accepts. */
  predicate RowParses(r: TaskRow)
  {
    r.depends.Some? && forall tok :: tok in DependencyTokens(r.depends.value) ==> ParseInt(tok).Some?
  }

  /** Every dependency d of row r is an edge d -> task_id of g. */
  ghost predicate HasDependencyEdges(g: Graph, r: TaskRow)
    requires RowParses(r)
  {
    forall tok :: tok in DependencyTokens(r.depends.value) ==> HasEdge(g, ParseInt(tok).value, r.taskId)
  }

  /** Nodes outside `ids` carry no attributes: they were only ever created by `add_edge`. */
  ghost predicate BareOutside(g: Graph, ids: set<int>)
  {
    forall n :: n in g.attrs && n !in ids ==> g.attrs[n] == NoAttrs
  }

  lemma PrefixKeeps(a: seq<int>, b: seq<int>)
    requires a <= b
    ensures forall x :: x in a ==> x in b
  {
    forall x | x in a ensures x in b {
      var i :| 0 <= i < |a| && a[i] == x;
      assert b[i] == x;
    }
  }

  lemma GrowsKeepsEdge(g: Graph, h: Graph, u: int, v: int)
    requires Grows(g, h) && HasEdge(g, u, v)
    ensures HasEdge(h, u, v)
  {
    PrefixKeeps(g.succ[u], h.succ[u]);
  }

  lemma GrowsKeepsCovered(g: Graph, h: Graph, n: int)
    requires Grows(g, h) && Covered(g, n)
    ensures Covered(h, n)
  {
  }

  lemma GrowsKeepsNodes(g: Graph, h: Graph)
    requires Grows(g, h)
    ensures forall n :: n in g.nodes ==> n in h.nodes
  {
    PrefixKeeps(g.nodes, h.nodes);
  }

  // ---------------------------------------------------------------------------
  // The sentinel edges
  // ---------------------------------------------------------------------------

  /** Linking u to nodes already present adds no node, changes no attribute, and gives each a predecessor u. */
  lemma {:induction false} LinkFromFacts(g: Graph, u: int, vs: seq<int>)
    requires WF(g) && u in g.attrs && forall v :: v in vs ==> v in g.attrs
    ensures WF(LinkFrom(g, u, vs)) && Grows(g, LinkFrom(g, u, vs))
    ensures LinkFrom(g, u, vs).nodes == g.nodes && LinkFrom(g, u, vs).attrs == g.attrs
    ensures forall v :: v in vs ==> u in LinkFrom(g, u, vs).pred[v]
    decreases |vs|
  {
    if |vs| > 0 {
      var g1 := WithEdge(g, u, vs[0]);
      WithEdgeFacts(g, u, vs[0]);
      assert forall v :: v in vs[1..] ==> v in vs;
      LinkFromFacts(g1, u, vs[1..]);
      var r := LinkFrom(g1, u, vs[1..]);
      GrowsTrans(g, g1, r);
      PrefixKeeps(g1.pred[vs[0]], r.pred[vs[0]]);
      forall v | v in vs ensures u in r.pred[v] {
        if v != vs[0] {
          assert v in vs[1..];
        }
      }
    }
  }

  /** Linking nodes already present to v adds no node, changes no attribute, and gives each a successor v. */
  lemma {:induction false} LinkToFacts(g: Graph, us: seq<int>, v: int)
    requires WF(g) && v in g.attrs && forall u :: u in us ==> u in g.attrs
    ensures WF(LinkTo(g, us, v)) && Grows(g, LinkTo(g, us, v))
    ensures LinkTo(g, us, v).nodes == g.nodes && LinkTo(g, us, v).attrs == g.attrs
    ensures forall u :: u in us ==> v in LinkTo(g, us, v).succ[u]
    decreases |us|
  {
    if |us| > 0 {
      var g1 := WithEdge(g, us[0], v);
      WithEdgeFacts(g, us[0], v);
      assert forall u :: u in us[1..] ==> u in us;
      LinkToFacts(g1, us[1..], v);
      var r := LinkTo(g1, us[1..], v);
      GrowsTrans(g, g1, r);
      assert v in g1.succ[us[0]];
      PrefixKeeps(g1.succ[us[0]], r.succ[us[0]]);
      forall u | u in us ensures v in r.succ[u] {
        if u != us[0] {
          assert u in us[1..];
        }
      }
    }
  }

  lemma WithSentinelsShape(g: Graph)
    requires WF(g)
    ensures WF(WithSentinels(g)) && Grows(g, WithSentinels(g))
  {
    var g0 := WithNode(g, SourceId, SourceAttrs);
    WithNodeFacts(g, SourceId, SourceAttrs);
    WithNodeFacts(g0, SinkId, SinkAttrs);
    GrowsTrans(g, g0, WithSentinels(g));
  }

  lemma WithSentinelsAttrs(g: Graph)
    requires Keyed(g)
    ensures forall n :: n in WithSentinels(g).attrs <==> n in g.attrs || n == SourceId || n == SinkId
    ensures WithSentinels(g).attrs[SourceId].name == Some("source")
    ensures WithSentinels(g).attrs[SourceId].runtime == Some(0.0)
    ensures WithSentinels(g).attrs[SinkId].name == Some("sink")
    ensures WithSentinels(g).attrs[SinkId].runtime == Some(0.0)
    ensures forall n :: n in g.attrs && n != SourceId && n != SinkId ==> WithSentinels(g).attrs[n] == g.attrs[n]
  {
    var g0 := WithNode(g, SourceId, SourceAttrs);
    WithNodeAttrs(g, SourceId, SourceAttrs);
    WithNodeAttrs(g0, SinkId, SinkAttrs);
  }

  lemma WithSentinelsFacts(g: Graph)
    requires WF(g)
    ensures WF(WithSentinels(g)) && Grows(g, WithSentinels(g))
    ensures forall n :: n in WithSentinels(g).attrs <==> n in g.attrs || n == SourceId || n == SinkId
    ensures WithSentinels(g).attrs[SourceId].name == Some("source")
    ensures WithSentinels(g).attrs[SourceId].runtime == Some(0.0)
    ensures WithSentinels(g).attrs[SinkId].name == Some("sink")
    ensures WithSentinels(g).attrs[SinkId].runtime == Some(0.0)
    ensures forall n :: n in g.attrs && n != SourceId && n != SinkId ==> WithSentinels(g).attrs[n] == g.attrs[n]
  {
    WithSentinelsShape(g);
    WithSentinelsAttrs(g);
  }

  /** Attaching the sentinels adds only the sentinels, named "source" and "sink" with runtime 0. */
  lemma AttachShape(g: Graph)
    requires WF(g)
    ensures WF(Attach(g)) && Grows(g, Attach(g))
    ensures forall n :: n in Attach(g).attrs <==> n in g.attrs || n == SourceId || n == SinkId
    ensures Attach(g).attrs[SourceId].name == Some("source") && Attach(g).attrs[SourceId].runtime == Some(0.0)
    ensures Attach(g).attrs[SinkId].name == Some("sink") && Attach(g).attrs[SinkId].runtime == Some(0.0)
    ensures forall n :: n in g.attrs && n != SourceId && n != SinkId ==> Attach(g).attrs[n] == g.attrs[n]
  {
    SourcesSinksMembers(g);
    var g1 := WithSentinels(g);
    WithSentinelsFacts(g);
    LinkFromFacts(g1, SourceId, Sources(g));
    var g2 := LinkFrom(g1, SourceId, Sources(g));
    LinkToFacts(g2, Sinks(g), SinkId);
    GrowsTrans(g1, g2, Attach(g));
    GrowsTrans(g, g1, Attach(g));
  }

  /** After the sentinels are attached, every node that was present has a predecessor and a successor. */
  lemma AttachCovers(g: Graph)
    requires WF(g)
    ensures forall n :: n in g.nodes ==> Covered(Attach(g), n)
  {
    SourcesSinksMembers(g);
    var g1 := WithSentinels(g);
    WithSentinelsFacts(g);
    LinkFromFacts(g1, SourceId, Sources(g));
    var g2 := LinkFrom(g1, SourceId, Sources(g));
    LinkToFacts(g2, Sinks(g), SinkId);
    var h := Attach(g);
    GrowsTrans(g1, g2, h);
    GrowsTrans(g, g1, h);
    forall n | n in g.nodes ensures Covered(h, n) {
      if |g.pred[n]| == 0 {
        assert n in Sources(g);
        assert |g2.pred[n]| > 0;
      }
      if |g.succ[n]| == 0 {
        assert n in Sinks(g);
      }
    }
  }

  // ---------------------------------------------------------------------------
  // The dependency edges
  // ---------------------------------------------------------------------------

  /** The first token `int()` rejects. */
  function FirstBadToken(tokens: seq<string>): (r: string)
    requires exists tok :: tok in tokens && ParseInt(tok).None?
    ensures r in tokens && ParseInt(r).None?
  {
    if ParseInt(tokens[0]).None? then tokens[0]
    else
      assert forall tok :: tok in tokens && tok != tokens[0] ==> tok in tokens[1..];
      FirstBadToken(tokens[1..])
  }

  /** The dependency loop succeeds exactly when every token is an integer, else it fails on the first bad one. */
  lemma {:induction false} AddDependenciesOutcome(g: Graph, tokens: seq<string>, t: int)
    requires Keyed(g)
    ensures AddDependencies(g, tokens, t).Success? <==> forall tok :: tok in tokens ==> ParseInt(tok).Some?
    ensures AddDependencies(g, tokens, t).Failure? ==>
      AddDependencies(g, tokens, t).error == BadDependency(FirstBadToken(tokens))
    decreases |tokens|
  {
    if |tokens| > 0 {
      assert forall tok :: tok in tokens && tok != tokens[0] ==> tok in tokens[1..];
      if ParseInt(tokens[0]).Some? {
        AddDependenciesOutcome(WithEdge(g, ParseInt(tokens[0]).value, t), tokens[1..], t);
      }
    }
  }

  /** A successful dependency loop adds the edge d -> t for each token d and only grows the graph. */
  lemma {:induction false} AddDependenciesEdges(g: Graph, tokens: seq<string>, t: int)
    requires WF(g)
    requires AddDependencies(g, tokens, t).Success?
    ensures WF(AddDependencies(g, tokens, t).value) && Grows(g, AddDependencies(g, tokens, t).value)
    ensures forall tok :: tok in tokens ==>
      (ParseInt(tok).Some? && HasEdge(AddDependencies(g, tokens, t).value, ParseInt(tok).value, t))
    decreases |tokens|
  {
    if |tokens| > 0 {
      var d := ParseInt(tokens[0]).value;
      var g1 := WithEdge(g, d, t);
      WithEdgeFacts(g, d, t);
      AddDependenciesEdges(g1, tokens[1..], t);
      var h := AddDependencies(g1, tokens[1..], t).value;
      GrowsTrans(g, g1, h);
      GrowsKeepsEdge(g1, h, d, t);
      assert forall tok :: tok in tokens && tok != tokens[0] ==> tok in tokens[1..];
    }
  }

  /** The dependency loop only creates attribute-less nodes and leaves existing attributes alone. */
  lemma {:induction false} AddDependenciesAttrs(g: Graph, tokens: seq<string>, t: int)
    requires Keyed(g)
    requires AddDependencies(g, tokens, t).Success?
    ensures forall n :: n in g.attrs ==>
      (n in AddDependencies(g, tokens, t).value.attrs && AddDependencies(g, tokens, t).value.attrs[n] == g.attrs[n])
    ensures forall n :: n in AddDependencies(g, tokens, t).value.attrs && n !in g.attrs ==>
      AddDependencies(g, tokens, t).value.attrs[n] == NoAttrs
    decreases |tokens|
  {
    if |tokens| > 0 {
      var d := ParseInt(tokens[0]).value;
      var g1 := WithEdge(g, d, t);
      WithEdgeAttrs(g, d, t);
      AddDependenciesAttrs(g1, tokens[1..], t);
    }
  }

  // ---------------------------------------------------------------------------
  // One row
  // ---------------------------------------------------------------------------

  /** The exception a row raises, when it raises one. */
  function RowError(r: TaskRow): LoadError
    requires !RowParses(r)
  {
    if r.depends.None? then NullDepends(r.taskId)
    else BadDependency(FirstBadToken(DependencyTokens(r.depends.value)))
  }

  /** A row is processed without an exception exactly when its dependency cell parses. */
  lemma StepOutcome(g: Graph, r: TaskRow)
    requires Keyed(g)
    ensures Step(g, r).Success? <==> RowParses(r)
    ensures Step(g, r).Failure? ==> Step(g, r).error == RowError(r)
  {
    if r.depends.Some? {
      AddDependenciesOutcome(WithNode(g, r.taskId, TaskAttrs(r)), DependencyTokens(r.depends.value), r.taskId);
    }
  }

  /** The graph of the row's dependency loop, before the sentinels are attached. */
  function BeforeAttach(g: Graph, r: TaskRow): (h: Graph)
    requires Keyed(g) && RowParses(r)
    ensures Keyed(h)
  {
    var g1 := WithNode(g, r.taskId, TaskAttrs(r));
    AddDependenciesOutcome(g1, DependencyTokens(r.depends.value), r.taskId);
    AddDependencies(g1, DependencyTokens(r.depends.value), r.taskId).value
  }

  lemma BeforeAttachStep(g: Graph, r: TaskRow)
    requires Keyed(g) && RowParses(r)
    ensures Step(g, r) == Success(Attach(BeforeAttach(g, r)))
  {
    var g1 := WithNode(g, r.taskId, TaskAttrs(r));
    AddDependenciesOutcome(g1, DependencyTokens(r.depends.value), r.taskId);
  }

  lemma BeforeAttachShape(g: Graph, r: TaskRow)
    requires WF(g) && RowParses(r)
    ensures WF(BeforeAttach(g, r)) && Grows(g, BeforeAttach(g, r))
    ensures HasDependencyEdges(BeforeAttach(g, r), r)
  {
    var g1 := WithNode(g, r.taskId, TaskAttrs(r));
    var tokens := DependencyTokens(r.depends.value);
    WithNodeFacts(g, r.taskId, TaskAttrs(r));
    AddDependenciesOutcome(g1, tokens, r.taskId);
    AddDependenciesEdges(g1, tokens, r.taskId);
    var h := AddDependencies(g1, tokens, r.taskId).value;
    assert h == BeforeAttach(g, r);
    GrowsTrans(g, g1, h);
  }

  lemma BeforeAttachAttrs(g: Graph, r: TaskRow)
    requires Keyed(g) && RowParses(r)
    ensures r.taskId in BeforeAttach(g, r).attrs
    ensures forall n :: n in g.attrs ==> n in BeforeAttach(g, r).attrs
    ensures BeforeAttach(g, r).attrs[r.taskId].name.Some? && BeforeAttach(g, r).attrs[r.taskId].runtime.Some?
    ensures forall n :: n in BeforeAttach(g, r).attrs && n !in g.attrs && n != r.taskId ==>
      BeforeAttach(g, r).attrs[n] == NoAttrs
    ensures forall n :: n in g.attrs && n != r.taskId ==> BeforeAttach(g, r).attrs[n] == g.attrs[n]
  {
    var g1 := WithNode(g, r.taskId, TaskAttrs(r));
    var tokens := DependencyTokens(r.depends.value);
    WithNodeAttrs(g, r.taskId, TaskAttrs(r));
    AddDependenciesOutcome(g1, tokens, r.taskId);
    AddDependenciesAttrs(g1, tokens, r.taskId);
  }

  lemma BeforeAttachFacts(g: Graph, r: TaskRow)
    requires WF(g) && RowParses(r)
    ensures Step(g, r) == Success(Attach(BeforeAttach(g, r)))
    ensures WF(BeforeAttach(g, r)) && Grows(g, BeforeAttach(g, r))
    ensures r.taskId in BeforeAttach(g, r).attrs
    ensures BeforeAttach(g, r).attrs[r.taskId].name.Some? && BeforeAttach(g, r).attrs[r.taskId].runtime.Some?
    ensures HasDependencyEdges(BeforeAttach(g, r), r)
    ensures forall n :: n in BeforeAttach(g, r).attrs && n !in g.attrs && n != r.taskId ==>
      BeforeAttach(g, r).attrs[n] == NoAttrs
    ensures forall n :: n in g.attrs && n != r.taskId ==> BeforeAttach(g, r).attrs[n] == g.attrs[n]
  {
    BeforeAttachStep(g, r);
    BeforeAttachShape(g, r);
    BeforeAttachAttrs(g, r);
  }

  /**
   * A processed row leaves its task node with a name and a runtime, every one of its dependencies
   * as an edge, the sentinels named "source" and "sink" with runtime 0, and a graph that only grew.
   */
  lemma StepShape(g: Graph, r: TaskRow)
    requires WF(g) && RowParses(r)
    ensures Step(g, r).Success?
    ensures var h := Step(g, r).value;
      && WF(h) && Grows(g, h)
      && r.taskId in h.attrs && h.attrs[r.taskId].name.Some? && h.attrs[r.taskId].runtime.Some?
      && HasDependencyEdges(h, r)
      && SourceId in h.attrs && h.attrs[SourceId].name == Some("source") && h.attrs[SourceId].runtime == Some(0.0)
      && SinkId in h.attrs && h.attrs[SinkId].name == Some("sink") && h.attrs[SinkId].runtime == Some(0.0)
  {
    var g2 := BeforeAttach(g, r);
    BeforeAttachFacts(g, r);
    AttachShape(g2);
    GrowsTrans(g, g2, Attach(g2));
    forall tok | tok in DependencyTokens(r.depends.value)
      ensures HasEdge(Attach(g2), ParseInt(tok).value, r.taskId)
    {
      GrowsKeepsEdge(g2, Attach(g2), ParseInt(tok).value, r.taskId);
    }
  }

  /** Attributes are only ever set on the row's task and on the sentinels. */
  lemma StepAttrs(g: Graph, r: TaskRow)
    requires WF(g) && RowParses(r)
    ensures Step(g, r).Success?
    ensures forall n :: n in Step(g, r).value.attrs && n !in g.attrs && n != r.taskId && n != SourceId && n != SinkId ==>
      Step(g, r).value.attrs[n] == NoAttrs
    ensures forall n :: n in g.attrs && n != r.taskId && n != SourceId && n != SinkId ==>
      n in Step(g, r).value.attrs && Step(g, r).value.attrs[n] == g.attrs[n]
  {
    BeforeAttachFacts(g, r);
    AttachShape(BeforeAttach(g, r));
  }

  /**
   * After a row, every node that was present when sources and sinks were computed has a
   * predecessor and a successor: all nodes but possibly sentinels created by this very row.
   */
  lemma StepCovers(g: Graph, r: TaskRow)
    requires WF(g) && RowParses(r)
    ensures Step(g, r).Success?
    ensures forall n :: n in Step(g, r).value.nodes && (n in g.attrs || (n != SourceId && n != SinkId)) ==>
      Covered(Step(g, r).value, n)
  {
    var g2 := BeforeAttach(g, r);
    BeforeAttachFacts(g, r);
    AttachShape(g2);
    AttachCovers(g2);
  }

  // ---------------------------------------------------------------------------
  // The whole loop
  // ---------------------------------------------------------------------------

  /** The first row that raises. */
  function FirstBadRow(rows: seq<TaskRow>): (r: TaskRow)
    requires exists x :: x in rows && !RowParses(x)
    ensures r in rows && !RowParses(r)
  {
    if !RowParses(rows[0]) then rows[0]
    else
      assert forall x :: x in rows && x != rows[0] ==> x in rows[1..];
      FirstBadRow(rows[1..])
  }

  /** The loop runs to completion exactly when every row parses, else it raises the first bad row's exception. */
  lemma {:induction false} BuildFromOutcome(g: Graph, rows: seq<TaskRow>)
    requires Keyed(g)
    ensures BuildFrom(g, rows).Success? <==> forall x :: x in rows ==> RowParses(x)
    ensures BuildFrom(g, rows).Failure? ==> BuildFrom(g, rows).error == RowError(FirstBadRow(rows))
    decreases |rows|
  {
    if |rows| > 0 {
      StepOutcome(g, rows[0]);
      assert forall x :: x in rows && x != rows[0] ==> x in rows[1..];
      if RowParses(rows[0]) {
        BuildFromOutcome(Step(g, rows[0]).value, rows[1..]);
      }
    }
  }

  /** Every row of a completed loop has its named node and its dependency edges in the graph. */
  lemma {:induction false} BuildFromRows(g: Graph, rows: seq<TaskRow>)
    requires WF(g) && BuildFrom(g, rows).Success?
    ensures WF(BuildFrom(g, rows).value) && Grows(g, BuildFrom(g, rows).value)
    ensures forall x :: x in rows ==> RowParses(x)
    ensures forall x :: x in rows ==>
      (&& x.taskId in BuildFrom(g, rows).value.nodes
       && x.taskId in BuildFrom(g, rows).value.attrs
       && BuildFrom(g, rows).value.attrs[x.taskId].name.Some?
       && BuildFrom(g, rows).value.attrs[x.taskId].runtime.Some?
       && HasDependencyEdges(BuildFrom(g, rows).value, x))
    decreases |rows|
  {
    if |rows| > 0 {
      BuildFromOutcome(g, rows);
      var g1 := Step(g, rows[0]).value;
      StepShape(g, rows[0]);
      BuildFromRows(g1, rows[1..]);
      var h := BuildFrom(g1, rows[1..]).value;
      GrowsTrans(g, g1, h);
      forall tok | tok in DependencyTokens(rows[0].depends.value)
        ensures HasEdge(h, ParseInt(tok).value, rows[0].taskId)
      {
        GrowsKeepsEdge(g1, h, ParseInt(tok).value, rows[0].taskId);
      }
      assert forall x :: x in rows && x != rows[0] ==> x in rows[1..];
    }
  }

  /** After at least one row the sentinels are present, named "source" and "sink", with runtime 0. */
  lemma {:induction false} BuildFromSentinels(g: Graph, rows: seq<TaskRow>)
    requires WF(g) && |rows| > 0 && BuildFrom(g, rows).Success?
    ensures var h := BuildFrom(g, rows).value;
      && SourceId in h.nodes && SourceId in h.attrs
      && h.attrs[SourceId].name == Some("source") && h.attrs[SourceId].runtime == Some(0.0)
      && SinkId in h.nodes && SinkId in h.attrs
      && h.attrs[SinkId].name == Some("sink") && h.attrs[SinkId].runtime == Some(0.0)
    decreases |rows|
  {
    BuildFromOutcome(g, rows);
    StepShape(g, rows[0]);
    if |rows| > 1 {
      BuildFromSentinels(Step(g, rows[0]).value, rows[1..]);
    }
  }

  /**
   * When the loop ends, every node has a predecessor and a successor, except the sentinels when
   * they were created by the last row; from the second row on that cannot happen.
   */
  lemma {:induction false} BuildFromCovers(g: Graph, rows: seq<TaskRow>)
    requires WF(g) && |rows| > 0 && BuildFrom(g, rows).Success?
    ensures forall n :: n in BuildFrom(g, rows).value.nodes ==>
      ((|rows| >= 2 || n in g.attrs || (n != SourceId && n != SinkId)) ==> Covered(BuildFrom(g, rows).value, n))
    decreases |rows|
  {
    BuildFromOutcome(g, rows);
    StepShape(g, rows[0]);
    StepCovers(g, rows[0]);
    if |rows| > 1 {
      var g1 := Step(g, rows[0]).value;
      BuildFromCovers(g1, rows[1..]);
    }
  }

  /** Nodes that are neither a row's task nor a sentinel carry no attributes. */
  lemma {:induction false} BuildFromBare(g: Graph, rows: seq<TaskRow>, ids: set<int>)
    requires WF(g) && BuildFrom(g, rows).Success? && BareOutside(g, ids)
    requires SourceId in ids && SinkId in ids && forall x :: x in rows ==> x.taskId in ids
    ensures BareOutside(BuildFrom(g, rows).value, ids)
    decreases |rows|
  {
    if |rows| > 0 {
      var r := rows[0];
      BuildFromOutcome(g, rows);
      StepShape(g, r);
      StepAttrs(g, r);
      var g1 := Step(g, r).value;
      assert BareOutside(g1, ids) by {
        forall n | n in g1.attrs && n !in ids ensures g1.attrs[n] == NoAttrs {
          assert n != r.taskId && n != SourceId && n != SinkId;
        }
      }
      assert forall x :: x in rows[1..] ==> x in rows;
      BuildFromBare(g1, rows[1..], ids);
    }
  }

  // ---------------------------------------------------------------------------
  // load_graph
  // ---------------------------------------------------------------------------

  /** Task ids of the run's rows. */
  ghost function RunTaskIds(rows: seq<TaskRow>, runId: string): set<int>
  {
    set x | x in rows && x.runId == runId :: x.taskId
  }

  /** load_graph returns None exactly when no row belongs to the run. */
  lemma BuildGraphNone(rows: seq<TaskRow>, runId: string)
    ensures BuildGraph(rows, runId).NoGraph? <==> forall x :: x in rows ==> x.runId != runId
  {
    RunRowsSpec(rows, runId);
    var run := RunRows(rows, runId);
    if exists x :: x in rows && x.runId == runId {
      var x :| x in rows && x.runId == runId;
      assert x in run;
    }
  }

  /**
   * load_graph raises exactly when some row of the run has a NULL `task_depends` or a token
   * `int()` rejects; the exception is the one of the first such row in task id order.
   */
  lemma BuildGraphFails(rows: seq<TaskRow>, runId: string)
    ensures BuildGraph(rows, runId).BuildFailed? <==> exists x :: x in rows && x.runId == runId && !RowParses(x)
    ensures BuildGraph(rows, runId).BuildFailed? ==> exists x :: x in RunRows(rows, runId) && !RowParses(x)
    ensures BuildGraph(rows, runId).BuildFailed? ==>
      BuildGraph(rows, runId).error == RowError(FirstBadRow(RunRows(rows, runId)))
  {
    RunRowsSpec(rows, runId);
    BuildFromOutcome(Empty, RunRows(rows, runId));
  }

  /** In a built graph, every node that is neither a task of the run nor a sentinel has no attributes. */
  lemma BuiltBare(rows: seq<TaskRow>, runId: string)
    requires BuildGraph(rows, runId).Built?
    ensures BareOutside(BuildGraph(rows, runId).graph, RunTaskIds(rows, runId) + {SourceId, SinkId})
  {
    BuildGraphBuilt(rows, runId);
  }

  /** A built graph keeps a successor set, a predecessor set and attributes for exactly its nodes. */
  lemma BuiltKeyed(rows: seq<TaskRow>, runId: string)
    requires BuildGraph(rows, runId).Built?
    ensures Keyed(BuildGraph(rows, runId).graph)
  {
    BuildGraphBuilt(rows, runId);
  }

  /**
   * The graph load_graph returns: well formed (no repeated edge), a named node for every row of
   * the run, an edge d -> task_id for every dependency d of every row, the two sentinels, no
   * attributes on any other node, and a predecessor and a successor for every node except the
   * sentinels of a one-row run.
   */
  lemma BuildGraphBuilt(rows: seq<TaskRow>, runId: string)
    requires BuildGraph(rows, runId).Built?
    ensures WF(BuildGraph(rows, runId).graph)
    ensures forall x :: x in rows && x.runId == runId ==>
      (&& RowParses(x)
       && x.taskId in BuildGraph(rows, runId).graph.nodes
       && x.taskId in BuildGraph(rows, runId).graph.attrs
       && BuildGraph(rows, runId).graph.attrs[x.taskId].name.Some?
       && BuildGraph(rows, runId).graph.attrs[x.taskId].runtime.Some?
       && HasDependencyEdges(BuildGraph(rows, runId).graph, x))
    ensures var h := BuildGraph(rows, runId).graph;
      && SourceId in h.nodes && SourceId in h.attrs
      && h.attrs[SourceId].name == Some("source") && h.attrs[SourceId].runtime == Some(0.0)
      && SinkId in h.nodes && SinkId in h.attrs
      && h.attrs[SinkId].name == Some("sink") && h.attrs[SinkId].runtime == Some(0.0)
    ensures BareOutside(BuildGraph(rows, runId).graph, RunTaskIds(rows, runId) + {SourceId, SinkId})
    ensures forall n :: n in BuildGraph(rows, runId).graph.nodes && n != SourceId && n != SinkId ==>
      Covered(BuildGraph(rows, runId).graph, n)
    ensures |RunRows(rows, runId)| >= 2 ==>
      forall n :: n in BuildGraph(rows, runId).graph.nodes ==> Covered(BuildGraph(rows, runId).graph, n)
  {
    var run := RunRows(rows, runId);
    RunRowsSpec(rows, runId);
    assert BuildFrom(Empty, run).Success?;
    BuildFromRows(Empty, run);
    BuildFromSentinels(Empty, run);
    BuildFromCovers(Empty, run);
    BuildFromBare(Empty, run, RunTaskIds(rows, runId) + {SourceId, SinkId});
  }
}
