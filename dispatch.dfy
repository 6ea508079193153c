/**
 * The entry point once the two tables are loaded: with a run id, one document written to the
 * `-o` path as given; without one, a document per row of the workflow table, each written to
 * the `-o` path with its suffix replaced by `_<run_id>.json`. Runs are processed in table order,
 * and the first exception ends the process.
 */
module Dispatch {
  import opened Wrappers
  import opened TaskGraph
  import opened WfDocument
  import opened PosixPaths

  /** A document and the path it was dumped to. */
  datatype Written = Written(path: string, doc: Document)

  /** The exception that ended the process. */
  datatype RunError =
    | PathRaised(path: PathError)                    // in `with_suffix` or `with_name`
    | CreateRaised(runId: string, create: CreateError) // in `create_wfcommon`

  /** The documents written, in order, and the exception that stopped the process, if any. */
  datatype Outcome = Outcome(written: seq<Written>, error: Option<RunError>)

  /** `df_wf["run_id"].tolist()` */
  function RunIds(wf: seq<WfRow>): (r: seq<string>)
    ensures |r| == |wf| && forall k :: 0 <= k < |wf| ==> r[k] == wf[k].runId
  {
    if |wf| == 0 then [] else [wf[0].runId] + RunIds(wf[1..])
  }

  /** `output_base.with_name(f"{output_base.name}_{run_id}.json")` */
  function RunPath(base: PurePath, runId: string): Result<PurePath, PathError>
  {
    WithName(base, Name(base) + "_" + runId + ".json")
  }

  /**
   * The all-runs loop from run `runIds[0]` on, with the documents `acc` already written; `create`
   * is `create_wfcommon` on the loaded tables, as a function of the run id.
   */
  function AllRunsFrom(create: string -> Result<Document, CreateError>, base: PurePath, runIds: seq<string>,
                       acc: seq<Written>): Outcome
  {
    if |runIds| == 0 then Outcome(acc, None)
    else
      match RunPath(base, runIds[0])
      case Failure(e) => Outcome(acc, Some(PathRaised(e)))
      case Success(outfile) =>
        match create(runIds[0])
        case Failure(e) => Outcome(acc, Some(CreateRaised(runIds[0], e)))
        case Success(doc) => AllRunsFrom(create, base, runIds[1..], acc + [Written(Str(outfile), doc)])
  }

  /** The `else` branch: `output_base = Path(output).with_suffix("")`, then the loop over the run ids. */
  function AllRuns(rows: seq<TaskRow>, wf: seq<WfRow>, output: string): Outcome
  {
    match WithSuffix(ParsePath(output), "")
    case Failure(e) => Outcome([], Some(PathRaised(e)))
    case Success(base) => AllRunsFrom(runId => CreateWfCommon(rows, wf, runId), base, RunIds(wf), [])
  }

  /** `if args.runid: ... else: ...` (an absent or empty run id selects all runs). */
  function RunScript(rows: seq<TaskRow>, wf: seq<WfRow>, runId: Option<string>, output: string): (r: Outcome)
    ensures runId.Some? && runId.value != "" ==>
      && (r.error.None? <==> CreateWfCommon(rows, wf, runId.value).Success?)
      && (r.error.None? ==> r.written == [Written(output, CreateWfCommon(rows, wf, runId.value).value)])
      && (r.error.Some? ==> r.written == [] && r.error == Some(CreateRaised(runId.value, CreateWfCommon(rows, wf, runId.value).error)))
    ensures !(runId.Some? && runId.value != "") ==>
      && |r.written| <= |wf|
      && (r.error.None? <==> |r.written| == |wf| && Name(ParsePath(output)) != "")
  {
    if runId.Some? && runId.value != "" then
      match CreateWfCommon(rows, wf, runId.value)
      case Failure(e) => Outcome([], Some(CreateRaised(runId.value, e)))
      case Success(doc) => Outcome([Written(output, doc)], None)
    else
      AllRunsCompletes(rows, wf, output);
      AllRuns(rows, wf, output)
  }

  /** The written documents the loop keeps: those it started with, then one per completed run, in order. */
  lemma {:induction false} AllRunsFromWritten(create: string -> Result<Document, CreateError>, base: PurePath,
                                              runIds: seq<string>, acc: seq<Written>)
    ensures var out := AllRunsFrom(create, base, runIds, acc);
      && |acc| <= |out.written| <= |acc| + |runIds|
      && (forall k :: 0 <= k < |acc| ==> out.written[k] == acc[k])
      && (forall k :: 0 <= k < |out.written| - |acc| ==>
            && RunPath(base, runIds[k]).Success? && create(runIds[k]).Success?
            && out.written[|acc| + k] == Written(Str(RunPath(base, runIds[k]).value), create(runIds[k]).value))
    decreases |runIds|
  {
    if |runIds| > 0 && RunPath(base, runIds[0]).Success? && create(runIds[0]).Success? {
      var acc1 := acc + [Written(Str(RunPath(base, runIds[0]).value), create(runIds[0]).value)];
      AllRunsFromWritten(create, base, runIds[1..], acc1);
      assert forall k :: 1 <= k < |runIds| ==> runIds[k] == runIds[1..][k - 1];
    }
  }

  /**
   * The loop ends without an exception exactly when every run was written; otherwise the
   * exception is the one of the first run not written, from its path or from its document.
   */
  lemma {:induction false} AllRunsFromError(create: string -> Result<Document, CreateError>, base: PurePath,
                                            runIds: seq<string>, acc: seq<Written>)
    ensures var out := AllRunsFrom(create, base, runIds, acc);
      && |acc| <= |out.written| <= |acc| + |runIds|
      && (out.error.None? <==> |out.written| == |acc| + |runIds|)
      && (out.error.Some? ==>
            var r := runIds[|out.written| - |acc|];
            || (RunPath(base, r).Failure? && out.error == Some(PathRaised(RunPath(base, r).error)))
            || (RunPath(base, r).Success? && create(r).Failure? && out.error == Some(CreateRaised(r, create(r).error))))
    decreases |runIds|
  {
    if |runIds| > 0 && RunPath(base, runIds[0]).Success? && create(runIds[0]).Success? {
      var acc1 := acc + [Written(Str(RunPath(base, runIds[0]).value), create(runIds[0]).value)];
      AllRunsFromError(create, base, runIds[1..], acc1);
      var out := AllRunsFrom(create, base, runIds, acc);
      if out.error.Some? {
        assert runIds[|out.written| - |acc|] == runIds[1..][|out.written| - |acc1|];
      }
    }
  }

  /** With the base path of `-o`, each run's RunPath is its OutputPath. */
  lemma RunPathIsOutputPath(output: string, runId: string)
    requires WithSuffix(ParsePath(output), "").Success?
    ensures OutputPath(output, runId) == RunPath(WithSuffix(ParsePath(output), "").value, runId)
  {
  }

  /** The loop from the first run id: runs written in order, each to its RunPath, until the first that raises. */
  lemma AllRunsFromStart(create: string -> Result<Document, CreateError>, base: PurePath, runIds: seq<string>)
    ensures var out := AllRunsFrom(create, base, runIds, []);
      && |out.written| <= |runIds|
      && (forall k :: 0 <= k < |out.written| ==>
            && RunPath(base, runIds[k]).Success? && create(runIds[k]).Success?
            && out.written[k] == Written(Str(RunPath(base, runIds[k]).value), create(runIds[k]).value))
      && (out.error.None? <==> |out.written| == |runIds|)
  {
    AllRunsFromWritten(create, base, runIds, []);
    AllRunsFromError(create, base, runIds, []);
    var out := AllRunsFrom(create, base, runIds, []);
    assert forall k :: 0 <= k < |out.written| ==> out.written[0 + k] == out.written[k];
  }

  /** Nothing is written when `-o` has no file name: `with_suffix("")` raises first. */
  lemma AllRunsNoBase(rows: seq<TaskRow>, wf: seq<WfRow>, output: string)
    requires Name(ParsePath(output)) == ""
    ensures AllRuns(rows, wf, output) == Outcome([], Some(PathRaised(EmptyName)))
  {
    OutputBase(output);
  }

  /**
   * All-runs mode writes the k-th document for the k-th workflow row, to that run's OutputPath,
   * holding that run's document.
   */
  lemma AllRunsAt(rows: seq<TaskRow>, wf: seq<WfRow>, output: string, k: int)
    requires 0 <= k < |AllRuns(rows, wf, output).written|
    ensures k < |wf|
    ensures OutputPath(output, wf[k].runId).Success? && CreateWfCommon(rows, wf, wf[k].runId).Success?
    ensures AllRuns(rows, wf, output).written[k] ==
      Written(Str(OutputPath(output, wf[k].runId).value), CreateWfCommon(rows, wf, wf[k].runId).value)
  {
    var base := WithSuffix(ParsePath(output), "").value;
    var create := runId => CreateWfCommon(rows, wf, runId);
    AllRunsFromStart(create, base, RunIds(wf));
    RunPathIsOutputPath(output, wf[k].runId);
  }

  /**
   * All-runs mode ends without an exception exactly when `-o` has a file name and a document was
   * written for every workflow row.
   */
  lemma AllRunsCompletes(rows: seq<TaskRow>, wf: seq<WfRow>, output: string)
    ensures |AllRuns(rows, wf, output).written| <= |wf|
    ensures AllRuns(rows, wf, output).error.None? <==>
      |AllRuns(rows, wf, output).written| == |wf| && Name(ParsePath(output)) != ""
  {
    OutputBase(output);
    if WithSuffix(ParsePath(output), "").Success? {
      var base := WithSuffix(ParsePath(output), "").value;
      AllRunsFromStart(runId => CreateWfCommon(rows, wf, runId), base, RunIds(wf));
    }
  }

  /** Every run of the workflow table has a workflow row, so all-runs mode never fails on `.iloc[0]`. */
  lemma AllRunsHaveWorkflowRow(rows: seq<TaskRow>, wf: seq<WfRow>, k: int)
    requires 0 <= k < |wf|
    ensures CreateWfCommon(rows, wf, wf[k].runId).Failure? ==> CreateWfCommon(rows, wf, wf[k].runId).error != NoWorkflowRow
  {
    CreateWfCommonSpec(rows, wf, wf[k].runId);
    assert wf[k] in wf;
  }

  /** Each file all-runs mode writes is named `..._<run_id>.json`, so two runs never share a file. */
  lemma AllRunsPathsDistinct(rows: seq<TaskRow>, wf: seq<WfRow>, output: string, i: int, j: int)
    requires 0 <= i < j < |wf| && j < |AllRuns(rows, wf, output).written|
    requires wf[i].runId != wf[j].runId
    ensures AllRuns(rows, wf, output).written[i].path != AllRuns(rows, wf, output).written[j].path
  {
    var out := AllRuns(rows, wf, output);
    AllRunsAt(rows, wf, output, i);
    AllRunsAt(rows, wf, output, j);
    var pi := OutputPath(output, wf[i].runId);
    var pj := OutputPath(output, wf[j].runId);
    assert pi.Success? && out.written[i].path == Str(pi.value);
    assert pj.Success? && out.written[j].path == Str(pj.value);
    if Str(pi.value) == Str(pj.value) {
      OutputPathInjective(output, wf[i].runId, wf[j].runId);
    }
  }

  /** Different run ids give different output files. */
  lemma OutputPathInjective(output: string, r1: string, r2: string)
    requires OutputPath(output, r1).Success? && OutputPath(output, r2).Success?
    requires Str(OutputPath(output, r1).value) == Str(OutputPath(output, r2).value)
    ensures r1 == r2
  {
    var q1 := OutputPath(output, r1).value;
    var q2 := OutputPath(output, r2).value;
    OutputPathValid(output, r1);
    OutputPathValid(output, r2);
    ParseStr(q1);
    ParseStr(q2);
    assert q1 == q2;
    OutputPathSpec(output, r1);
    OutputPathSpec(output, r2);
    var stem := Stem(Name(ParsePath(output)));
    var n1 := stem + "_" + r1 + ".json";
    var n2 := stem + "_" + r2 + ".json";
    assert n1 == n2;
    assert r1 == n1[|stem| + 1..|n1| - 5];
    assert r2 == n2[|stem| + 1..|n2| - 5];
  }

  /** Every document run writes: the `-o` path as given with a run id, a path ending in ".json" without one. */
  lemma RunScriptPaths(rows: seq<TaskRow>, wf: seq<WfRow>, runId: Option<string>, output: string)
    ensures runId.Some? && runId.value != "" ==>
      (|RunScript(rows, wf, runId, output).written| <= 1
       && forall w :: w in RunScript(rows, wf, runId, output).written ==> w.path == output)
    ensures !(runId.Some? && runId.value != "") ==>
      forall k :: 0 <= k < |RunScript(rows, wf, runId, output).written| ==>
        var p := RunScript(rows, wf, runId, output).written[k].path; |p| >= 5 && p[|p| - 5..] == ".json"
  {
    if !(runId.Some? && runId.value != "") {
      forall k | 0 <= k < |RunScript(rows, wf, runId, output).written|
        ensures var p := RunScript(rows, wf, runId, output).written[k].path; |p| >= 5 && p[|p| - 5..] == ".json"
      {
        AllRunsAt(rows, wf, output, k);
        OutputPathJson(output, wf[k].runId);
      }
    }
  }

  /** The `else` branch as the program runs it: the loop over the run ids, writing one file per run. */
  method RunAll(rows: seq<TaskRow>, wf: seq<WfRow>, output: string) returns (out: Outcome)
    ensures out == AllRuns(rows, wf, output)
  {
    var baseOr := WithSuffix(ParsePath(output), "");
    if baseOr.Failure? {
      return Outcome([], Some(PathRaised(baseOr.error)));
    }
    var base := baseOr.value;
    var runIds := RunIds(wf);
    var written: seq<Written> := [];
    var i := 0;
    while i < |runIds|
      invariant 0 <= i <= |runIds|
      invariant AllRuns(rows, wf, output) == AllRunsFrom(runId => CreateWfCommon(rows, wf, runId), base, runIds[i..], written)
    {
      assert runIds[i..][1..] == runIds[i + 1..];
      var runId := runIds[i];
      var outfile := RunPath(base, runId);
      if outfile.Failure? {
        return Outcome(written, Some(PathRaised(outfile.error)));
      }
      var doc := CreateWfCommonRun(rows, wf, runId);
      if doc.Failure? {
        return Outcome(written, Some(CreateRaised(runId, doc.error)));
      }
      written := written + [Written(Str(outfile.value), doc.value)];
      i := i + 1;
    }
    return Outcome(written, None);
  }
}
