# ParslToWFCommons in Dafny

This project models `script.py`, which converts Parsl monitoring data into WfCommons workflow documents. It reads two cleaned tables: `task` has one row per task of a run, and `workflow` has one row per run. It then does the following:

- **`load_graph`** builds a networkx `DiGraph` for one run. Its task rows are taken in ascending task id order, and each row does four things:
  - it adds its node;
  - it adds an edge `d -> task_id` for each dependency `d` listed in `task_depends`;
  - it computes the current in-degree-0 and out-degree-0 nodes;
  - it links those nodes from the sentinel `-1` ("source") and to the sentinel `-2` ("sink"), both with runtime 0.
- **`create_wfcommon`** walks the nodes of that graph in insertion order. Each node becomes one specification entry (name, `str(id)`, parents, children) and one execution entry (name, `str(id)`, runtime). The first workflow row of the run supplies the document's name, creation time and makespan.
- **The entry point** writes one document when a run id is given. Otherwise it writes one document per workflow row, to the `-o` path with its suffix replaced by `_<run_id>.json`.

Modules, one concern each:

- `Wrappers`: `Option` and `Result`.
- `PyText`: `str.split`, the filter on empty tokens, `int()` for base 10 and `str()` of an int.
- `NxGraph`: the part of networkx `DiGraph` the script uses. There is a pure `Graph` value (insertion-ordered nodes, attributes, and insertion-ordered successor and predecessor lists). There is also a class `DiGraph` whose methods update those fields in place; each method is proved against the function on the value.
- `TaskGraph`: `load_graph`. `BuildGraph` is the pure specification. The method `LoadGraph` runs the loop on a `DiGraph` and is proved to produce what `BuildGraph` describes.
- `TaskGraphProperties`: what the built graph is: its edges, sentinels, attributes, error cases and coverage.
- `TaskGraphExample`: a two-task run computed end to end.
- `WfDocument`: the node walk and `create_wfcommon` up to the JSON dump.
- `PosixPaths`: the part of `pathlib.PurePosixPath` (Python 3.12) used to name output files.
- `Dispatch`: the `__main__` dispatch between one run and all runs.

Two consequences of the code are worth stating outright:

- **Output names.** All-runs output names always end in `.json` and drop the original extension (`out.txt` gives `out_r.json`; see `PosixPaths.OutputPathReplacesExtension`).
- **Sentinel edges.** Sources and sinks are recomputed after every row, so the two-task run (task 2 depends on task 1) has six edges, including self-loops on both sentinels: `(-1,1)`, `(1,-2)`, `(1,2)`, `(-1,-1)`, `(-2,-2)` and `(2,-2)` (see `TaskGraphExample.WorkedExample`).

## Model

| member | source | states |
|---|---|---|
| PyText.JoinSplit | script.py:55 | joining the pieces of `s.split(',')` with ',' gives `s` back, so splitting loses no text |
| PyText.SplitJoin | script.py:55 | splitting the join of comma-free pieces gives those pieces back |
| PyText.SplitNoSep | script.py:55 | a string without the separator splits into itself alone |
| PyText.NonEmpty | script.py:56 | the filter keeps exactly the tokens of positive length and never adds any |
| PyText.NonEmptyAppend | script.py:56 | filtering a concatenation is the concatenation of the filtered parts, so the kept tokens keep their order and their count |
| PyText.NonEmptyOne | script.py:56 | a single token is kept exactly when its length is positive |
| PyText.DependencyTokensShape | script.py:55-56 | every dependency token is non-empty, holds no ',', and is one of the split pieces |
| PyText.DependencyTokensEmpty | script.py:55-56 | a cell yields no dependency at all exactly when it holds only commas (the empty cell included) |
| PyText.StripLeft | script.py:59 | `int()`'s leading strip removes exactly the leading white space |
| PyText.StripRight | script.py:59 | `int()`'s trailing strip removes exactly the trailing white space |
| PyText.DigitsValueOfNat | script.py:88 | the decimal digits `str()` writes for a natural number read back as that number |
| PyText.ParseInt | script.py:59 | `int(d)` accepts a dependency token only when the token holds a digit and is made of white space, a sign, digits and underscores alone; any other token raises |
| PyText.ParseStripped | script.py:59 | once stripped, an accepted token is an optional sign followed by digits with single underscores between them |
| PyText.StrippedNumeral | script.py:59 | a token whose stripped form `int()` accepts holds a digit and only numeral characters |
| PyText.NumeralToken | script.py:59 | a digit string with an optional sign, framed by white space, holds a digit and only numeral characters |
| PyText.SliceOfSlice | script.py:59 | `d.strip()` is one contiguous slice of `d` with only white space around it |
| PyText.StripLeftOf | script.py:59 | white space in front of text that does not start with white space is exactly what `int()` strips on the left |
| PyText.StripRightOf | script.py:59 | white space after text that does not end with white space is exactly what `int()` strips on the right |
| PyText.ParseSigned | script.py:59 | a stripped optional sign and valid digits parse to the digits' value, negated after "-" |
| PyText.ParseIntAccepts | script.py:59 | conversely, `int(d)` accepts every token made of white space, an optional sign, digits with single underscores between them and white space, with the digits' value negated after "-" |
| PyText.ParseIntToString | script.py:59 | `int(str(n)) == n` for every integer node id |
| PyText.IntToStringInjective | script.py:88 | different node ids get different `str()` ids |
| NxGraph.Update | script.py:57 | `add_node` on an existing node merges like `dict.update`: each of `task_func_name`, `runtime` and `time_invoked` takes the given value when one is given and keeps its current value otherwise, so a sentinel re-added without `time_invoked` keeps an earlier one |
| NxGraph.ZeroDegreeMembers | script.py:62-63 | the comprehension lists exactly the nodes whose adjacency list is empty |
| NxGraph.SourcesSinksMembers | script.py:62-63 | `sources` are exactly the nodes of in-degree 0; `sinks` are exactly the nodes of out-degree 0 |
| NxGraph.WithBareNodeFacts | script.py:59 | creating an endpoint keeps the graph well formed, only grows it, and appends the node only if it is new |
| NxGraph.WithNodeFacts | script.py:57 | `add_node` keeps the graph well formed, only grows it, adds no edge, and appends the node only if it is new |
| NxGraph.WithNodeAttrs | script.py:57 | `add_node` sets each given attribute (`task_func_name`, `runtime`, `time_invoked`) and leaves every other node's attributes unchanged |
| NxGraph.WithEdgeFacts | script.py:59 | `add_edge(u, v)` keeps the graph well formed (no repeated edge) and only grows it; the edges afterwards are the old ones plus `u -> v`; `u` is among the predecessors of `v` |
| NxGraph.WithEdgeAttrs | script.py:59 | `add_edge` creates a missing endpoint with no attributes and changes no existing attributes |
| NxGraph.WithEdgeEdges | script.py:59 | the edge set after `add_edge(u, v)` is the old set plus `(u, v)`, so adding an edge twice changes nothing |
| NxGraph.GrowsEdges | script.py:57-71 | a graph that only grows keeps all its edges |
| NxGraph.GrowsTrans | script.py:50-71 | growing is transitive, across steps and rows |
| NxGraph.DiGraph.constructor | script.py:43 | `nx.DiGraph()` is the empty graph |
| NxGraph.DiGraph.AddNode | script.py:57 | the object's new value is `WithNode` of the old one, and it stays valid |
| NxGraph.DiGraph.AddEdge | script.py:59 | the object's new value is `WithEdge` of the old one, and it stays valid |
| NxGraph.DiGraph.SourceNodes | script.py:62 | the loop returns the nodes of in-degree 0, in node order |
| NxGraph.DiGraph.SinkNodes | script.py:63 | the loop returns the nodes of out-degree 0, in node order |
| TaskGraph.SelectRun | script.py:44 | the selection holds exactly the rows that carry the run id |
| TaskGraph.InsertSorted | script.py:45 | inserting into a sorted list keeps it sorted and adds exactly that row |
| TaskGraph.SortSpec | script.py:45 | the sort orders by ascending task id and is a permutation of its input |
| TaskGraph.RunRowsSpec | script.py:44-45 | the run's rows are sorted by task id and are a permutation of the selection |
| TaskGraph.AddDependencyEdges | script.py:58-59 | the edge loop leaves the graph at `AddDependencies` of the old value, or stops at the first bad token with its error |
| TaskGraph.AttachSentinels | script.py:61-71 | the sentinel block leaves the graph at `Attach` of the old value |
| TaskGraph.AddRow | script.py:51-71 | one loop iteration leaves the graph at `Step` of the old value, or reports the error `Step` raises |
| TaskGraph.BuildDag | script.py:49-72 | the loop over the sorted rows returns a fresh, valid graph whose value is `BuildFrom(Empty, rows)`, or that call's error |
| TaskGraph.LoadGraph | script.py:42-72 | what `load_graph` returns (None, an exception, or a fresh graph) is exactly `BuildGraph` |
| TaskGraphProperties.GrowsKeepsNodes | script.py:57-71 | a graph that only grows keeps all its nodes |
| TaskGraphProperties.GrowsKeepsEdge | script.py:57-71 | a graph that only grows keeps every edge |
| TaskGraphProperties.LinkFromFacts | script.py:68-69 | linking `-1` to the sources adds an edge to each of them and keeps the nodes and attributes |
| TaskGraphProperties.LinkToFacts | script.py:70-71 | linking the sinks to `-2` adds an edge from each of them and keeps the nodes and attributes |
| TaskGraphProperties.WithSentinelsFacts | script.py:65-66 | after the two `add_node` calls, `-1` is "source" and `-2` is "sink", both with runtime 0; the other attributes are unchanged |
| TaskGraphProperties.AttachShape | script.py:61-71 | the sentinel block keeps the graph well formed, only grows it, and adds only the sentinels as attributed nodes |
| TaskGraphProperties.AttachCovers | script.py:61-71 | every node present when sources and sinks were computed has a predecessor and a successor afterwards |
| TaskGraphProperties.AddDependenciesOutcome | script.py:58-59 | the edge loop succeeds exactly when every token parses; otherwise it raises on the first token `int()` rejects |
| TaskGraphProperties.AddDependenciesEdges | script.py:58-59 | every parsed dependency `d` gives an edge `d -> task_id` |
| TaskGraphProperties.AddDependenciesAttrs | script.py:59 | a dependency that is not yet a node becomes one without attributes; existing attributes are kept |
| TaskGraphProperties.StepOutcome | script.py:51-59 | a row raises exactly when its `task_depends` is NULL or holds a bad token, and with that error |
| TaskGraphProperties.BeforeAttachFacts | script.py:57-59 | after `add_node` and the edge loop, the row's node is named, has a runtime, and has an edge from each of its dependencies |
| TaskGraphProperties.StepShape | script.py:50-71 | after a row, the graph is well formed and grown; it holds the named task, its dependency edges and both sentinels |
| TaskGraphProperties.StepAttrs | script.py:57-66 | a row sets attributes only on its task and the sentinels |
| TaskGraphProperties.StepCovers | script.py:61-71 | after a row, every node except a sentinel the row itself created has a predecessor and a successor |
| TaskGraphProperties.BuildFromOutcome | script.py:50-71 | the loop succeeds exactly when every row parses; otherwise it raises the first bad row's error |
| TaskGraphProperties.BuildFromRows | script.py:50-71 | after the loop, every row's task is a named node with a runtime and its dependency edges |
| TaskGraphProperties.BuildFromSentinels | script.py:65-66 | after at least one row, both sentinels are present with their names and runtime 0 |
| TaskGraphProperties.BuildFromCovers | script.py:61-71 | at the end, every node has a predecessor and a successor, the sentinels included from the second row on |
| TaskGraphProperties.BuildFromBare | script.py:59 | nodes that are neither tasks nor sentinels never get attributes |
| TaskGraphProperties.BuildGraphNone | script.py:46-47 | `load_graph` returns None exactly when no row has the run id |
| TaskGraphProperties.BuildGraphFails | script.py:55-59 | `load_graph` raises exactly when a row of the run has a NULL cell or a bad token, and it raises the error of the first such row in task id order |
| TaskGraphProperties.BuildGraphBuilt | script.py:42-72 | the returned graph has no repeated edge, a named node and dependency edges for every row, and both sentinels. It has no attributes on any other node, and it covers every node (all nodes once the run has two or more rows) |
| TaskGraphExample.SelectSort | script.py:44-45 | rows with task ids 2 then 1 are processed as 1 then 2 |
| TaskGraphExample.TokenExamples | script.py:55-59 | an empty cell gives no dependency; "1" gives the dependency 1 |
| TaskGraphExample.SplitExample | script.py:55-56 | the cell "1,,3" gives the tokens "1" and "3" |
| TaskGraphExample.SeparatorParse | script.py:59 | `int("\x1c7")` raises: the separator 0x1C is not white space to `int()` |
| TaskGraphExample.BadTokenExample | script.py:59 | the cell "1,x" raises on the token "x" |
| TaskGraphExample.WorkedExample | script.py:42-72 | for tasks 1 and 2 (2 depends on 1), the nodes are `[1, -1, -2, 2]` and the edges are exactly `(-1,1), (1,-2), (1,2), (-1,-1), (-2,-2), (2,-2)` |
| WfDocument.StringifyElements | script.py:89-90 | each string in the parents and children lists is `str()` of the node at the same position, and reads back as that node |
| WfDocument.WalkOutcome | script.py:84-98 | the walk fails exactly when some node lacks `task_func_name` or `runtime`, and it fails on the first such node |
| WfDocument.SpecEntriesAt | script.py:86-92 | the k-th specification entry is the one built from the k-th node |
| WfDocument.ExecEntriesAt | script.py:93-98 | the k-th execution entry is the one built from the k-th node |
| WfDocument.WalkEntries | script.py:84-98 | one specification entry and one execution entry per node, in node order. Entry k has id `str(node)`, the node's name and runtime, and its predecessors and successors as strings |
| WfDocument.WalkIdsDistinct | script.py:88 | no two specification entries share an id |
| WfDocument.WalkNodes | script.py:84-98 | the loop over the mutable graph returns exactly `Walk` of its value |
| WfDocument.BuiltNamedNode | script.py:57 | in a built graph, task and sentinel nodes carry both attributes the walk reads |
| WfDocument.BuiltBareNode | script.py:59 | in a built graph, any other node (a dependency with no row) has no attributes |
| WfDocument.WalkBuilt | script.py:76-98 | the walk of a built graph succeeds exactly when every dependency is a task of the run |
| WfDocument.FirstWfRowSpec | script.py:77 | `.iloc[0]` is the first workflow row with the run id, and it is missing exactly when no row has it |
| WfDocument.CreateWfCommonSpec | script.py:74-98 | a document is produced exactly when the run's rows all parse, a workflow row exists and every dependency is a task. It has one entry per node and takes its metadata from the first workflow row. Otherwise the error is the first one the code raises: a row that fails to parse raises in `load_graph`; no workflow row raises at `.iloc[0]`; a run without task rows (but with a workflow row) raises on `None.nodes`; and a walk failure gives the walk's own error |
| WfDocument.CreateWfCommonRun | script.py:74-98 | running `create_wfcommon` on the mutable graph gives exactly `CreateWfCommon` |
| PosixPaths.SplitRoot | script.py:152 | the root split gives back the whole path text and a root of "", "/" or "//" |
| PosixPaths.Parts | script.py:152 | parsing keeps exactly the non-empty components other than "." |
| PosixPaths.ParsePath | script.py:152 | every parsed path is valid |
| PosixPaths.ParseStr | script.py:152 | `Path(str(p)) == p` for every valid path |
| PosixPaths.ParseIdempotent | script.py:152 | parsing a path's string again gives the same path |
| PosixPaths.RFind | script.py:152 | the last occurrence of a character, or -1 |
| PosixPaths.StemSuffix | script.py:152-154 | stem followed by suffix is the name; a suffix is empty or '.' plus text without a dot |
| PosixPaths.WithNameSpec | script.py:154 | `with_name` fails exactly on an empty name or an invalid new name; otherwise it replaces only the last component |
| PosixPaths.WithSuffixSpec | script.py:152 | `with_suffix` keeps the root and the parent and puts the stem followed by the new suffix last, even when that name is "." (it does not go through `with_name`); giving a path its own suffix changes nothing |
| PosixPaths.OutputBase | script.py:152 | `with_suffix("")` fails exactly on an empty name; otherwise it replaces the name by its stem, "." included |
| PosixPaths.OutputPathSpec | script.py:152-154 | the output path keeps the root and directory of `-o` and is named `<stem>_<run_id>.json`. It fails exactly when `-o` has no name or the run id holds "/" |
| PosixPaths.OutputNameIsPart | script.py:154 | the new file name is a valid component exactly when the run id holds no "/" |
| PosixPaths.OutputPathValid | script.py:152-154 | every output path is a valid path |
| PosixPaths.OutputPathJson | script.py:154 | every output file name ends in ".json" |
| PosixPaths.OutputPathDotStem | script.py:152-154 | `-o ..json` with run `r` gives `._r.json`: a stem "." is kept, not rejected |
| PosixPaths.OutputOfName | script.py:152-154 | for a bare file name, the output path is the single component `<stem>_<run_id>.json` |
| PosixPaths.OutputPathReplacesExtension | script.py:152-154 | `out.txt` with run `r` gives `out_r.json` |
| PosixPaths.OutputPathKeepsInnerDots | script.py:152-154 | `a.b.json` with run `r` gives `a.b_r.json` |
| Dispatch.RunIds | script.py:151 | the run ids are those of the workflow rows, in table order |
| Dispatch.RunPathIsOutputPath | script.py:152-154 | the loop's file path for a run is that run's `OutputPath` |
| Dispatch.AllRunsFromStart | script.py:153-155 | the loop writes runs in order, each to its path, until the first that raises; it ends without error exactly when it wrote all runs |
| Dispatch.AllRunsNoBase | script.py:152 | when `-o` has no file name, `with_suffix("")` raises before anything is written |
| Dispatch.AllRunsAt | script.py:151-155 | the k-th written document is the k-th workflow run's document, at that run's output path |
| Dispatch.AllRunsCompletes | script.py:151-155 | all-runs mode ends without an exception exactly when `-o` has a file name and every workflow row got its document |
| Dispatch.AllRunsHaveWorkflowRow | script.py:77 | in all-runs mode, `.iloc[0]` never fails, because every run id comes from the workflow table |
| Dispatch.OutputPathInjective | script.py:154 | different run ids give different output paths |
| Dispatch.AllRunsPathsDistinct | script.py:153-155 | runs with different ids are written to different files |
| Dispatch.RunScript | script.py:147-155 | with a run id, the one document is written to `-o` exactly when `create_wfcommon` succeeds, and its exception is the outcome otherwise; without one, at most one document per workflow row is written, and the process ends without an exception exactly when `-o` has a file name and every row got its document |
| Dispatch.RunScriptPaths | script.py:147-155 | with a run id, at most one document is written, to `-o` exactly; without one, every written path ends in ".json" |
| Dispatch.RunAll | script.py:151-155 | the loop as a method gives exactly `AllRuns` |

## Left out

- The loader `load_df_tasks_from_db` (script.py:5-40) is not part of this model: SQLite, pandas filtering, datetime parsing and runtime computation. Its output enters as two sequences of rows (`TaskRow`, `WfRow`) that are assumed already cleaned.
- The JSON document's constant fields are not modelled (script.py:99-126: description, schema version, author placeholders, runtime system). Neither are `json.dump` and the file writing, or the `print` (script.py:127-129). `Document` keeps only the fields taken from the data.
- Argument parsing and `exit(1)` after a failed load (script.py:131-146) are not modelled. The run id and the `-o` path are parameters of `Dispatch.RunScript`; an empty `--runid` counts as absent, as `if args.runid` treats it.
- TaskGraph.SortByTaskId: pandas' default sort is not stable. The model uses a stable insertion sort, so rows that share a task id may be taken in a different order.
- Runtimes are `real` and timestamps are opaque strings. Floating-point effects and the exact `str()` of a pandas timestamp are not modelled.
- PyText.ParseInt: strips only the ASCII white space `int()` skips (tab to carriage return, and space; not 0x1C-0x1F, on which `int()` raises here as in the program) and accepts only ASCII digits. `int()` also strips white space above U+007F (such as U+00A0) and accepts non-ASCII decimal digits; such tokens are rejected here.
- PyText.ParseInt: has no limit on the number of digits. Since Python 3.11, `int()` raises on a string of more than 4300 digits, so such a dependency token raises in the program but parses here. Task ids read from the database are 64-bit integers and never come near that length.
- A NULL `task_depends` cell is modelled as `None`, and the row raises (`NullDepends`), as `None.split(',')` does. Other non-string cells are not modelled.
- Paths follow `pathlib` of Python 3.12 on POSIX: `with_suffix` replaces the last component directly, so `-o ..json` gives the base name "." and the output file `._<run_id>.json`. Windows paths and other Python versions are not modelled.
- Node ids are unbounded integers. The int64 width of the pandas column is not modelled.
- The file system is not modelled. `Outcome.written` records the documents written before the first exception; those files stay on disk.
