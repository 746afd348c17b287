# Houdini PDG Afanasy scheduler, dependency walks and drag-and-drop hook

This project models, in Dafny, five Python scripts of a Houdini tools repository:

- **The Afanasy scheduler adapter** (`houdini/afanasy_scheduler/afanasyscheduler.py`). It is a PDG scheduler. `onSchedule` turns a work item's command template into an Afanasy job: one block holding one task, plus the environment that task reads. It keeps a ledger `active_jobs` of submitted job ids. A periodic `tick` polls the farm for each job id in the ledger, classifies each task's state string, sends lifecycle callbacks to the PDG engine and deletes finished jobs. It also starts and stops the callback server, counts cooks in `cook_id` and shuts down shared servers.
- **The farm-side helpers** (`houdini/afanasy_scheduler/pdgcmd.py`):
  - path delocalisation and localisation against the `__PDG_DIR__` family of tokens;
  - the job id lookup through `PDG_JOBID_VAR`;
  - the start-cook and failed calls;
  - the checks and the per-element loop of `reportResultData`;
  - `writeAttribute`.
- **Two dependency walks over a node network:**
  - `houdini/dependency_nodes/traversenetwork.py` visits inputs first and recurses on every node it appends;
  - `houdini/dependency_nodes/traverseNetwork.py` visits references first, then inputs, then parameter owners, and recurses on the last node it appended (`curr_node`).

  Each file has a `dependencyNodes` that runs the walk from a node and from each of its input ancestors.
- **The external drag-and-drop hook** (`houdini/drag_drop_files/externaldragdrop.py`). `dropAccept` refuses a drop whose first file is a `.hip`. Otherwise `loadContents` loads each file into the current network editor. It chooses the handlers by the network's child type category and picks the node to create by the file's extension; the extension is matched with a regular expression built from the extension lists.

The files of the model:

| file | module | models |
|---|---|---|
| `py_base.dfy` | `PyBase` | `Option`, `Result`, Python exceptions, dynamically typed values |
| `py_str.dfy` | `PyStr` | `str.replace` (all occurrences and `count=1`), `split`/`join`, `strip`, `str(int)`, `"{:04d}"`, `int(str)` |
| `pdg_engine.dfy` | `PdgEngine` | the `pdg.scheduleResult` values and the engine callbacks |
| `afanasy_job.dfy` | `AfanasyJob` | the value side of `onSchedule`: interpreter and HFS paths, token substitution, the job description |
| `afanasy_tick.dfy` | `AfanasyTick` | one pass of `tick` as a function, with its properties |
| `afanasy_scheduler.dfy` | `AfanasyScheduler` | the scheduler object (class `Scheduler`) and its callbacks |
| `pdgcmd.dfy` | `PdgCmd` | the farm-side helpers |
| `node_graph.dfy` | `NodeGraph` | the network queries, the shared `nodes` list (class `NodeList`), reachability |
| `traverse_network.dfy` | `TraverseNetwork` | the inputs-first walk |
| `traverse_network_parms.dfy` | `TraverseNetworkParms` | the references-first walk with `curr_node` |
| `external_drag_drop.dfy` | `ExternalDragDrop` | the regex, path and title-case semantics, the handlers, `dropAccept` (class `DragDrop`) |

Code that updates state in place is modelled as classes with `modifies` clauses:

- the scheduler object;
- the walks' shared list;
- the hook's global `position` and the scene it builds.

Each method is proved against a function of its inputs and its old state. Pure code is modelled as functions and lemmas.

Some behaviours of the code are worth knowing, because they are not what a reader of the docstrings or of the surrounding comments would expect:

- **Short command line.** The `onSchedule` docstring (`afanasyscheduler.py:200-207`) promises `Succeeded` on success and `Failed` on failure. When the normalised command line is shorter than two characters, the code logs an error and still answers `Succeeded`, without submitting anything (`AfanasyJob.ScheduleShortCommand`).
- **Whitespace-only state.** The comment at `afanasyscheduler.py:408` calls an empty state a ghost job, to be failed. The code checks the length before stripping, so a state made only of blanks is not a ghost. It is left unclassified, and the job stays in the ledger (`AfanasyTick.WhitespaceStateUnclassified`).
- **Faults in `tick`.** One `try` encloses the whole loop (`afanasyscheduler.py:387-438`). The first exception on any job abandons the rest of the pass, and `tick` answers False. Entries removed before the exception stay removed (`AfanasyTick.TickFrom`, `AfanasyTick.DoneWithoutTimeAborts`).
- **Jobs left at teardown.** `onStopCook` only cancels the timer and shuts down the shared servers. Jobs still in the ledger are not reported, and the ledger is left as it is (`AfanasyScheduler.Scheduler.OnStopCook`).
- **Push handlers.** The `workItem*` forwarders never touch the ledger.

## Model

| member | source | states |
|---|---|---|
| AfanasyJob.GetHfsPath | houdini/afanasy_scheduler/afanasyscheduler.py:146-156 | the universal path wins when it is switched on; otherwise the path for a `win`, `darwin`/`mac` or `linux` platform; nothing exactly when none applies |
| AfanasyJob.UniversalHfsIgnoresPlatform | houdini/afanasy_scheduler/afanasyscheduler.py:146-149 | with the universal HFS switched on, every platform gets the same path |
| AfanasyJob.EnvOr | houdini/afanasy_scheduler/afanasyscheduler.py:174 | `os.environ.get(name) or fallback`: a missing or empty variable falls back |
| AfanasyJob.PythonBin | houdini/afanasy_scheduler/afanasyscheduler.py:158-175 | a non-empty `PDG_PYTHON` wins; otherwise the platform's default, with variables expanded |
| AfanasyJob.HythonBin | houdini/afanasy_scheduler/afanasyscheduler.py:177-193 | a non-empty `PDG_HYTHON` wins; otherwise the platform's default, with variables expanded |
| AfanasyJob.InterpreterDefaults | houdini/afanasy_scheduler/afanasyscheduler.py:168-193 | the defaults on macOS, Linux and Windows; on macOS python is the bare `python` while hython comes from `$HFS/bin` |
| AfanasyJob.GetLogUri | houdini/afanasy_scheduler/afanasyscheduler.py:530-533 | the URI starts with `file:///` and the local temp dir's `logs/` and ends with the item name and `.log` |
| AfanasyJob.LogUriInjective | houdini/afanasy_scheduler/afanasyscheduler.py:530-533 | two items with the same log URI have the same name |
| AfanasyJob.ReplaceEachAbsent | houdini/afanasy_scheduler/afanasyscheduler.py:227-234 | a command mentioning none of the tokens passes through the substitution chain unchanged |
| AfanasyJob.ReplaceEachConcat | houdini/afanasy_scheduler/afanasyscheduler.py:227-234 | running a chain of substitutions equals running its two halves one after the other |
| AfanasyJob.MaterializePythonItem | houdini/afanasy_scheduler/afanasyscheduler.py:227-234 | for any item name and python path without a double underscore, `__PDG_PYTHON__ run.py __PDG_ITEM_NAME__` becomes `<python> run.py <item>`, whatever the other token values are |
| AfanasyJob.MaterializeExample | houdini/afanasy_scheduler/afanasyscheduler.py:227-234 | the worked example: item `task_3` with python `/usr/bin/python` gives `/usr/bin/python run.py task_3` |
| AfanasyJob.HeadItemNoToken | houdini/afanasy_scheduler/afanasyscheduler.py:228-232 | once the item name is in, none of the directory or server tokens occurs in the command |
| AfanasyJob.BuildJobShape | houdini/afanasy_scheduler/afanasyscheduler.py:251-291 | the job has one block with one task that runs the command line under the item's name; it is named `workitem_<node>`, `PDG_INDEX` and the zero-padded `PDG_INDEX4` read back as the index, with `PDG_INDEX4` exactly four digits long for an index below 10000, both temp variables name the temp dir, `PDG_JOBID_VAR` leads to the cook id, and the run time is given in seconds |
| AfanasyJob.Schedule | houdini/afanasy_scheduler/afanasyscheduler.py:199-315 | `CookSucceeded` exactly for an empty command, and then no job; unbalanced quotes, or unprepared files or no `HOUDINI_USER_PREF_DIR` for a command line of two characters or more, give `Failed` with nothing sent; otherwise the job built from the split command line is sent; `Succeeded` with the farm's id when the farm answers with one, `Failed` with no id when it does not |
| AfanasyJob.ScheduleShortCommand | houdini/afanasy_scheduler/afanasyscheduler.py:236-240 | a command line shorter than two characters is reported `Succeeded` with nothing submitted |
| AfanasyJob.ScheduleSendRefused | houdini/afanasy_scheduler/afanasyscheduler.py:296-315 | a send that fails is reported `Failed` and leaves no ledger id |
| AfanasyJob.ScheduleSubmitsItsJob | houdini/afanasy_scheduler/afanasyscheduler.py:276-291 | every submitted job runs the normalised command line and carries the cook id and the padded index |
| AfanasyTick.Classify | houdini/afanasy_scheduler/afanasyscheduler.py:391-434 | no record means lost; an empty state means ghost; once stripped, `RUN` means running, `RDY RER` means errored, and `DON`/`SKP` with both times means done with their difference as the duration; a reply that cannot be read, or a finished task missing a time, is a fault, and exactly then for a non-empty state; every other stripped state is left unclassified |
| AfanasyTick.VerdictEvents | houdini/afanasy_scheduler/afanasyscheduler.py:391-434 | at most one callback, always with index -1 and the ledger's item name; a terminal callback exactly for a terminal verdict |
| AfanasyTick.Step | houdini/afanasy_scheduler/afanasyscheduler.py:391-434 | one key of the pass: it stops on a fault or on a missing ledger entry; otherwise it makes the verdict's callbacks, deleting the entry on a terminal verdict |
| AfanasyTick.TickFrom | houdini/afanasy_scheduler/afanasyscheduler.py:380-440 | the pass only deletes ledger entries and never changes one; it succeeds only after handling every key |
| AfanasyTick.TickOkIffNoFault | houdini/afanasy_scheduler/afanasyscheduler.py:387-440 | over distinct keys held by the ledger, `tick` answers True exactly when no reply is a fault |
| AfanasyTick.TickExactlyOnce | houdini/afanasy_scheduler/afanasyscheduler.py:389-434 | over distinct keys, the number of deleted entries equals the number of terminal callbacks made |
| AfanasyTick.TickHandledKeys | houdini/afanasy_scheduler/afanasyscheduler.py:389-434 | a key the pass handled stays in the ledger exactly when its verdict was not terminal |
| AfanasyTick.TickKeepsUnreached | houdini/afanasy_scheduler/afanasyscheduler.py:387-439 | entries the pass did not reach before an exception stay in the ledger |
| AfanasyTick.TickEventsFromHandled | houdini/afanasy_scheduler/afanasyscheduler.py:389-434 | every callback has index -1 and names the ledger item of a handled key |
| AfanasyTick.RunningStays | houdini/afanasy_scheduler/afanasyscheduler.py:417-419 | a running job stays in the ledger and gets exactly one start callback |
| AfanasyTick.WhitespaceStateUnclassified | houdini/afanasy_scheduler/afanasyscheduler.py:408-415 | a state made only of blanks passes the length check, strips to nothing and is left alone |
| AfanasyTick.DoneWithoutTimeAborts | houdini/afanasy_scheduler/afanasyscheduler.py:427-430 | a finished task whose job info lacks a time raises |
| AfanasyTick.PollStep | houdini/afanasy_scheduler/afanasyscheduler.py:389-434 | the step at a key either stops the pass on the current ledger or leaves the rest of the pass accounting for the whole |
| AfanasyScheduler.PortRangeUpdate | houdini/afanasy_scheduler/afanasyscheduler.py:364-370 | the server is restarted exactly when the override is on and the range differs from the one applied; the range in use afterwards |
| AfanasyScheduler.PortRangeSettles | houdini/afanasy_scheduler/afanasyscheduler.py:364-370 | a second cook with the same settings does not restart the server |
| AfanasyScheduler.WorkingDirs | houdini/afanasy_scheduler/afanasyscheduler.py:129-144 | the local working dir has no backslash; the remote one is the same without the override, and otherwise ends with the relative base |
| AfanasyScheduler.SnapshotOf | houdini/afanasy_scheduler/afanasyscheduler.py:389 | `keys()`: every ledger key exactly once |
| AfanasyScheduler.Scheduler.constructor | houdini/afanasy_scheduler/afanasyscheduler.py:29-35 | the ledger and the shared servers start empty; the cook id is `'0'`, no port range is applied, and the server and the timer are stopped |
| AfanasyScheduler.Scheduler.WorkItemSucceeded | houdini/afanasy_scheduler/afanasyscheduler.py:457-462 | forwards exactly one success callback and nothing else |
| AfanasyScheduler.Scheduler.WorkItemFailed | houdini/afanasy_scheduler/afanasyscheduler.py:464-469 | forwards exactly one failure callback and nothing else |
| AfanasyScheduler.Scheduler.WorkItemCancelled | houdini/afanasy_scheduler/afanasyscheduler.py:471-476 | forwards exactly one cancel callback and nothing else |
| AfanasyScheduler.Scheduler.WorkItemStartCook | houdini/afanasy_scheduler/afanasyscheduler.py:478-483 | forwards exactly one start callback and nothing else |
| AfanasyScheduler.Scheduler.WorkItemFileResult | houdini/afanasy_scheduler/afanasyscheduler.py:485-489 | forwards exactly one file-result callback and nothing else |
| AfanasyScheduler.Scheduler.WorkItemSetAttribute | houdini/afanasy_scheduler/afanasyscheduler.py:491-495 | forwards exactly one attribute callback and nothing else |
| AfanasyScheduler.Scheduler.StartCallbackServer | houdini/afanasy_scheduler/afanasyscheduler.py:370-373 | the server runs with the applied port range and one start is logged |
| AfanasyScheduler.Scheduler.StopCallbackServer | houdini/afanasy_scheduler/afanasyscheduler.py:369 | the server is stopped and one stop is logged |
| AfanasyScheduler.Scheduler.OnSchedule | houdini/afanasy_scheduler/afanasyscheduler.py:199-315 | the answer and the ledger id are those of `Schedule`; the ledger gains exactly that id for the item and no other change |
| AfanasyScheduler.Scheduler.HandleJob | houdini/afanasy_scheduler/afanasyscheduler.py:391-434 | one loop body of `tick` has the effect of the specification's `Step` on the ledger and the callbacks |
| AfanasyScheduler.Scheduler.PollEach | houdini/afanasy_scheduler/afanasyscheduler.py:387-440 | the loop of `tick` leaves the ledger, the callbacks and the answer of `TickFrom` |
| AfanasyScheduler.Scheduler.Tick | houdini/afanasy_scheduler/afanasyscheduler.py:380-440 | `tick` iterates over a snapshot of the ledger's keys, with the outcome of `TickFrom` on that snapshot |
| AfanasyScheduler.Scheduler.OnStartCook | houdini/afanasy_scheduler/afanasyscheduler.py:343-378 | the cook counter goes up by one before anything can fail; a missing shared root or an absolute working dir raises its error and changes nothing else; otherwise the answer is `Ok(True)`, the working dirs are set, the port range is applied, the callback server ends up running and the tick timer is started |
| AfanasyScheduler.Scheduler.StartCookServices | houdini/afanasy_scheduler/afanasyscheduler.py:363-376 | a changed port range stops and restarts the server; a server not running is started once; the timer runs |
| AfanasyScheduler.Scheduler.EndSharedServer | houdini/afanasy_scheduler/afanasyscheduler.py:510-528 | answers True exactly when the server is known and shuts down, and only then forgets it |
| AfanasyScheduler.Scheduler.StopSharedServers | houdini/afanasy_scheduler/afanasyscheduler.py:498-500 | afterwards exactly the known servers that refused to shut down remain |
| AfanasyScheduler.Scheduler.OnSharedServerStarted | houdini/afanasy_scheduler/afanasyscheduler.py:502-508 | records the reported arguments under their `name`; a missing `name` raises `KeyError` and records nothing |
| AfanasyScheduler.Scheduler.OnStopCook | houdini/afanasy_scheduler/afanasyscheduler.py:442-450 | the timer stops and the shared servers are shut down; the ledger is not touched |
| AfanasyScheduler.Scheduler.OnStart | houdini/afanasy_scheduler/afanasyscheduler.py:320-329 | the callback server is started and the answer is True |
| AfanasyScheduler.Scheduler.OnStop | houdini/afanasy_scheduler/afanasyscheduler.py:331-341 | the callback server is stopped, the shared servers are shut down, and the answer is True |
| PdgCmd.DelocalizePath | houdini/afanasy_scheduler/pdgcmd.py:35-53 | without `PDG_DIR` the path is untouched; with it the result has no backslash |
| PdgCmd.DelocalizeFirstOccurrence | houdini/afanasy_scheduler/pdgcmd.py:48-50 | only the first occurrence of the directory becomes `__PDG_DIR__`; everything after it, later occurrences included, is kept |
| PdgCmd.DelocalizeOutside | houdini/afanasy_scheduler/pdgcmd.py:48-50 | a path outside the directory only has its backslashes turned into slashes |
| PdgCmd.SubstituteFrom | houdini/afanasy_scheduler/pdgcmd.py:67-72 | an error is always a `KeyError` for one of the variables that is missing; with every variable present there is no error |
| PdgCmd.SubstituteSchedulerVars | houdini/afanasy_scheduler/pdgcmd.py:67-72 | the loop over the five variables computes `SubstituteFrom` |
| PdgCmd.SubstituteNoTokens | houdini/afanasy_scheduler/pdgcmd.py:67-72 | data with none of the tokens comes back unchanged, whatever the environment holds |
| PdgCmd.SubstituteMissing | houdini/afanasy_scheduler/pdgcmd.py:68-71 | the first token present whose variable is missing is the `KeyError` raised |
| PdgCmd.LocalizePath | houdini/afanasy_scheduler/pdgcmd.py:74-84 | a localised path has no backslash; it fails exactly when the substitution fails |
| PdgCmd.LocalizeDelocalize | houdini/afanasy_scheduler/pdgcmd.py:35-84 | a path under `PDG_DIR`, delocalised and then localised with the same `PDG_DIR`, comes back as the original with forward slashes |
| PdgCmd.JobIdLookup | houdini/afanasy_scheduler/pdgcmd.py:131-134 | the job id is the variable named by `PDG_JOBID_VAR`, and `''` when either lookup fails |
| PdgCmd.JobIdOnFarm | houdini/afanasy_scheduler/pdgcmd.py:131-134 | a task running with the block environment the scheduler set reads the scheduler's cook id |
| PdgCmd.ExecStartCook | houdini/afanasy_scheduler/pdgcmd.py:123-140 | a batch sub-item (`subindex >= 0`) calls `start_cook_batch`, any other item `start_cook`; the call carries the item, the job id and the proxy; one line is printed exactly when `to_stdout` is set |
| PdgCmd.ExecItemFailed | houdini/afanasy_scheduler/pdgcmd.py:102-121 | the `failed` call carries the item and the job id, and nothing is printed |
| PdgCmd.CallsCarryCookId | houdini/afanasy_scheduler/pdgcmd.py:102-140 | on the farm both calls carry the cook id the scheduler handed out |
| PdgCmd.AsList | houdini/afanasy_scheduler/pdgcmd.py:160-163 | a list is taken as it is; anything else is wrapped into a one-element list |
| PdgCmd.CheckResultData | houdini/afanasy_scheduler/pdgcmd.py:160-168 | accepts exactly a non-empty list whose first element is string-like; otherwise raises one of the two `TypeError`s |
| PdgCmd.ResolveItemName | houdini/afanasy_scheduler/pdgcmd.py:170-171 | a given name wins; otherwise `PDG_ITEM_NAME`, or a `KeyError` |
| PdgCmd.ResolveServer | houdini/afanasy_scheduler/pdgcmd.py:173-178 | the socket is used exactly when an address is given or `PDG_RESULT_SERVER` is set; without one, the address is left as it was |
| PdgCmd.ProxyAddressAsWritten | houdini/afanasy_scheduler/pdgcmd.py:182 | `'http://' + server_addr` raises exactly when the address is `None` |
| PdgCmd.ProxyAddressAsWrittenRaises | houdini/afanasy_scheduler/pdgcmd.py:173-182 | without `PDG_RESULT_SERVER`, the default call chooses stdout-only reporting and then raises at the proxy |
| PdgCmd.ProxyAddress | houdini/afanasy_scheduler/pdgcmd.py:148-150 | the corrected proxy: none exactly when there is no address, otherwise `http://` and the address |
| PdgCmd.ProxyAddressAgrees | houdini/afanasy_scheduler/pdgcmd.py:182 | with an address the two proxy addresses agree; without one the corrected one gives no proxy |
| PdgCmd.Take | houdini/afanasy_scheduler/pdgcmd.py:212 | `s[0:n]` is the prefix of length `min(len(s), n)` |
| PdgCmd.Display | houdini/afanasy_scheduler/pdgcmd.py:210-214 | elements of length up to 100 show their `repr`; longer ones show exactly the first 90 characters of it (or all of a shorter `repr`) followed by `...(<len> bytes)`; an element without a length raises |
| PdgCmd.Payload | houdini/afanasy_scheduler/pdgcmd.py:196-200 | a file-path element is delocalised unless it already starts with `__PDG_DIR__`; other elements pass unchanged; a non-string file path raises |
| PdgCmd.ElementLines | houdini/afanasy_scheduler/pdgcmd.py:210-218 | nothing is printed without `to_stdout`; otherwise the `PDG_RESULT` line with the display text, then the `PDG_SUCCESS` line with the duration when `and_success` is set |
| PdgCmd.ReportElement | houdini/afanasy_scheduler/pdgcmd.py:195-219 | one element gives one payload, as `Payload` computes it; it fails without `PDG_SHARED_TEMP` |
| PdgCmd.ReportElements | houdini/afanasy_scheduler/pdgcmd.py:195-219 | a successful loop has one payload per element, each as `Payload` computes it |
| PdgCmd.ReportResultData | houdini/afanasy_scheduler/pdgcmd.py:142-242 | the method computes `ReportResultSpec`, with the proxy address corrected |
| PdgCmd.ReportLoop | houdini/afanasy_scheduler/pdgcmd.py:195-219 | the element loop computes `ReportElements` |
| PdgCmd.ReportOne | houdini/afanasy_scheduler/pdgcmd.py:196-219 | the loop body computes `ReportElement` |
| PdgCmd.ReportRejectsBadData | houdini/afanasy_scheduler/pdgcmd.py:160-168 | the argument checks come first: an empty list, or a first element that is not string-like, raises its `TypeError` whatever else holds |
| PdgCmd.ReportPayloads | houdini/afanasy_scheduler/pdgcmd.py:195-200 | a successful report has one payload per element of the wrapped argument |
| PdgCmd.ReportWithoutServer | houdini/afanasy_scheduler/pdgcmd.py:148-150 | on a host without `PDG_RESULT_SERVER`, one string is reported on stdout only, without a proxy |
| PdgCmd.WriteAttribute | houdini/afanasy_scheduler/pdgcmd.py:244-279 | the two `TypeError` checks; success exactly when the checks pass, the item name resolves and an address is given or `PDG_RESULT_SERVER` is set; the call sends the wrapped values, the attribute name and the job id |
| PdgCmd.WriteAttributeWrapsScalar | houdini/afanasy_scheduler/pdgcmd.py:254-257 | a scalar is sent as a one-element list |
| NodeGraph.Filter | houdini/dependency_nodes/traversenetwork.py:18 | `filter(isSopNode, ...)` keeps exactly the elements the predicate accepts |
| NodeGraph.Dedup | houdini/dependency_nodes/traversenetwork.py:18 | `set(...)` iterated: the same elements, each once |
| NodeGraph.NodeList.Append | houdini/dependency_nodes/traversenetwork.py:22 | `nodes.append(x)` adds `x` at the end |
| TraverseNetwork.Candidates | houdini/dependency_nodes/traversenetwork.py:17-19 | the inputs come first, as they are |
| TraverseNetwork.CandidateMembers | houdini/dependency_nodes/traversenetwork.py:17-19 | a present candidate is an input, or a SOP node among the dependents and references |
| TraverseNetwork.Traverse | houdini/dependency_nodes/traversenetwork.py:10-24 | the list only grows and stays without duplicates; `None` changes nothing; every candidate of the node is listed; every node listed since the call has all its candidates listed and is reachable from the node |
| TraverseNetwork.Visit | houdini/dependency_nodes/traversenetwork.py:20-24 | a present candidate ends up listed; one already listed, or `None`, changes nothing |
| TraverseNetwork.DependencyNodes | houdini/dependency_nodes/traversenetwork.py:27-34 | no duplicates, the node first, every input ancestor listed, every listed node has its candidates listed and is reachable from a start (so, by NodeGraph.ClosedHoldsAllReachable, everything reachable from the node is listed) |
| NodeGraph.ClosedHoldsAllReachable | houdini/dependency_nodes/traversenetwork.py:10-34 | a list closed under candidates holds every node reachable from any node it holds; both dependencyNodes results are closed and start with the node, so nothing reachable from it is missed |
| TraverseNetwork.WalkStarts | houdini/dependency_nodes/traversenetwork.py:30-33 | the loop over the start nodes lists them all, the first one first |
| TraverseNetworkParms.CandidateMembers | houdini/dependency_nodes/traverseNetwork.py:17-22 | a present candidate is a referenced SOP node, an input or the owner of a parameter referencing the node |
| TraverseNetworkParms.Traverse | houdini/dependency_nodes/traverseNetwork.py:10-33 | the same guarantees as the first walk, although recursion runs only on `curr_node`, after each candidate when there are several and once after the loop |
| TraverseNetworkParms.Recurse | houdini/dependency_nodes/traverseNetwork.py:30-33 | the recursion on `curr_node` walks that node, or does nothing for `None` |
| TraverseNetworkParms.DependencyNodes | houdini/dependency_nodes/traverseNetwork.py:36-43 | no duplicates, the node first, every input ancestor listed, closed under candidates, every listed node reachable from a start (so, by NodeGraph.ClosedHoldsAllReachable, everything reachable from the node is listed) |
| TraverseNetworkParms.WalkStarts | houdini/dependency_nodes/traverseNetwork.py:39-42 | the loop over the start nodes lists them all, the first one first |
| ExternalDragDrop.Alternatives | houdini/drag_drop_files/externaldragdrop.py:23-24 | the pattern's alternatives are the extensions; an empty list gives the single empty alternative |
| ExternalDragDrop.FirstAt | houdini/drag_drop_files/externaldragdrop.py:23-24 | at one position, the first alternative, in order, that matches there followed by the end |
| ExternalDragDrop.SearchFrom | houdini/drag_drop_files/externaldragdrop.py:23-30 | `search` finds the leftmost position where an alternative matches, and none exactly when no position does |
| ExternalDragDrop.MatchesAtEnd | houdini/drag_drop_files/externaldragdrop.py:24 | `$` matches at the end of the name or just before a final newline |
| ExternalDragDrop.MatchTypesIff | houdini/drag_drop_files/externaldragdrop.py:23-24 | the pattern matches exactly when the name ends with an alternative (or does so before a final newline) |
| ExternalDragDrop.MatchTypesPlain | houdini/drag_drop_files/externaldragdrop.py:23-24 | for a name without a final newline, it matches exactly when the name ends with one of the extensions |
| ExternalDragDrop.MatchedExtension | houdini/drag_drop_files/externaldragdrop.py:30 | `''` when nothing matches; otherwise an alternative the name ends with |
| ExternalDragDrop.MatchedExtensionLongest | houdini/drag_drop_files/externaldragdrop.py:30 | the extension reported is at least as long as any listed extension the name ends with |
| ExternalDragDrop.LastComponent | houdini/drag_drop_files/externaldragdrop.py:28 | `os.path.split(p)[1]`: a slash-free suffix that follows a `/` or is the whole path |
| ExternalDragDrop.BaseName | houdini/drag_drop_files/externaldragdrop.py:27-31 | the name is the last component up to its first `.`, with no `.` and no `/`; the extension is the matched one |
| ExternalDragDrop.NamePart | houdini/drag_drop_files/externaldragdrop.py:29 | `split(sep)[0]` is the prefix of the component before the first separator |
| ExternalDragDrop.SplitExtShape | houdini/drag_drop_files/externaldragdrop.py:157 | an extension found by `splitext` starts with a dot and ends the last component |
| ExternalDragDrop.ComponentExtIs | houdini/drag_drop_files/externaldragdrop.py:157 | `splitext` gives a dotted suffix exactly when the component ends with it and it is not preceded only by dots |
| ExternalDragDrop.SplitExtHip | houdini/drag_drop_files/externaldragdrop.py:157 | the `.hip` check holds exactly when the last component ends in `.hip` after something other than dots |
| ExternalDragDrop.Title | houdini/drag_drop_files/externaldragdrop.py:84 | the title-cased name has the length of the name |
| ExternalDragDrop.TitleAt | houdini/drag_drop_files/externaldragdrop.py:84 | a letter is upper-cased after a non-letter and lower-cased after a letter; every other character is kept |
| ExternalDragDrop.TitleIdempotent | houdini/drag_drop_files/externaldragdrop.py:84 | title-casing twice is title-casing once |
| ExternalDragDrop.TitleKeepsSeparators | houdini/drag_drop_files/externaldragdrop.py:84 | title case adds no non-letter, so a clean name stays free of `.` and `/` |
| ExternalDragDrop.CopImages | houdini/drag_drop_files/externaldragdrop.py:34-42 | acts exactly when the name matches an image extension |
| ExternalDragDrop.ChanFiles | houdini/drag_drop_files/externaldragdrop.py:45-53 | acts exactly when the name matches a channel extension |
| ExternalDragDrop.ShopImages | houdini/drag_drop_files/externaldragdrop.py:56-70 | does nothing exactly when the name matches no image extension |
| ExternalDragDrop.ObjGeom | houdini/drag_drop_files/externaldragdrop.py:73-102 | acts exactly when the name matches a geometry extension |
| ExternalDragDrop.SopGeom | houdini/drag_drop_files/externaldragdrop.py:105-124 | acts exactly when the name matches a geometry extension |
| ExternalDragDrop.HdaAsset | houdini/drag_drop_files/externaldragdrop.py:127-132 | installs exactly when the name matches an asset extension |
| ExternalDragDrop.ObjGeomFbx | houdini/drag_drop_files/externaldragdrop.py:79-81 | an FBX file is imported and nothing is created |
| ExternalDragDrop.ObjGeomAss | houdini/drag_drop_files/externaldragdrop.py:83-87 | an `.ass` file creates one `arnold_procedural` node whose parameters load the file; nothing is imported |
| ExternalDragDrop.ObjGeomOther | houdini/drag_drop_files/externaldragdrop.py:89-102 | other geometry creates one `geo` node with an `alembic` child for `.abc` files and a `file` child otherwise; the parameters load the file and nothing is imported |
| ExternalDragDrop.SopGeomDispatch | houdini/drag_drop_files/externaldragdrop.py:105-124 | `.ass` files get an `arnold_asstoc` node, `.abc` files an `alembic` node, anything else a `file` node; it is the only node created, it has no children, and its parameters load the file |
| ExternalDragDrop.ShopImagesDispatch | houdini/drag_drop_files/externaldragdrop.py:56-70 | a `texture` node in `mat` and `vopmaterial` networks, an `image` node in `arnold_vopnet`, and `UnboundLocalError` in any other VOP network |
| ExternalDragDrop.FileNodes | houdini/drag_drop_files/externaldragdrop.py:34-53 | on a matched file, `copImages` and `chanFiles` each create one `file` node whose parameters load the file |
| ExternalDragDrop.LoadContentsActs | houdini/drag_drop_files/externaldragdrop.py:135-152 | a file acts on the scene, or raises, exactly when the network's category accepts its type |
| ExternalDragDrop.LoadContentsRaises | houdini/drag_drop_files/externaldragdrop.py:56-70 | only an image dropped into a VOP network other than `mat`, `vopmaterial` and `arnold_vopnet` raises |
| ExternalDragDrop.LoadContentsObj | houdini/drag_drop_files/externaldragdrop.py:136-140 | in an object network, an asset file is installed and then also offered to `objGeom` |
| ExternalDragDrop.LoadContentsNamesClean | houdini/drag_drop_files/externaldragdrop.py:135-152 | every node the hook creates has a name with no `.` and no `/` |
| ExternalDragDrop.GetNetworkEditor | houdini/drag_drop_files/externaldragdrop.py:15-20 | the last current network editor tab; none exactly when there is none (the `[-1]` raises) |
| ExternalDragDrop.DropRunEachFile | houdini/drag_drop_files/externaldragdrop.py:160-163 | without an exception, the scene gets each file's actions in the order of the list |
| ExternalDragDrop.DropRunStep | houdini/drag_drop_files/externaldragdrop.py:160-163 | without an editor tab the loop raises before doing anything; otherwise a file whose handlers raise stops the loop after what came before |
| ExternalDragDrop.DropRunLaterHip | houdini/drag_drop_files/externaldragdrop.py:157-163 | only the first file is checked for `.hip`; a project file later in the list is loaded like any other |
| ExternalDragDrop.DragDrop.CursorPosition | houdini/drag_drop_files/externaldragdrop.py:10-12 | the module's `position` becomes the editor's cursor position |
| ExternalDragDrop.DragDrop.DropAccept | houdini/drag_drop_files/externaldragdrop.py:155-165 | a drop whose first file is a `.hip` answers False and changes nothing; otherwise the scene gets the actions of `DropRun` in order; the answer is True exactly when no exception was raised, and otherwise the first exception |

## Left out

The following are outside the model:

- **Farm and process I/O.** The Afanasy client (`af.Job.send`, `af.Cmd.getJobProgress`, `getJobInfo`), the XML-RPC proxies, file writes, `shutil.copy`, `os.makedirs` and the log output have no model of their own. Each becomes a function-typed parameter (`send`, `poll`, `shutdown`), a boolean (`filesReady`, `sharedRootExists`), or a returned value (`RpcCall`, `Printed`).
- **The tick timer and threads.** The timer and concurrency are reduced to `tickTimerRunning`. Each call of `tick` is one atomic pass.
- **Helpers given by the host.** `os.path.expandvars`, `os.path.normpath`, `shlex.split` and `repr` are parameters. `shlex.split` answers `None` on unbalanced quotes. Python's `sys.platform` and `os.environ` are inputs.
- **Code with nothing to prove.** Several pieces of the scheduler are not modelled:
  - `templateName`, `templateBody` and `__del__`;
  - `submitAsJob` and `getStatusURI`, which return a constant;
  - `onScheduleStatic`, which does nothing;
  - `workItemResultServerAddr`, which reads a parameter and is folded into `address`.
- **Farm-side helpers.** `makeDirSafe` only creates a directory. `execBatchPoll` is an unbounded polling loop. `execCommand` runs a subprocess. `reportServerStarted` and `getSharedServerInfo` are only remote calls. None is modelled.
- **The batch and socket calls.** In `reportResultData` they sit inside a string literal, so they are dead code. The outer `multicall` call `proxy()` and the log file write are not modelled.
- **The `writeAttribute` print line.** It is not modelled; the call it makes is.
- **The callback server and shared servers.** `CallbackServerMixin` and the base class `PyScheduler` are not part of this model. The callback server is a running flag with a log of starts and stops. Shared servers are a map from name to argument dictionary.
- **The scripts' example lines and `hou` calls.**
  - Both walk scripts end with example usage that colours the selected node's dependencies. That code runs at import time and is not modelled.
  - `isSopNode` is the graph's `isSop` query.
  - The `hou` node-creation calls of the drag-and-drop hook become `Action` values. Node colours are named constants, and the extension lists of the helper module are a parameter (`Extensions`).
- **Context files.** `houdini/update_build/update_daily_build.py` and `houdini/scenegraphtree_dragdrop/houdini20.5/scripts/nodegraph/dragdrop.py` are context only and are not part of this model.
- **Path and case semantics.** `os.path.split` and `os.path.splitext` are the POSIX versions. `str.title` is modelled on ASCII letters only.
- **Editor state during a drop.** The open editor tabs are assumed not to change between the files of one drop.

Some contracts are deliberately weaker or narrower than the source:

- AfanasyTick.Classify: a farm reply that raises when indexed (`Malformed`) is one abstract value. Which index raises is not modelled.
- AfanasyTick.Classify: the duration is the integer difference of the two timestamps; the float conversion is not modelled. The farm is taken to give one consistent reply per job within a pass, although the code queries it up to three times.
- AfanasyScheduler.Scheduler.Tick: the order of `keys()` is unspecified. The method returns the snapshot it iterated, and its contract holds for any order.
- AfanasyJob.Schedule: `createJobDirsAndSerializeWorkItems`, the copy of `pdgcmd.py` and the `HOUDINI_USER_PREF_DIR` lookup are one precondition of the submission. Which of them raised is not distinguished, since every exception ends as `Failed`.
- PdgCmd.DelocalizePath: `os.environ['PDG_DIR']` is read from a map; Windows path separators beyond `\` are not modelled.
- NodeGraph.Dedup: Python iterates a `set` in an arbitrary order. The model fixes first-occurrence order, and nothing proved about the walks depends on that order.
- TraverseNetwork.Traverse: the contract states which nodes end up listed, not the order in which the walk lists them.
- TraverseNetworkParms.Traverse: the contract states which nodes end up listed, not the order in which the walk lists them.
- TraverseNetwork.DependencyNodes: the walk runs over an abstract candidate function of a finite scene. Node identity is Dafny equality, standing for `hou.OpNode.__eq__`.
- ExternalDragDrop.DragDrop.DropAccept: the `hou` scene is a list of actions the handlers perform. Node creation, parameters and positions are recorded, not executed.

## Findings

| source | as written | input that shows it | evidently intended | confidence | as-written member | corrected member |
|---|---|---|---|---|---|---|
| houdini/afanasy_scheduler/pdgcmd.py:182 | `xmlrpclib.ServerProxy('http://' + server_addr)` runs even when `server_addr` stayed `None` because `PDG_RESULT_SERVER` is missing, and `'http://' + None` raises `TypeError` | `reportResultData('out.bin')` on a host whose environment has no `PDG_RESULT_SERVER` | lines 148-150: without the variable, the report falls back to stdout only, and no proxy is built | high, not executed | PdgCmd.ProxyAddressAsWrittenRaises | PdgCmd.ReportWithoutServer |
