/** The side of the Afanasy scheduler adapter that only computes values:
    interpreter and HFS path selection per platform, the log URI, the
    token substitution that turns a work item's command template into a
    command line, and the Afanasy job description (one job, one block, one
    task, and the environment the remote task reads). */
module AfanasyJob {
  import opened PyBase
  import opened PyStr
  import opened PdgEngine

  /** `os.environ` or any other process environment. */
  type Env = map<string, string>

  /** The scheduler node's parameters, as `self[name].evaluate...()` reads
      them when a work item is scheduled or a cook starts. */
  datatype SchedulerParams = SchedulerParams(
    address: string,
    jobBranch: string,
    dependMask: string,
    dependMaskGlobal: string,
    priority: int,
    maxRunTasks: int,
    maxPerHost: int,
    hostsMask: string,
    hostsMaskExclude: string,
    capacity: int,
    minRunTime: int,
    maxRunTime: int,
    useUniversalHfs: int,
    hfsUniversal: string,
    hfsWindows: string,
    hfsMac: string,
    hfsLinux: string,
    overridePortRange: int,
    callbackPortRange: int)

  /** The engine's view of a work item. */
  datatype WorkItem = WorkItem(name: string, id: int, index: int, nodeName: string, command: string)

  /** The session directories the PDG scheduler base class hands out:
      `tempDir(False)`, `workingDir(False)`, `scriptDir(False)` as the farm
      sees them, and `tempDir(True)` as the submitting machine sees it. */
  datatype SessionDirs = SessionDirs(tempDir: string, workDir: string, scriptDir: string, localTempDir: string)

  datatype Task = Task(name: string, command: string)

  datatype Block = Block(
    name: string,
    service: string,
    parser: string,
    capacity: int,
    taskMinRunTime: int,
    taskMaxRunTime: int,
    env: Env,
    tasks: seq<Task>)

  datatype Job = Job(
    name: string,
    branch: string,
    dependMask: string,
    dependMaskGlobal: string,
    priority: int,
    maxRunningTasks: int,
    maxRunTasksPerHost: int,
    hostsMask: string,
    hostsMaskExclude: string,
    blocks: seq<Block>)

  // ---------------------------------------------------------------------
  // Platform selectors

  predicate IsWindows(platform: string) { StartsWith(platform, "win") }
  predicate IsMac(platform: string) { StartsWith(platform, "darwin") || StartsWith(platform, "mac") }
  predicate IsLinux(platform: string) { StartsWith(platform, "linux") }

  /** `_getHFSPath`: the universal path when it is switched on, otherwise
      the path configured for the platform, otherwise nothing. */
  function GetHfsPath(params: SchedulerParams, platform: string): (r: Option<string>)
    ensures params.useUniversalHfs > 0 ==> r == Some(params.hfsUniversal)
    ensures r.None? <==>
              params.useUniversalHfs <= 0 && !IsWindows(platform) && !IsMac(platform) && !IsLinux(platform)
    ensures r.Some? ==> r.value in [params.hfsUniversal, params.hfsWindows, params.hfsMac, params.hfsLinux]
  {
    if params.useUniversalHfs > 0 then Some(params.hfsUniversal)
    else if IsWindows(platform) then Some(params.hfsWindows)
    else if IsMac(platform) then Some(params.hfsMac)
    else if IsLinux(platform) then Some(params.hfsLinux)
    else None
  }

  /** With the universal path switched on, the platform makes no difference. */
  lemma UniversalHfsIgnoresPlatform(params: SchedulerParams, p1: string, p2: string)
    requires params.useUniversalHfs > 0
    ensures GetHfsPath(params, p1) == GetHfsPath(params, p2)
  {}

  /** `os.environ.get(name) or fallback`: a missing or empty variable falls
      back. */
  function EnvOr(env: Env, name: string, fallback: string): (r: string)
    ensures name in env && env[name] != "" ==> r == env[name]
    ensures !(name in env && env[name] != "") ==> r == fallback
  {
    if name in env && env[name] != "" then env[name] else fallback
  }

  function PythonDefault(platform: string): string {
    if IsWindows(platform) then "$HFS/python27/python.exe"
    else if IsLinux(platform) then "$HFS/python/bin/python"
    else "python"
  }

  function HythonDefault(platform: string): string {
    if IsWindows(platform) then "$HFS/bin/hython.exe"
    else if IsLinux(platform) || StartsWith(platform, "darwin") then "$HFS/bin/hython"
    else "hython"
  }

  /** `pythonBin`: a non-empty `PDG_PYTHON` wins; otherwise the platform's
      default with `$VAR` references expanded by `expand`. */
  function PythonBin(platform: string, env: Env, expand: string -> string): (r: string)
    ensures "PDG_PYTHON" in env && env["PDG_PYTHON"] != "" ==> r == env["PDG_PYTHON"]
    ensures !("PDG_PYTHON" in env && env["PDG_PYTHON"] != "") ==> r == expand(PythonDefault(platform))
  {
    EnvOr(env, "PDG_PYTHON", expand(PythonDefault(platform)))
  }

  /** `hythonBin`: a non-empty `PDG_HYTHON` wins; otherwise the platform's
      default with `$VAR` references expanded by `expand`. */
  function HythonBin(platform: string, env: Env, expand: string -> string): (r: string)
    ensures "PDG_HYTHON" in env && env["PDG_HYTHON"] != "" ==> r == env["PDG_HYTHON"]
    ensures !("PDG_HYTHON" in env && env["PDG_HYTHON"] != "") ==> r == expand(HythonDefault(platform))
  {
    EnvOr(env, "PDG_HYTHON", expand(HythonDefault(platform)))
  }

  /** On macOS, python falls back to the bare `python` on the search path
      while hython is taken from `$HFS/bin`; on Linux both come from `$HFS`. */
  lemma InterpreterDefaults(env: Env, expand: string -> string)
    requires "PDG_PYTHON" !in env && "PDG_HYTHON" !in env
    ensures PythonBin("darwin", env, expand) == expand("python")
    ensures HythonBin("darwin", env, expand) == expand("$HFS/bin/hython")
    ensures PythonBin("linux2", env, expand) == expand("$HFS/python/bin/python")
    ensures HythonBin("linux2", env, expand) == expand("$HFS/bin/hython")
    ensures PythonBin("win32", env, expand) == expand("$HFS/python27/python.exe")
    ensures HythonBin("win32", env, expand) == expand("$HFS/bin/hython.exe")
  {
    NotStartsWith("darwin", "win", 0);
    NotStartsWith("darwin", "linux", 0);
    assert StartsWith("darwin", "darwin");
    NotStartsWith("linux2", "win", 0);
    assert "linux2"[..5] == "linux";
    assert "win32"[..3] == "win";
  }

  /** `getLogURI`: a `file:///` URI of the item's log under the local temp dir. */
  function GetLogUri(localTempDir: string, itemName: string): (uri: string)
    ensures StartsWith(uri, "file:///" + localTempDir + "/logs/")
    ensures EndsWith(uri, itemName + ".log")
  {
    "file:///" + localTempDir + "/logs/" + itemName + ".log"
  }

  /** Distinct work items never share a log file. */
  lemma LogUriInjective(localTempDir: string, a: string, b: string)
    requires GetLogUri(localTempDir, a) == GetLogUri(localTempDir, b)
    ensures a == b
  {
    var n := |"file:///" + localTempDir + "/logs/"|;
    var u := GetLogUri(localTempDir, a);
    assert |a| == |b|;
    assert u[n..n + |a|] == a;
    assert GetLogUri(localTempDir, b)[n..n + |b|] == b;
  }

  // ---------------------------------------------------------------------
  // Command materialisation

  /** The tokens `onSchedule` substitutes, in the order it substitutes them,
      each with its value. */
  function CommandTokens(itemName: string, dirs: SessionDirs, serverAddr: string,
                         python: string, hython: string): seq<(string, string)>
  {
    [ ("__PDG_ITEM_NAME__", itemName),
      ("__PDG_SHARED_TEMP__", dirs.tempDir),
      ("__PDG_TEMP__", dirs.tempDir),
      ("__PDG_DIR__", dirs.workDir),
      ("__PDG_SCRIPTDIR__", dirs.scriptDir),
      ("__PDG_RESULT_SERVER__", serverAddr),
      ("__PDG_PYTHON__", python),
      ("__PDG_HYTHON__", hython) ]
  }

  /** Replace every occurrence of each token in turn, the later tokens
      working on the result of the earlier ones. */
  function ReplaceEach(s: string, pairs: seq<(string, string)>): string
    decreases |pairs|
  {
    if |pairs| == 0 then s else ReplaceEach(ReplaceAll(s, pairs[0].0, pairs[0].1), pairs[1..])
  }

  /** A command that mentions none of the tokens passes through unchanged. */
  lemma {:induction false} ReplaceEachAbsent(s: string, pairs: seq<(string, string)>)
    requires forall k :: 0 <= k < |pairs| ==> |pairs[k].0| > 0 && !Contains(s, pairs[k].0)
    ensures ReplaceEach(s, pairs) == s
    decreases |pairs|
  {
    if |pairs| > 0 {
      ReplaceAllAbsent(s, pairs[0].0, pairs[0].1);
      ReplaceEachAbsent(s, pairs[1..]);
    }
  }

  /** Applying a list of substitutions is applying its two halves in turn. */
  lemma {:induction false} ReplaceEachConcat(s: string, p: seq<(string, string)>, q: seq<(string, string)>)
    ensures ReplaceEach(s, p + q) == ReplaceEach(ReplaceEach(s, p), q)
    decreases |p|
  {
    if |p| == 0 {
      assert p + q == q;
    } else {
      assert (p + q)[0] == p[0];
      assert (p + q)[1..] == p[1..] + q;
      ReplaceEachConcat(ReplaceAll(s, p[0].0, p[0].1), p[1..], q);
    }
  }

  /** The command line `onSchedule` derives from the item's template before
      shell splitting. */
  function MaterializeCommand(item: WorkItem, params: SchedulerParams, dirs: SessionDirs,
                              platform: string, env: Env, expand: string -> string): string
  {
    ReplaceEach(item.command,
                CommandTokens(item.name, dirs, params.address,
                              PythonBin(platform, env, expand), HythonBin(platform, env, expand)))
  }

  /** A worked example of the substitution chain, for any item name and
      python path without a double underscore: the python token and the
      item-name token are replaced and nothing else is touched, whatever
      the directories and the other values are. */
  lemma MaterializePythonItem(command: string, item: string, python: string,
                               dirs: SessionDirs, serverAddr: string, hython: string)
    requires command == "__PDG_PYTHON__ run.py " + "__PDG_ITEM_NAME__"
    requires NoDoubleUnderscore(item) && NoDoubleUnderscore(python)
    ensures ReplaceEach(command, CommandTokens(item, dirs, serverAddr, python, hython))
            == python + (" run.py " + item)
  {
    var tokens := CommandTokens(item, dirs, serverAddr, python, hython);
    var head := "__PDG_PYTHON__ run.py ";
    var s1 := head + item;
    assert command == head + tokens[0].0;
    ExampleItemStep(head, tokens[0].0, item);
    assert ReplaceEach(head + tokens[0].0, tokens) == ReplaceEach(s1, tokens[1..]);
    var middle := tokens[1..6];
    var last := tokens[6..];
    assert tokens[1..] == middle + last;
    ReplaceEachConcat(s1, middle, last);
    forall k | 0 <= k < |middle| ensures |middle[k].0| > 0 && !Contains(s1, middle[k].0) {
      HeadItemNoToken(head, item, middle[k].0);
    }
    ReplaceEachAbsent(s1, middle);
    ExampleLastSteps(head, item, last, python, hython);
  }

  /** A worked example: item `task_3` run by `/usr/bin/python`. */
  lemma MaterializeExample(command: string, item: string, python: string,
                           dirs: SessionDirs, serverAddr: string, hython: string)
    requires command == "__PDG_PYTHON__ run.py __PDG_ITEM_NAME__"
    requires item == "task_3" && python == "/usr/bin/python"
    ensures ReplaceEach(command, CommandTokens(item, dirs, serverAddr, python, hython))
            == "/usr/bin/python run.py task_3"
  {
    assert NoDoubleUnderscore(item) by {
      forall i | 0 <= i < |item| - 1 ensures !(item[i] == '_' && item[i + 1] == '_') {
        assert item[i] != '_' || item[i + 1] != '_';
      }
    }
    assert NoDoubleUnderscore(python) by {
      forall i | 0 <= i < |python| - 1 ensures !(python[i] == '_' && python[i + 1] == '_') {
        assert python[i] != '_';
      }
    }
    MaterializePythonItem(command, item, python, dirs, serverAddr, hython);
    ExampleLiteral();
  }

  lemma ExampleLiteral()
    ensures "/usr/bin/python" + (" run.py " + "task_3") == "/usr/bin/python run.py task_3"
  {}

  lemma ExampleItemStep(head: string, token: string, item: string)
    requires head == "__PDG_PYTHON__ run.py " && token == "__PDG_ITEM_NAME__"
    ensures ReplaceAll(head + token, token, item) == head + item
  {
    var command := head + (token + "");
    forall i | 0 <= i < |head| ensures !OccursAt(command, token, i) {
      if i == 0 { Mismatch(command, token, 0, 6); }
      else if i == 12 { Mismatch(command, token, 12, 2); }
      else if command[i] != '_' { Mismatch(command, token, i, 0); }
      else { Mismatch(command, token, i, 1); }
    }
    ReplaceAllSingle(head, "", token, item);
    assert token + "" == token && item + "" == item;
  }

  /** After the item name is in, only a token that begins like the python
      token and departs from it at its seventh character could occur, and
      none does. */
  lemma HeadItemNoToken(head: string, item: string, token: string)
    requires head == "__PDG_PYTHON__ run.py " && NoDoubleUnderscore(item)
    requires token in ["__PDG_SHARED_TEMP__", "__PDG_TEMP__", "__PDG_DIR__", "__PDG_SCRIPTDIR__", "__PDG_RESULT_SERVER__"]
    ensures |token| > 0 && !Contains(head + item, token)
  {
    var s := head + item;
    assert |token| > 6 && token[0] == '_' && token[1] == '_' && token[2] == 'P' && token[6] != 'P';
    forall i | 0 <= i <= |s| - |token| ensures !OccursAt(s, token, i) {
      if i < 22 {
        HeadPositionNoToken(head, item, token, i);
      } else {
        assert s[i] == item[i - 22] && s[i + 1] == item[i - 21];
        if s[i] != '_' { Mismatch(s, token, i, 0); } else { Mismatch(s, token, i, 1); }
      }
    }
  }

  /** No token of `HeadItemNoToken` starts inside the fixed head. */
  lemma HeadPositionNoToken(head: string, item: string, token: string, i: nat)
    requires head == "__PDG_PYTHON__ run.py " && i < 22
    requires |token| > 6 && token[0] == '_' && token[1] == '_' && token[2] == 'P' && token[6] != 'P'
    ensures !OccursAt(head + item, token, i)
  {
    var s := head + item;
    assert s[..22] == head;
    if i == 0 { Mismatch(s, token, 0, 6); }
    else if i == 12 { Mismatch(s, token, 12, 2); }
    else if head[i] != '_' { Mismatch(s, token, i, 0); }
    else { Mismatch(s, token, i, 1); }
  }

  lemma ExampleLastSteps(head: string, item: string, last: seq<(string, string)>, python: string, hython: string)
    requires head == "__PDG_PYTHON__ run.py " && NoDoubleUnderscore(item) && NoDoubleUnderscore(python)
    requires last == [("__PDG_PYTHON__", python), ("__PDG_HYTHON__", hython)]
    ensures ReplaceEach(head + item, last) == python + (" run.py " + item)
  {
    var mid := " run.py ";
    var rest := mid + item;
    assert NoDoubleUnderscore(mid) by {
      forall i | 0 <= i < |mid| - 1 ensures !(mid[i] == '_' && mid[i + 1] == '_') {
        assert mid[i] != '_';
      }
    }
    NoDoubleUnderscoreConcat(mid, item);
    NoDoubleUnderscoreNoToken(rest, last[0].0);
    assert head + item == last[0].0 + rest;
    ReplaceAllLeading(rest, last[0].0, python);
    ReplaceAllAbsent(rest, last[0].0, python);
    var s2 := python + rest;
    NoDoubleUnderscoreConcat(python, rest);
    NoDoubleUnderscoreNoToken(s2, last[1].0);
    ReplaceAllAbsent(s2, last[1].0, hython);
    assert ReplaceEach(head + item, last) == ReplaceEach(s2, last[1..]);
    assert ReplaceEach(s2, last[1..]) == ReplaceEach(s2, last[2..]);
  }

  // ---------------------------------------------------------------------
  // The job description

  /** The environment of the block: where to report, who the item is, its
      directories and index, and the cook id behind one level of
      indirection (`PDG_JOBID_VAR` names the variable holding it). */
  function TaskEnv(item: WorkItem, dirs: SessionDirs, serverAddr: string, cookId: string): Env {
    map[
      "PDG_RESULT_SERVER" := serverAddr,
      "PDG_ITEM_NAME" := "workitem_" + item.name,
      "PDG_DIR" := dirs.workDir,
      "PDG_TEMP" := dirs.tempDir,
      "PDG_SHARED_TEMP" := dirs.tempDir,
      "PDG_INDEX" := IntToString(item.index),
      "PDG_INDEX4" := FormatPad4(item.index),
      "PDG_SCRIPTDIR" := dirs.scriptDir,
      "PDG_JOBID" := cookId,
      "PDG_JOBID_VAR" := "PDG_JOBID"
    ]
  }

  /** The job `onSchedule` submits for a work item whose normalised command
      line is `commandLine`. */
  function BuildJob(item: WorkItem, params: SchedulerParams, dirs: SessionDirs,
                    cookId: string, commandLine: string): Job
  {
    var jobName := "workitem_" + item.nodeName;
    var block := Block(jobName, "generic", "generic", params.capacity,
                       params.minRunTime, params.maxRunTime * 3600,
                       TaskEnv(item, dirs, params.address, cookId),
                       [Task(item.name, commandLine)]);
    Job(jobName, params.jobBranch, params.dependMask, params.dependMaskGlobal,
        params.priority, params.maxRunTasks, params.maxPerHost,
        params.hostsMask, params.hostsMaskExclude, [block])
  }

  /** What the remote task can rely on in the submitted job: one block with
      one task running the command line under the item's own name; the
      item name prefixed with `workitem_`; the 4-digit padded index reading
      back as the index; both temp variables naming the temp dir; the cook
      id reachable through `PDG_JOBID_VAR`; and the maximum run time given
      in hours converted to seconds. */
  lemma BuildJobShape(item: WorkItem, params: SchedulerParams, dirs: SessionDirs,
                      cookId: string, commandLine: string)
    requires item.index >= 0
    ensures var job := BuildJob(item, params, dirs, cookId, commandLine);
            && |job.blocks| == 1 && |job.blocks[0].tasks| == 1
            && job.blocks[0].tasks[0] == Task(item.name, commandLine)
            && job.name == job.blocks[0].name == "workitem_" + item.nodeName
            && var env := job.blocks[0].env;
               && env["PDG_ITEM_NAME"] == "workitem_" + item.name
               && IsDecimal(env["PDG_INDEX4"]) && |env["PDG_INDEX4"]| >= 4
               && (item.index < 10000 ==> |env["PDG_INDEX4"]| == 4)
               && DecimalValue(env["PDG_INDEX4"]) == item.index
               && IsDecimal(env["PDG_INDEX"]) && DecimalValue(env["PDG_INDEX"]) == item.index
               && env["PDG_TEMP"] == env["PDG_SHARED_TEMP"] == dirs.tempDir
               && env["PDG_JOBID_VAR"] in env && env[env["PDG_JOBID_VAR"]] == cookId
               && job.blocks[0].taskMaxRunTime == 3600 * params.maxRunTime
  {
    FormatPad4Value(item.index);
    NatToStringRoundTrip(item.index);
  }

  // ---------------------------------------------------------------------
  // onSchedule as a function of its inputs

  /** What the submitting host provides to `onSchedule`: the platform
      string, the process environment, `os.path.expandvars`, `shlex.split`
      (which raises on unbalanced quotes, hence `None`), and whether the
      job directories, the serialised work item and the copied helper
      script could be written. */
  datatype Host = Host(
    platform: string,
    env: Env,
    expand: string -> string,
    shellSplit: string -> Option<seq<string>>,
    filesReady: bool)

  /** The answer of `onSchedule`, the job handed to the farm (if one was),
      and the farm id recorded in the ledger (if one was). */
  datatype ScheduleOutcome = ScheduleOutcome(result: ScheduleResult, submitted: Option<Job>, jobId: Option<int>)

  /** The command line the farm task runs: the materialised command split
      as a shell would and re-joined with single blanks. */
  function CommandLine(item: WorkItem, params: SchedulerParams, dirs: SessionDirs, host: Host): Option<string> {
    match host.shellSplit(MaterializeCommand(item, params, dirs, host.platform, host.env, host.expand))
    case None => None
    case Some(argv) => Some(Join(" ", argv))
  }

  /** `onSchedule`. An empty command is reported as cooked without any job.
      A command line shorter than two characters is reported as scheduled
      although nothing is submitted. Everything else builds one job and
      hands it to `send`; only a send that answers with a job id puts an
      entry in the ledger. Any exception on the way (unbalanced quotes,
      unwritable files, no `HOUDINI_USER_PREF_DIR`, a failed send) is
      reported as a failure. */
  function Schedule(item: WorkItem, params: SchedulerParams, dirs: SessionDirs, cookId: string,
                    host: Host, send: Job -> Option<int>): (r: ScheduleOutcome)
    ensures r.result == CookSucceeded <==> |item.command| == 0
    ensures r.result == CookSucceeded ==> r.submitted.None? && r.jobId.None?
    ensures r.jobId.Some? <==> r.result == Succeeded && r.submitted.Some?
    ensures r.jobId.Some? ==> send(r.submitted.value) == r.jobId
    ensures r.result == Failed ==> r.jobId.None?
    ensures r.submitted.Some? ==>
              && CommandLine(item, params, dirs, host).Some?
              && |CommandLine(item, params, dirs, host).value| >= 2
              && "HOUDINI_USER_PREF_DIR" in host.env && host.filesReady
              && r.submitted.value == BuildJob(item, params, dirs, cookId, CommandLine(item, params, dirs, host).value)
    ensures |item.command| > 0 && CommandLine(item, params, dirs, host).None? ==> r == ScheduleOutcome(Failed, None, None)
    ensures |item.command| > 0 && CommandLine(item, params, dirs, host).Some?
            && |CommandLine(item, params, dirs, host).value| >= 2 ==>
              if host.filesReady && "HOUDINI_USER_PREF_DIR" in host.env
              then r.submitted == Some(BuildJob(item, params, dirs, cookId, CommandLine(item, params, dirs, host).value))
              else r == ScheduleOutcome(Failed, None, None)
    ensures r.submitted.Some? && send(r.submitted.value).Some? ==>
              r.result == Succeeded && r.jobId == send(r.submitted.value)
    ensures r.submitted.Some? && send(r.submitted.value).None? ==> r.result == Failed
  {
    if |item.command| == 0 then ScheduleOutcome(CookSucceeded, None, None)
    else match CommandLine(item, params, dirs, host)
      case None => ScheduleOutcome(Failed, None, None)
      case Some(line) =>
        if |line| < 2 then ScheduleOutcome(Succeeded, None, None)
        else if !host.filesReady || "HOUDINI_USER_PREF_DIR" !in host.env then ScheduleOutcome(Failed, None, None)
        else
          var job := BuildJob(item, params, dirs, cookId, line);
          match send(job)
          case None => ScheduleOutcome(Failed, Some(job), None)
          case Some(id) => ScheduleOutcome(Succeeded, Some(job), Some(id))
  }

  /** A command line of fewer than two characters is not submitted but is
      still reported as scheduled, not as cooked. */
  lemma ScheduleShortCommand(item: WorkItem, params: SchedulerParams, dirs: SessionDirs, cookId: string,
                             host: Host, send: Job -> Option<int>)
    requires |item.command| > 0
    requires CommandLine(item, params, dirs, host).Some? && |CommandLine(item, params, dirs, host).value| < 2
    ensures Schedule(item, params, dirs, cookId, host, send) == ScheduleOutcome(Succeeded, None, None)
  {}

  /** A submission the farm refuses leaves no trace in the ledger. */
  lemma ScheduleSendRefused(item: WorkItem, params: SchedulerParams, dirs: SessionDirs, cookId: string,
                            host: Host, send: Job -> Option<int>)
    requires Schedule(item, params, dirs, cookId, host, send).submitted.Some?
    requires send(Schedule(item, params, dirs, cookId, host, send).submitted.value).None?
    ensures Schedule(item, params, dirs, cookId, host, send).result == Failed
    ensures Schedule(item, params, dirs, cookId, host, send).jobId.None?
  {}

  /** Every submitted job carries the cook id through `PDG_JOBID_VAR` and
      the item's zero-padded index, and runs the normalised command line. */
  lemma ScheduleSubmitsItsJob(item: WorkItem, params: SchedulerParams, dirs: SessionDirs, cookId: string,
                              host: Host, send: Job -> Option<int>)
    requires item.index >= 0
    requires Schedule(item, params, dirs, cookId, host, send).submitted.Some?
    ensures var job := Schedule(item, params, dirs, cookId, host, send).submitted.value;
            var env := job.blocks[0].env;
            && |job.blocks| == 1
            && job.blocks[0].tasks == [Task(item.name, CommandLine(item, params, dirs, host).value)]
            && env[env["PDG_JOBID_VAR"]] == cookId
            && IsDecimal(env["PDG_INDEX4"]) && DecimalValue(env["PDG_INDEX4"]) == item.index
  {
    BuildJobShape(item, params, dirs, cookId, CommandLine(item, params, dirs, host).value);
  }
}
