/** The helpers a farm task uses to report back to the PDG callback server
    (`houdini/afanasy_scheduler/pdgcmd.py`): path delocalisation and
    localisation against `__PDG_...__` tokens, the job-id lookup through
    `PDG_JOBID_VAR`, the choice of remote call in `execStartCook` and
    `execItemFailed`, and the argument checks and per-element work of
    `reportResultData` and `writeAttribute`.

    The process environment is a map; `os.path.expandvars` and `repr` are
    parameters; the remote calls are returned as values instead of sent. */
module PdgCmd {
  import opened PyBase
  import opened PyStr
  import AfanasyJob

  type Env = map<string, string>

  /** Python's truth value of an optional string argument: `None` and `''`
      are false. */
  predicate Falsy(o: Option<string>) {
    o.None? || o.value == ""
  }

  // ---------------------------------------------------------------------
  // Path utilities

  /** The token a delocalised path starts with. */
  const DirToken: string := "__PDG_DIR__"

  /** `delocalizePath`: without `PDG_DIR` the path is returned untouched;
      with it, backslashes become slashes and the first occurrence of the
      (expanded, slash-normalised) `PDG_DIR` value becomes `__PDG_DIR__`. */
  function DelocalizePath(localPath: string, env: Env, expand: string -> string): (r: string)
    ensures "PDG_DIR" !in env ==> r == localPath
    ensures "PDG_DIR" in env ==> '\\' !in r
  {
    if "PDG_DIR" !in env then localPath
    else
      var dir := Slashes(expand(env["PDG_DIR"]));
      ReplaceFirstCharFree(Slashes(localPath), dir, DirToken, '\\');
      ReplaceFirst(Slashes(localPath), dir, DirToken)
  }

  /** The slash-normalised `PDG_DIR` value `delocalizePath` looks for. */
  function LocalDir(env: Env, expand: string -> string): string
    requires "PDG_DIR" in env
  {
    Slashes(expand(env["PDG_DIR"]))
  }

  /** Only the first occurrence of the directory is replaced; what follows
      it, later occurrences included, is kept. */
  lemma DelocalizeFirstOccurrence(localPath: string, env: Env, expand: string -> string, i: nat)
    requires "PDG_DIR" in env && |LocalDir(env, expand)| > 0
    requires OccursAt(Slashes(localPath), LocalDir(env, expand), i)
    requires forall j :: 0 <= j < i ==> !OccursAt(Slashes(localPath), LocalDir(env, expand), j)
    ensures DelocalizePath(localPath, env, expand)
            == Slashes(localPath)[..i] + DirToken + Slashes(localPath)[i + |LocalDir(env, expand)|..]
  {
    ReplaceFirstSplice(Slashes(localPath), LocalDir(env, expand), DirToken, i);
  }

  /** A path outside the directory only has its backslashes turned. */
  lemma DelocalizeOutside(localPath: string, env: Env, expand: string -> string)
    requires "PDG_DIR" in env && |LocalDir(env, expand)| > 0
    requires !Contains(Slashes(localPath), LocalDir(env, expand))
    ensures DelocalizePath(localPath, env, expand) == Slashes(localPath)
  {
    ReplaceFirstAbsent(Slashes(localPath), LocalDir(env, expand), DirToken);
  }

  /** The variables `_substitute_scheduler_vars` knows, in its order. */
  const SchedulerVars: seq<string> := ["PDG_DIR", "PDG_ITEM_NAME", "PDG_TEMP", "PDG_RESULT_SERVER", "PDG_INDEX"]

  function Token(v: string): string {
    "__" + v + "__"
  }

  /** `_substitute_scheduler_vars` over the variables `vars`: each token
      present is replaced, everywhere, by its variable's value; a token
      present whose variable is missing raises `KeyError`. */
  function SubstituteFrom(data: string, vars: seq<string>, env: Env): (r: Result<string>)
    ensures r.Err? ==> r.error.KeyError? && r.error.key in vars && r.error.key !in env
    ensures (forall k | 0 <= k < |vars| :: vars[k] in env) ==> r.Ok?
    decreases |vars|
  {
    if |vars| == 0 then Ok(data)
    else
      var v := vars[0];
      if Contains(data, Token(v)) then
        if v !in env then Err(KeyError(v))
        else SubstituteFrom(ReplaceAll(data, Token(v), env[v]), vars[1..], env)
      else SubstituteFrom(data, vars[1..], env)
  }

  /** `_substitute_scheduler_vars(data)`, the loop as written. */
  method SubstituteSchedulerVars(data: string, env: Env) returns (r: Result<string>)
    ensures r == SubstituteFrom(data, SchedulerVars, env)
  {
    var current := data;
    var i := 0;
    while i < |SchedulerVars|
      invariant 0 <= i <= |SchedulerVars|
      invariant SubstituteFrom(current, SchedulerVars[i..], env) == SubstituteFrom(data, SchedulerVars, env)
    {
      var v := SchedulerVars[i];
      assert SchedulerVars[i..][0] == v && SchedulerVars[i..][1..] == SchedulerVars[i + 1..];
      var varsym := "__" + v + "__";
      if Contains(current, varsym) {
        if v !in env {
          return Err(KeyError(v));
        }
        current := ReplaceAll(current, varsym, env[v]);
      }
      i := i + 1;
    }
    r := Ok(current);
  }

  /** A string with none of the tokens comes back unchanged, whatever the
      environment holds. */
  lemma {:induction false} SubstituteNoTokens(data: string, vars: seq<string>, env: Env)
    requires forall k | 0 <= k < |vars| :: !Contains(data, Token(vars[k]))
    ensures SubstituteFrom(data, vars, env) == Ok(data)
    decreases |vars|
  {
    if |vars| > 0 {
      SubstituteNoTokens(data, vars[1..], env);
    }
  }

  /** The first token present whose variable is missing is the `KeyError`
      raised. */
  lemma {:induction false} SubstituteMissing(data: string, vars: seq<string>, env: Env, k: nat)
    requires k < |vars| && vars[k] !in env && Contains(data, Token(vars[k]))
    requires forall j | 0 <= j < k :: !Contains(data, Token(vars[j]))
    ensures SubstituteFrom(data, vars, env) == Err(KeyError(vars[k]))
    decreases k
  {
    if k > 0 {
      assert !Contains(data, Token(vars[0]));
      SubstituteMissing(data, vars[1..], env, k - 1);
    }
  }

  /** `localizePath`: substitute the tokens, expand twice, turn backslashes
      into slashes. */
  function LocalizePath(delocPath: string, env: Env, expand: string -> string): (r: Result<string>)
    ensures r.Ok? ==> '\\' !in r.value
    ensures r.Err? <==> SubstituteFrom(delocPath, SchedulerVars, env).Err?
  {
    match SubstituteFrom(delocPath, SchedulerVars, env)
    case Err(e) => Err(e)
    case Ok(s) => Ok(Slashes(expand(expand(s))))
  }

  /** A path under `PDG_DIR`, delocalised and localised again on a host with
      the same `PDG_DIR`, comes back as the original with forward slashes,
      provided the path holds no doubled underscore and expanding leaves the
      directory and the path alone. */
  lemma LocalizeDelocalize(localPath: string, env: Env, expand: string -> string, rest: string)
    requires "PDG_DIR" in env && expand(env["PDG_DIR"]) == env["PDG_DIR"]
    requires |Slashes(env["PDG_DIR"])| > 0
    requires Slashes(localPath) == Slashes(env["PDG_DIR"]) + rest
    requires NoDoubleUnderscore(env["PDG_DIR"] + rest)
    requires expand(env["PDG_DIR"] + rest) == env["PDG_DIR"] + rest
    ensures LocalizePath(DelocalizePath(localPath, env, expand), env, expand) == Ok(Slashes(localPath))
  {
    var e := env["PDG_DIR"];
    var d := Slashes(e);
    ReplaceFirstLeading(d, rest, DirToken);
    assert DelocalizePath(localPath, env, expand) == DirToken + rest;
    assert DirToken == Token(SchedulerVars[0]);
    ContainsAt(DirToken + rest, DirToken, 0);
    NoDoubleUnderscoreSuffix(e, rest);
    NoDoubleUnderscoreNoToken(rest, DirToken);
    ReplaceAllLeading(rest, DirToken, e);
    ReplaceAllAbsent(rest, DirToken, e);
    forall k | 0 <= k < |SchedulerVars[1..]| ensures !Contains(e + rest, Token(SchedulerVars[1..][k])) {
      NoDoubleUnderscoreNoToken(e + rest, Token(SchedulerVars[1..][k]));
    }
    SubstituteNoTokens(e + rest, SchedulerVars[1..], env);
    assert SubstituteFrom(DirToken + rest, SchedulerVars, env) == Ok(e + rest);
    assert '\\' !in rest by {
      assert forall k | 0 <= k < |rest| :: rest[k] == Slashes(localPath)[|d| + k];
    }
    SlashesConcat(e, rest);
    SlashesOfSlashFree(rest);
  }

  // ---------------------------------------------------------------------
  // The job id

  /** `os.environ[os.environ['PDG_JOBID_VAR']]`, or `''` when either lookup
      fails. */
  function JobId(env: Env): string {
    if "PDG_JOBID_VAR" in env && env["PDG_JOBID_VAR"] in env then env[env["PDG_JOBID_VAR"]] else ""
  }

  /** The lookup is exactly the indirection through `PDG_JOBID_VAR`, with
      `''` for both failure cases. */
  lemma JobIdLookup(env: Env)
    ensures "PDG_JOBID_VAR" !in env ==> JobId(env) == ""
    ensures "PDG_JOBID_VAR" in env && env["PDG_JOBID_VAR"] !in env ==> JobId(env) == ""
    ensures "PDG_JOBID_VAR" in env && env["PDG_JOBID_VAR"] in env ==> JobId(env) == env[env["PDG_JOBID_VAR"]]
  {}

  /** A task started with the environment the scheduler puts on its block
      reports the scheduler's cook id, whatever the host's own environment. */
  lemma JobIdOnFarm(hostEnv: Env, item: AfanasyJob.WorkItem, dirs: AfanasyJob.SessionDirs,
                    serverAddr: string, cookId: string)
    ensures JobId(hostEnv + AfanasyJob.TaskEnv(item, dirs, serverAddr, cookId)) == cookId
  {
    var env := hostEnv + AfanasyJob.TaskEnv(item, dirs, serverAddr, cookId);
    assert env["PDG_JOBID_VAR"] == "PDG_JOBID";
    assert env["PDG_JOBID"] == cookId;
  }

  // ---------------------------------------------------------------------
  // Remote calls

  datatype Request =
    | StartCookBatch(item: string, subindex: int, jobId: string)
    | StartCook(item: string, jobId: string)
    | ItemFailed(item: string, jobId: string)

  /** A call on the proxy for `proxy`, with what the helper printed first. */
  datatype RpcCall = RpcCall(printed: seq<string>, proxy: string, request: Request)

  /** `execStartCook`: a batch sub-item (`subindex >= 0`) calls
      `start_cook_batch`, any other item `start_cook`. */
  function ExecStartCook(itemName: string, subindex: int, serverAddr: string, toStdout: bool, env: Env): (c: RpcCall)
    ensures c.request.StartCookBatch? <==> subindex >= 0
    ensures c.request.StartCook? <==> subindex < 0
    ensures c.request.item == itemName && c.request.jobId == JobId(env)
    ensures c.request.StartCookBatch? ==> c.request.subindex == subindex
    ensures c.proxy == "http://" + serverAddr
    ensures |c.printed| == (if toStdout then 1 else 0)
  {
    var printed := if toStdout then ["PDG_START: " + itemName + ";" + IntToString(subindex)] else [];
    var jobid := JobId(env);
    if subindex >= 0 then RpcCall(printed, "http://" + serverAddr, StartCookBatch(itemName, subindex, jobid))
    else RpcCall(printed, "http://" + serverAddr, StartCook(itemName, jobid))
  }

  /** `execItemFailed`: the `failed` call with the job id, and nothing printed. */
  function ExecItemFailed(itemName: string, serverAddr: string, env: Env): (c: RpcCall)
    ensures c.request.ItemFailed? && c.request.item == itemName && c.request.jobId == JobId(env)
    ensures c.printed == []
  {
    RpcCall([], "http://" + serverAddr, ItemFailed(itemName, JobId(env)))
  }

  /** On the farm both calls carry the cook id the scheduler handed out. */
  lemma CallsCarryCookId(hostEnv: Env, item: AfanasyJob.WorkItem, dirs: AfanasyJob.SessionDirs,
                         serverAddr: string, cookId: string, subindex: int)
    ensures ExecStartCook(item.name, subindex, serverAddr, false,
                          hostEnv + AfanasyJob.TaskEnv(item, dirs, serverAddr, cookId)).request.jobId == cookId
    ensures ExecItemFailed(item.name, serverAddr,
                           hostEnv + AfanasyJob.TaskEnv(item, dirs, serverAddr, cookId)).request.jobId == cookId
  {
    JobIdOnFarm(hostEnv, item, dirs, serverAddr, cookId);
  }

  // ---------------------------------------------------------------------
  // reportResultData

  /** The argument as a list: a list or tuple as it is, anything else
      wrapped into a one-element list. */
  function AsList(v: Value): (l: seq<Value>)
    ensures v.List? ==> l == v.items
    ensures !v.List? ==> l == [v]
  {
    if v.List? then v.items else [v]
  }

  /** The argument checks of `reportResultData`. */
  function CheckResultData(resultData: Value): (r: Result<seq<Value>>)
    ensures r.Ok? <==> |AsList(resultData)| > 0 && AsList(resultData)[0].Str?
    ensures r.Ok? ==> r.value == AsList(resultData)
    ensures |AsList(resultData)| == 0 ==> r == Err(TypeError("result_data is invalid"))
    ensures |AsList(resultData)| > 0 && !AsList(resultData)[0].Str? ==>
              r == Err(TypeError("result_data must be string-like or a list of string-like"))
  {
    var l := AsList(resultData);
    if |l| == 0 then Err(TypeError("result_data is invalid"))
    else if !l[0].Str? then Err(TypeError("result_data must be string-like or a list of string-like"))
    else Ok(l)
  }

  /** `item_name`, falling back on `PDG_ITEM_NAME`. */
  function ResolveItemName(itemName: Option<string>, env: Env): (r: Result<string>)
    ensures !Falsy(itemName) ==> r == Ok(itemName.value)
    ensures Falsy(itemName) && "PDG_ITEM_NAME" !in env ==> r == Err(KeyError("PDG_ITEM_NAME"))
    ensures Falsy(itemName) && "PDG_ITEM_NAME" in env ==> r == Ok(env["PDG_ITEM_NAME"])
  {
    if !Falsy(itemName) then Ok(itemName.value)
    else if "PDG_ITEM_NAME" in env then Ok(env["PDG_ITEM_NAME"])
    else Err(KeyError("PDG_ITEM_NAME"))
  }

  /** `server_addr`, falling back on `PDG_RESULT_SERVER`, and whether the
      socket is to be used: a missing variable turns reporting to stdout
      only and leaves `server_addr` as it was. */
  function ResolveServer(serverAddr: Option<string>, env: Env): (r: (Option<string>, bool))
    ensures r.1 <==> !Falsy(serverAddr) || "PDG_RESULT_SERVER" in env
    ensures r.1 ==> r.0.Some?
    ensures !r.1 ==> r.0 == serverAddr
  {
    if !Falsy(serverAddr) then (serverAddr, true)
    else if "PDG_RESULT_SERVER" in env then (Some(env["PDG_RESULT_SERVER"]), true)
    else (serverAddr, false)
  }

  /** `'http://' + server_addr` as written: concatenating `None` raises. */
  function ProxyAddressAsWritten(serverAddr: Option<string>): (r: Result<string>)
    ensures r.Err? <==> serverAddr.None?
  {
    if serverAddr.None? then Err(TypeError("cannot concatenate 'str' and 'NoneType' objects"))
    else Ok("http://" + serverAddr.value)
  }

  /** The proxy address as evidently intended: no proxy when there is no
      address, as the stdout-only fallback promises. */
  function ProxyAddress(serverAddr: Option<string>): (r: Option<string>)
    ensures r.None? <==> serverAddr.None?
    ensures r.Some? ==> r.value == "http://" + serverAddr.value
  {
    if serverAddr.None? then None else Some("http://" + serverAddr.value)
  }

  /** The default call `reportResultData(data)` on a host without
      `PDG_RESULT_SERVER` raises `TypeError` at the proxy construction, as
      written, although it has just chosen stdout-only reporting. */
  lemma ProxyAddressAsWrittenRaises(env: Env)
    requires "PDG_RESULT_SERVER" !in env
    ensures !ResolveServer(None, env).1
    ensures ProxyAddressAsWritten(ResolveServer(None, env).0).Err?
  {}

  /** With the corrected address the same call goes on without a proxy; with
      an address the two agree. */
  lemma ProxyAddressAgrees(serverAddr: Option<string>)
    ensures serverAddr.Some? ==> ProxyAddressAsWritten(serverAddr) == Ok(ProxyAddress(serverAddr).value)
    ensures serverAddr.None? ==> ProxyAddress(serverAddr) == None
  {}

  /** An element is a file path when the tag is empty or starts with `file`. */
  predicate IsFilePath(tag: string) {
    StartsWith(tag, "file") || tag == ""
  }

  /** Python's `s[0:n]`. */
  function Take(s: string, n: nat): (r: string)
    ensures |r| == if |s| <= n then |s| else n
    ensures r == s[..|r|]
  {
    if |s| <= n then s else s[..n]
  }

  /** `len(x)` for the objects that have one. */
  function Len(v: Value): Option<nat> {
    match v
    case Str(s) => Some(|s|)
    case List(items) => Some(|items|)
    case _ => None
  }

  /** How an element is shown on stdout: its `repr`, cut to 90 characters
      and followed by its length when it is longer than 100. */
  function Display(elem: Value, repr: Value -> string): (r: Result<string>)
    ensures r.Err? <==> Len(elem).None?
    ensures Len(elem).Some? && Len(elem).value <= 100 ==> r == Ok(repr(elem))
    ensures Len(elem).Some? && Len(elem).value > 100 ==>
              r.Ok? && StartsWith(r.value, Take(repr(elem), 90)) && |Take(repr(elem), 90)| <= 90 &&
              EndsWith(r.value, "...(" + NatToString(Len(elem).value) + " bytes)")
    ensures Len(elem).Some? && Len(elem).value > 100 ==>
              r == Ok(Take(repr(elem), 90) + ("...(" + NatToString(Len(elem).value) + " bytes)"))
  {
    match Len(elem)
    case None => Err(TypeError("object has no len()"))
    case Some(n) =>
      if n > 100 then
        var suffix := "...(" + NatToString(n) + " bytes)";
        var shown := Take(repr(elem), 90) + suffix;
        assert shown[..|Take(repr(elem), 90)|] == Take(repr(elem), 90);
        assert shown[|shown| - |suffix|..] == suffix;
        Ok(shown)
      else Ok(repr(elem))
  }

  /** What the farm host provides: its environment, `os.path.expandvars`
      and `repr`. */
  datatype Host = Host(env: Env, expand: string -> string, repr: Value -> string)

  /** The remaining arguments of `reportResultData`. */
  datatype ReportArgs = ReportArgs(tag: string, subindex: int, andSuccess: bool, toStdout: bool,
                                   duration: real, hashCode: int)

  /** A line `reportResultData` prints. */
  datatype Printed =
    | ResultPrinted(item: string, subindex: int, display: string, tag: string, hashCode: int)
    | SuccessPrinted(item: string, subindex: int, duration: real)

  /** What the element loop produced: each element as it would be sent, and
      the lines printed. */
  datatype Elements = Elements(payloads: seq<Value>, printed: seq<Printed>)

  /** The payload of one element: a file path is delocalised unless it is
      already rooted at `__PDG_DIR__`; calling `startswith` on anything but a
      string raises. */
  function Payload(elem: Value, filePath: bool, host: Host): (r: Result<Value>)
    ensures !filePath ==> r == Ok(elem)
    ensures filePath ==> (r.Ok? <==> elem.Str?)
    ensures filePath && elem.Str? && StartsWith(elem.s, DirToken) ==> r == Ok(elem)
    ensures filePath && elem.Str? && !StartsWith(elem.s, DirToken) ==>
              r == Ok(Str(DelocalizePath(elem.s, host.env, host.expand)))
  {
    if !filePath then Ok(elem)
    else if !elem.Str? then Err(AttributeError("startswith"))
    else if StartsWith(elem.s, DirToken) then Ok(elem)
    else Ok(Str(DelocalizePath(elem.s, host.env, host.expand)))
  }

  /** The lines printed for one element. */
  function ElementLines(item: string, payload: Value, args: ReportArgs, host: Host): (r: Result<seq<Printed>>)
    ensures !args.toStdout ==> r == Ok([])
    ensures args.toStdout ==> (r.Ok? <==> Len(payload).Some?)
    ensures r.Ok? && args.toStdout ==>
              |r.value| == (if args.andSuccess then 2 else 1) &&
              r.value[0] == ResultPrinted(item, args.subindex, Display(payload, host.repr).value, args.tag, args.hashCode)
    ensures r.Ok? && args.toStdout && args.andSuccess ==>
              r.value[1] == SuccessPrinted(item, args.subindex, args.duration)
  {
    if !args.toStdout then Ok([])
    else
      match Display(payload, host.repr)
      case Err(e) => Err(e)
      case Ok(shown) =>
        var result := [ResultPrinted(item, args.subindex, shown, args.tag, args.hashCode)];
        Ok(if args.andSuccess then result + [SuccessPrinted(item, args.subindex, args.duration)] else result)
  }

  /** One pass of the element loop. */
  function ReportElement(item: string, elem: Value, args: ReportArgs, host: Host): (r: Result<Elements>)
    ensures r.Ok? ==> |r.value.payloads| == 1 && Ok(r.value.payloads[0]) == Payload(elem, IsFilePath(args.tag), host)
    ensures r.Ok? ==> "PDG_SHARED_TEMP" in host.env
  {
    match Payload(elem, IsFilePath(args.tag), host)
    case Err(e) => Err(e)
    case Ok(payload) =>
      if "PDG_SHARED_TEMP" !in host.env then Err(KeyError("PDG_SHARED_TEMP"))
      else
        match ElementLines(item, payload, args, host)
        case Err(e) => Err(e)
        case Ok(lines) => Ok(Elements([payload], lines))
  }

  /** The element loop: the first exception stops it. */
  function ReportElements(item: string, elems: seq<Value>, args: ReportArgs, host: Host): (r: Result<Elements>)
    ensures r.Ok? ==> |r.value.payloads| == |elems|
    ensures r.Ok? ==> forall k | 0 <= k < |elems| :: Ok(r.value.payloads[k]) == Payload(elems[k], IsFilePath(args.tag), host)
    decreases |elems|
  {
    if |elems| == 0 then Ok(Elements([], []))
    else
      match ReportElement(item, elems[0], args, host)
      case Err(e) => Err(e)
      case Ok(first) =>
        match ReportElements(item, elems[1..], args, host)
        case Err(e) => Err(e)
        case Ok(rest) => Ok(Elements(first.payloads + rest.payloads, first.printed + rest.printed))
  }

  /** What a successful `reportResultData` leaves behind. */
  datatype Report = Report(item: string, proxy: Option<string>, doSocket: bool, jobId: string,
                           payloads: seq<Value>, printed: seq<Printed>)

  /** `reportResultData`, with the proxy address as intended. */
  function ReportResultSpec(resultData: Value, itemName: Option<string>, serverAddr: Option<string>,
                            args: ReportArgs, host: Host): Result<Report>
  {
    match CheckResultData(resultData)
    case Err(e) => Err(e)
    case Ok(elems) =>
      match ResolveItemName(itemName, host.env)
      case Err(e) => Err(e)
      case Ok(item) =>
        var (addr, doSocket) := ResolveServer(serverAddr, host.env);
        match ReportElements(item, elems, args, host)
        case Err(e) => Err(e)
        case Ok(out) => Ok(Report(item, ProxyAddress(addr), doSocket, JobId(host.env), out.payloads, out.printed))
  }

  /** Prefixes what has been gathered so far to the rest of the loop. */
  function After(gathered: Elements, rest: Result<Elements>): Result<Elements> {
    match rest
    case Err(e) => Err(e)
    case Ok(more) => Ok(Elements(gathered.payloads + more.payloads, gathered.printed + more.printed))
  }

  /** One step of the loop followed by the rest of it. */
  lemma ReportElementsCons(item: string, elems: seq<Value>, args: ReportArgs, host: Host)
    requires |elems| > 0
    ensures ReportElement(item, elems[0], args, host).Err? ==>
              ReportElements(item, elems, args, host) == Err(ReportElement(item, elems[0], args, host).error)
    ensures ReportElement(item, elems[0], args, host).Ok? ==>
              ReportElements(item, elems, args, host)
              == After(ReportElement(item, elems[0], args, host).value, ReportElements(item, elems[1..], args, host))
  {}

  lemma AfterAssoc(a: Elements, b: Elements, rest: Result<Elements>)
    ensures After(a, After(b, rest)) == After(Elements(a.payloads + b.payloads, a.printed + b.printed), rest)
  {
    if rest.Ok? {
      assert a.payloads + (b.payloads + rest.value.payloads) == a.payloads + b.payloads + rest.value.payloads;
      assert a.printed + (b.printed + rest.value.printed) == a.printed + b.printed + rest.value.printed;
    }
  }

  /** `reportResultData`: the checks, then the element loop. */
  method ReportResultData(resultData: Value, itemName: Option<string>, serverAddr: Option<string>,
                          args: ReportArgs, host: Host) returns (r: Result<Report>)
    ensures r == ReportResultSpec(resultData, itemName, serverAddr, args, host)
  {
    var checked := CheckResultData(resultData);
    if checked.Err? {
      return Err(checked.error);
    }
    var named := ResolveItemName(itemName, host.env);
    if named.Err? {
      return Err(named.error);
    }
    var item := named.value;
    var (addr, doSocket) := ResolveServer(serverAddr, host.env);
    var proxy := ProxyAddress(addr);
    var jobid := JobId(host.env);
    var out := ReportLoop(item, checked.value, args, host);
    if out.Err? {
      return Err(out.error);
    }
    r := Ok(Report(item, proxy, doSocket, jobid, out.value.payloads, out.value.printed));
  }

  /** The loop over the elements, each rebound before it is shown. */
  method ReportLoop(item: string, elems: seq<Value>, args: ReportArgs, host: Host) returns (r: Result<Elements>)
    ensures r == ReportElements(item, elems, args, host)
  {
    var gathered := Elements([], []);
    ghost var whole := ReportElements(item, elems, args, host);
    assert elems[0..] == elems;
    assert whole.Ok? ==> [] + whole.value.payloads == whole.value.payloads && [] + whole.value.printed == whole.value.printed;
    var i := 0;
    while i < |elems|
      invariant 0 <= i <= |elems|
      invariant After(gathered, ReportElements(item, elems[i..], args, host)) == whole
    {
      assert elems[i..][0] == elems[i] && elems[i..][1..] == elems[i + 1..];
      ReportElementsCons(item, elems[i..], args, host);
      var step := ReportOne(item, elems[i], args, host);
      if step.Err? {
        return Err(step.error);
      }
      AfterAssoc(gathered, step.value, ReportElements(item, elems[i + 1..], args, host));
      gathered := Elements(gathered.payloads + step.value.payloads, gathered.printed + step.value.printed);
      i := i + 1;
    }
    assert elems[i..] == [];
    assert gathered.payloads + [] == gathered.payloads && gathered.printed + [] == gathered.printed;
    r := Ok(gathered);
  }

  /** One pass of the loop body. */
  method ReportOne(item: string, elem: Value, args: ReportArgs, host: Host) returns (r: Result<Elements>)
    ensures r == ReportElement(item, elem, args, host)
  {
    var e := elem;
    if IsFilePath(args.tag) {
      if !e.Str? {
        return Err(AttributeError("startswith"));
      }
      if !StartsWith(e.s, DirToken) {
        e := Str(DelocalizePath(e.s, host.env, host.expand));
      }
    }
    if "PDG_SHARED_TEMP" !in host.env {
      return Err(KeyError("PDG_SHARED_TEMP"));
    }
    var lines := ElementLines(item, e, args, host);
    if lines.Err? {
      return Err(lines.error);
    }
    r := Ok(Elements([e], lines.value));
  }

  /** The argument checks come first: an empty list and a first element that
      is not string-like raise `TypeError` whatever else holds. */
  lemma ReportRejectsBadData(resultData: Value, itemName: Option<string>, serverAddr: Option<string>,
                             args: ReportArgs, host: Host)
    ensures |AsList(resultData)| == 0 ==>
              ReportResultSpec(resultData, itemName, serverAddr, args, host) == Err(TypeError("result_data is invalid"))
    ensures |AsList(resultData)| > 0 && !AsList(resultData)[0].Str? ==>
              ReportResultSpec(resultData, itemName, serverAddr, args, host)
              == Err(TypeError("result_data must be string-like or a list of string-like"))
  {}

  /** A successful report carries one payload per element of the (wrapped)
      argument, each the element delocalised exactly when it is a file path
      not yet rooted at `__PDG_DIR__`. */
  lemma ReportPayloads(resultData: Value, itemName: Option<string>, serverAddr: Option<string>,
                       args: ReportArgs, host: Host)
    requires ReportResultSpec(resultData, itemName, serverAddr, args, host).Ok?
    ensures var rep := ReportResultSpec(resultData, itemName, serverAddr, args, host).value;
            |rep.payloads| == |AsList(resultData)| &&
            forall k | 0 <= k < |rep.payloads| ::
              Ok(rep.payloads[k]) == Payload(AsList(resultData)[k], IsFilePath(args.tag), host)
  {}

  /** A single string under the default arguments, on a host without
      `PDG_RESULT_SERVER`, is reported on stdout only, without a proxy. */
  lemma ReportWithoutServer(s: string, item: string, args: ReportArgs, host: Host)
    requires item != "" && "PDG_RESULT_SERVER" !in host.env && "PDG_SHARED_TEMP" in host.env
    ensures var r := ReportResultSpec(Str(s), Some(item), None, args, host);
            r.Ok? && !r.value.doSocket && r.value.proxy == None && |r.value.payloads| == 1
  {
    var payload := Payload(Str(s), IsFilePath(args.tag), host).value;
    assert Len(payload).Some?;
    assert ReportElements(item, [Str(s)], args, host).Ok? by {
      assert [Str(s)][1..] == [];
    }
  }

  // ---------------------------------------------------------------------
  // writeAttribute

  /** What `writeAttribute` sends. */
  datatype AttrWrite = AttrWrite(proxy: string, item: string, attribute: string, values: seq<Value>, jobId: string)

  predicate IsAttrScalar(v: Value) {
    v.Str? || v.Int? || v.Float?
  }

  /** `writeAttribute`: the argument wrapped and checked, the item name and
      server address resolved (a missing `PDG_RESULT_SERVER` raises here),
      and the `write_attr` call. */
  function WriteAttribute(attrName: string, attrValue: Value, itemName: Option<string>,
                          serverAddr: Option<string>, env: Env): (r: Result<AttrWrite>)
    ensures |AsList(attrValue)| == 0 ==> r == Err(TypeError("attr_value is invalid"))
    ensures |AsList(attrValue)| > 0 && !IsAttrScalar(AsList(attrValue)[0]) ==>
              r == Err(TypeError("result_data must be string, int or float (array)"))
    ensures r.Ok? ==> r.value.values == AsList(attrValue) && r.value.attribute == attrName &&
                      r.value.jobId == JobId(env) && Ok(r.value.item) == ResolveItemName(itemName, env)
    ensures r.Ok? ==> (!Falsy(serverAddr) || "PDG_RESULT_SERVER" in env)
    ensures r.Ok? <==> |AsList(attrValue)| > 0 && IsAttrScalar(AsList(attrValue)[0]) &&
                       ResolveItemName(itemName, env).Ok? && (!Falsy(serverAddr) || "PDG_RESULT_SERVER" in env)
  {
    var values := AsList(attrValue);
    if |values| == 0 then Err(TypeError("attr_value is invalid"))
    else if !IsAttrScalar(values[0]) then Err(TypeError("result_data must be string, int or float (array)"))
    else
      match ResolveItemName(itemName, env)
      case Err(e) => Err(e)
      case Ok(item) =>
        if Falsy(serverAddr) && "PDG_RESULT_SERVER" !in env then Err(KeyError("PDG_RESULT_SERVER"))
        else
          var addr := if Falsy(serverAddr) then env["PDG_RESULT_SERVER"] else serverAddr.value;
          Ok(AttrWrite("http://" + addr, item, attrName, values, JobId(env)))
  }

  /** A scalar is sent as a one-element list. */
  lemma WriteAttributeWrapsScalar(attrName: string, v: Value, itemName: Option<string>,
                                  serverAddr: Option<string>, env: Env)
    requires IsAttrScalar(v) && !Falsy(itemName) && !Falsy(serverAddr)
    ensures WriteAttribute(attrName, v, itemName, serverAddr, env)
            == Ok(AttrWrite("http://" + serverAddr.value, itemName.value, attrName, [v], JobId(env)))
  {}
}
