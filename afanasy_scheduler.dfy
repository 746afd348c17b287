/** The Afanasy scheduler object: the ledger of jobs in flight, the cook
    counter, the callback port range in use, the callback server and tick
    timer switches and the shared servers the scheduler knows of. Every
    engine callback it makes is recorded in the ghost `events` log. */
module AfanasyScheduler {
  import opened PyBase
  import opened PyStr
  import opened PdgEngine
  import opened AfanasyJob
  import opened AfanasyTick

  /** The argument dictionary of a shared server, as the job that started
      it reported it. */
  type ServerInfo = map<string, string>

  /** What happened to the XML-RPC callback server, in order. */
  datatype ServerCall = ServerStarted(portRange: Option<int>) | ServerStopped

  /** The cook's settings `onStartCook` reads: the local shared root and
      whether it exists, the working directory relative to it and whether
      it is (wrongly) absolute, and the remote root override. */
  datatype CookSettings = CookSettings(
    localSharedRoot: string,
    sharedRootExists: bool,
    workingBase: string,
    workingBaseIsAbsolute: bool,
    overrideRemoteRoot: int,
    remoteSharedRoot: string)

  /** Whether a cook start replaces the port range (and so restarts the
      callback server), and the range in use afterwards. */
  function PortRangeUpdate(overridePortRange: int, callbackPortRange: int, current: Option<int>): (r: (bool, Option<int>))
    ensures r.0 <==> overridePortRange > 0 && current != Some(callbackPortRange)
    ensures r.0 ==> r.1 == Some(callbackPortRange)
    ensures !r.0 ==> r.1 == current
  {
    if overridePortRange > 0 && current != Some(callbackPortRange) then (true, Some(callbackPortRange))
    else (false, current)
  }

  /** A second cook with the same port setting does not restart the server
      again. */
  lemma PortRangeSettles(overridePortRange: int, callbackPortRange: int, current: Option<int>)
    ensures var first := PortRangeUpdate(overridePortRange, callbackPortRange, current);
            !PortRangeUpdate(overridePortRange, callbackPortRange, first.1).0
  {}

  /** The working directories `_updateWorkingDir` derives: the local one
      normalised with forward slashes, the remote one either the same or
      the remote root joined with the relative base. */
  function WorkingDirs(settings: CookSettings, normpath: string -> string): (dirs: (string, string))
    ensures '\\' !in dirs.0
    ensures settings.overrideRemoteRoot == 0 ==> dirs.1 == dirs.0
    ensures settings.overrideRemoteRoot != 0 ==> EndsWith(dirs.1, "/" + settings.workingBase)
  {
    var local := Slashes(normpath(settings.localSharedRoot + "/" + settings.workingBase));
    (local, if settings.overrideRemoteRoot == 0 then local else settings.remoteSharedRoot + "/" + settings.workingBase)
  }

  /** A list of the given set, each element once, in an order the caller
      does not control (the order of a Python dict's `keys()`). */
  method SnapshotOf<K(==)>(s: set<K>) returns (ks: seq<K>)
    ensures Distinct(ks)
    ensures forall k | k in ks :: k in s
    ensures forall k | k in s :: k in ks
  {
    ks := [];
    var rest := s;
    while rest != {}
      invariant rest <= s
      invariant Distinct(ks)
      invariant forall k | k in ks :: k in s && k !in rest
      invariant forall k | k in s :: k in ks || k in rest
      decreases |rest|
    {
      var k :| k in rest;
      ks := ks + [k];
      rest := rest - {k};
    }
  }

  class Scheduler {
    /** `active_jobs`: farm job id to work item name. */
    var activeJobs: Ledger
    /** `cook_id`: the number of cooks started, as a decimal string. */
    var cookId: string
    /** `custom_port_range`: the callback port range last applied. */
    var customPortRange: Option<int>
    var callbackServerRunning: bool
    var tickTimerRunning: bool
    var sharedServers: map<string, ServerInfo>
    var localWorkingDir: string
    var remoteWorkingDir: string

    /** The engine callbacks made so far. */
    ghost var events: seq<Event>
    /** The callback server starts and stops so far. */
    ghost var serverCalls: seq<ServerCall>
    /** The number of cooks started. */
    ghost var cookCount: nat

    ghost predicate Valid()
      reads this
    {
      cookId == NatToString(cookCount)
    }

    constructor ()
      ensures Valid()
      ensures activeJobs == map[] && cookId == "0" && cookCount == 0
      ensures customPortRange == None && !callbackServerRunning && !tickTimerRunning
      ensures sharedServers == map[] && events == [] && serverCalls == []
    {
      activeJobs := map[];
      cookId := "0";
      customPortRange := None;
      callbackServerRunning := false;
      tickTimerRunning := false;
      sharedServers := map[];
      localWorkingDir := "";
      remoteWorkingDir := "";
      events := [];
      serverCalls := [];
      cookCount := 0;
    }

    // -------------------------------------------------------------------
    // Engine callbacks (the `workItem*` forwarders)

    method WorkItemSucceeded(name: string, index: int, duration: int)
      modifies this`events
      ensures events == old(events) + [ItemSucceeded(name, index, duration)]
    {
      events := events + [ItemSucceeded(name, index, duration)];
    }

    method WorkItemFailed(name: string, index: int)
      modifies this`events
      ensures events == old(events) + [ItemFailed(name, index)]
    {
      events := events + [ItemFailed(name, index)];
    }

    method WorkItemCancelled(name: string, index: int)
      modifies this`events
      ensures events == old(events) + [ItemCancelled(name, index)]
    {
      events := events + [ItemCancelled(name, index)];
    }

    method WorkItemStartCook(name: string, index: int)
      modifies this`events
      ensures events == old(events) + [ItemStarted(name, index)]
    {
      events := events + [ItemStarted(name, index)];
    }

    method WorkItemFileResult(name: string, subindex: int, result: string, tag: string, checksum: int)
      modifies this`events
      ensures events == old(events) + [ItemFileResult(name, subindex, result, tag, checksum)]
    {
      events := events + [ItemFileResult(name, subindex, result, tag, checksum)];
    }

    method WorkItemSetAttribute(name: string, subindex: int, attribute: string, values: seq<Value>)
      modifies this`events
      ensures events == old(events) + [ItemSetAttribute(name, subindex, attribute, values)]
    {
      events := events + [ItemSetAttribute(name, subindex, attribute, values)];
    }

    // -------------------------------------------------------------------
    // Callback server

    method StartCallbackServer()
      modifies this`callbackServerRunning, this`serverCalls
      ensures callbackServerRunning
      ensures serverCalls == old(serverCalls) + [ServerStarted(customPortRange)]
    {
      callbackServerRunning := true;
      serverCalls := serverCalls + [ServerStarted(customPortRange)];
    }

    method StopCallbackServer()
      modifies this`callbackServerRunning, this`serverCalls
      ensures !callbackServerRunning
      ensures serverCalls == old(serverCalls) + [ServerStopped]
    {
      callbackServerRunning := false;
      serverCalls := serverCalls + [ServerStopped];
    }

    // -------------------------------------------------------------------
    // Scheduling

    /** `onSchedule`: the steps of the source, one by one; the outcome and
        the new ledger are those of `Schedule`. The farm id the ledger
        gains is also the one stored on the work item. */
    method OnSchedule(item: WorkItem, params: SchedulerParams, dirs: SessionDirs,
                      host: Host, send: Job -> Option<int>)
      returns (result: ScheduleResult, storedJobId: Option<int>)
      modifies this`activeJobs
      ensures var s := Schedule(item, params, dirs, old(cookId), host, send);
              && result == s.result
              && storedJobId == s.jobId
              && activeJobs == (if s.jobId.Some? then old(activeJobs)[s.jobId.value := item.name]
                                else old(activeJobs))
    {
      storedJobId := None;
      if |item.command| == 0 {
        return CookSucceeded, None;
      }
      var command := MaterializeCommand(item, params, dirs, host.platform, host.env, host.expand);
      var argv := host.shellSplit(command);
      if argv.None? {
        return Failed, None;
      }
      var line := Join(" ", argv.value);
      if |line| < 2 {
        return Succeeded, None;
      }
      if !host.filesReady || "HOUDINI_USER_PREF_DIR" !in host.env {
        return Failed, None;
      }
      var job := BuildJob(item, params, dirs, cookId, line);
      var reply := send(job);
      if reply.None? {
        return Failed, None;
      }
      activeJobs := activeJobs[reply.value := item.name];
      return Succeeded, reply;
    }

    // -------------------------------------------------------------------
    // Polling

    /** The loop body of `tick` for one job id: the branches of the source
        in its order. The answer says whether the pass goes on. */
    method HandleJob(id: int, reply: PollReply) returns (ok: bool)
      modifies this`activeJobs, this`events
      ensures var s := Step(old(activeJobs), id, Classify(reply));
              ok == s.0 && activeJobs == s.1 && events == old(events) + s.2
    {
      if reply.Malformed? {
        return false;
      }
      if reply.NoRecord? || |reply.state| < 1 {
        if id !in activeJobs {
          return false;
        }
        WorkItemFailed(activeJobs[id], -1);
        activeJobs := activeJobs - {id};
        return true;
      }
      var state := Strip(reply.state);
      if state == "RUN" {
        if id !in activeJobs {
          return false;
        }
        WorkItemStartCook(activeJobs[id], -1);
      }
      if state == "RDY RER" {
        if id !in activeJobs {
          return false;
        }
        WorkItemFailed(activeJobs[id], -1);
        activeJobs := activeJobs - {id};
      } else if state == "DON" || state == "SKP" {
        if reply.timeStarted.None? || reply.timeDone.None? {
          return false;
        }
        var duration := reply.timeDone.value - reply.timeStarted.value;
        if id !in activeJobs {
          return false;
        }
        WorkItemSucceeded(activeJobs[id], -1, duration);
        activeJobs := activeJobs - {id};
      }
      return true;
    }

    /** `tick`: one pass over a snapshot of the ledger's keys. The new
        ledger, the callbacks made and the answer are those of `TickFrom`
        on that snapshot; nothing but the ledger and the event log changes. */
    method Tick(poll: int -> PollReply) returns (ok: bool, keys: seq<int>)
      modifies this`activeJobs, this`events
      ensures IsSnapshot(old(activeJobs), keys)
      ensures var r := TickFrom(old(activeJobs), keys, poll);
              activeJobs == r.ledger && events == old(events) + r.events && ok == r.ok
    {
      keys := SnapshotOf(activeJobs.Keys);
      ok := PollEach(keys, poll);
    }

    /** The loop of `tick` over the key snapshot `keys`. */
    method PollEach(keys: seq<int>, poll: int -> PollReply) returns (ok: bool)
      modifies this`activeJobs, this`events
      ensures var r := TickFrom(old(activeJobs), keys, poll);
              activeJobs == r.ledger && events == old(events) + r.events && ok == r.ok
    {
      ghost var full := TickFrom(activeJobs, keys, poll);
      var i := 0;
      while i < |keys|
        invariant 0 <= i <= |keys|
        invariant full.ledger == TickFrom(activeJobs, keys[i..], poll).ledger
        invariant old(events) + full.events == events + TickFrom(activeJobs, keys[i..], poll).events
        invariant full.ok == TickFrom(activeJobs, keys[i..], poll).ok
      {
        ghost var ledger, logged := activeJobs, events;
        var goOn := HandleJob(keys[i], poll(keys[i]));
        PollStep(ledger, keys, i, poll, old(events), logged, full, goOn, activeJobs, events);
        if !goOn {
          return false;
        }
        i := i + 1;
      }
      assert keys[i..] == [];
      return true;
    }

    // -------------------------------------------------------------------
    // Cook lifecycle

    /** `onStartCook`: the cook counter goes up by one before anything can
        fail; a missing shared root or an absolute working directory then
        raises. Otherwise the working directories are set, the port range
        is applied (restarting the callback server when it changed), the
        server is started if it is not running and the tick timer is
        started. The ledger and the event log are left alone. */
    method OnStartCook(params: SchedulerParams, settings: CookSettings, normpath: string -> string)
      returns (r: Result<bool>)
      requires Valid()
      modifies this`cookId, this`cookCount, this`localWorkingDir, this`remoteWorkingDir,
               this`customPortRange, this`callbackServerRunning, this`serverCalls, this`tickTimerRunning
      ensures Valid() && cookCount == old(cookCount) + 1
      ensures !settings.sharedRootExists ==>
                r == Err(RuntimeError("localsharedroot file path not found: " + settings.localSharedRoot))
      ensures settings.sharedRootExists && settings.workingBaseIsAbsolute ==>
                r == Err(RuntimeError("Relative Job Directory '" + settings.workingBase + "' must be relative path!"))
      ensures settings.sharedRootExists && !settings.workingBaseIsAbsolute ==> r == Ok(true)
      ensures r.Err? ==> unchanged(this`localWorkingDir, this`remoteWorkingDir, this`customPortRange,
                                    this`callbackServerRunning, this`serverCalls, this`tickTimerRunning)
      ensures r.Ok? ==>
                && settings.sharedRootExists && !settings.workingBaseIsAbsolute && r.value
                && (localWorkingDir, remoteWorkingDir) == WorkingDirs(settings, normpath)
                && var update := PortRangeUpdate(params.overridePortRange, params.callbackPortRange,
                                                 old(customPortRange));
                   && customPortRange == update.1
                   && callbackServerRunning && tickTimerRunning
                   && serverCalls == old(serverCalls) +
                        (if update.0 then [ServerStopped, ServerStarted(update.1)]
                         else if old(callbackServerRunning) then []
                         else [ServerStarted(update.1)])
    {
      NatToStringRoundTrip(cookCount);
      cookId := NatToString(DecimalValue(cookId) + 1);
      cookCount := cookCount + 1;
      if !settings.sharedRootExists {
        return Err(RuntimeError("localsharedroot file path not found: " + settings.localSharedRoot));
      }
      if settings.workingBaseIsAbsolute {
        return Err(RuntimeError("Relative Job Directory '" + settings.workingBase + "' must be relative path!"));
      }
      var local := Slashes(normpath(settings.localSharedRoot + "/" + settings.workingBase));
      var remote := if settings.overrideRemoteRoot == 0 then local
                    else settings.remoteSharedRoot + "/" + settings.workingBase;
      localWorkingDir, remoteWorkingDir := local, remote;
      StartCookServices(params);
      return Ok(true);
    }

    /** The end of `onStartCook`: a changed port range is applied by
        restarting the callback server, a server not running is started,
        and the tick timer is started. */
    method StartCookServices(params: SchedulerParams)
      modifies this`customPortRange, this`callbackServerRunning, this`serverCalls, this`tickTimerRunning
      ensures var update := PortRangeUpdate(params.overridePortRange, params.callbackPortRange, old(customPortRange));
              && customPortRange == update.1
              && callbackServerRunning && tickTimerRunning
              && serverCalls == old(serverCalls) +
                   (if update.0 then [ServerStopped, ServerStarted(update.1)]
                    else if old(callbackServerRunning) then []
                    else [ServerStarted(update.1)])
    {
      if params.overridePortRange > 0 {
        var range := params.callbackPortRange;
        if customPortRange != Some(range) {
          customPortRange := Some(range);
          StopCallbackServer();
          StartCallbackServer();
        }
      }
      if !callbackServerRunning {
        StartCallbackServer();
      }
      tickTimerRunning := true;
    }

    /** `endSharedServer`: a known server that shuts down is forgotten;
        any failure answers False and forgets nothing. */
    method EndSharedServer(name: string, shutdown: ServerInfo -> bool) returns (ok: bool)
      modifies this`sharedServers
      ensures ok <==> name in old(sharedServers) && shutdown(old(sharedServers)[name])
      ensures sharedServers == if ok then old(sharedServers) - {name} else old(sharedServers)
    {
      if name !in sharedServers || !shutdown(sharedServers[name]) {
        return false;
      }
      sharedServers := sharedServers - {name};
      return true;
    }

    /** `_stopSharedServers`: every known server is asked to shut down; the
        ones that refuse are kept. */
    method StopSharedServers(shutdown: ServerInfo -> bool)
      modifies this`sharedServers
      ensures sharedServers == map k | k in old(sharedServers) && !shutdown(old(sharedServers)[k]) :: old(sharedServers)[k]
    {
      var names := SnapshotOf(sharedServers.Keys);
      var i := 0;
      while i < |names|
        invariant 0 <= i <= |names|
        invariant sharedServers.Keys <= old(sharedServers).Keys
        invariant forall k | k in sharedServers :: sharedServers[k] == old(sharedServers)[k]
        invariant forall k | k in old(sharedServers) ::
                    k in sharedServers <==> (k in names[i..] || !shutdown(old(sharedServers)[k]))
      {
        assert forall k | k in names[i + 1..] :: k in names[i..] && k != names[i];
        var _ := EndSharedServer(names[i], shutdown);
        i := i + 1;
      }
    }

    /** `onSharedServerStarted`: records the server under its reported name. */
    method OnSharedServerStarted(args: ServerInfo) returns (r: Result<bool>)
      modifies this`sharedServers
      ensures "name" !in args ==> r == Err(KeyError("name")) && sharedServers == old(sharedServers)
      ensures "name" in args ==> r == Ok(true) && sharedServers == old(sharedServers)[args["name"] := args]
    {
      if "name" !in args {
        return Err(KeyError("name"));
      }
      sharedServers := sharedServers[args["name"] := args];
      return Ok(true);
    }

    /** `onStopCook`: the tick timer is cancelled and the shared servers are
        shut down; jobs still in the ledger stay there. */
    method OnStopCook(cancel: bool, shutdown: ServerInfo -> bool) returns (ok: bool)
      modifies this`tickTimerRunning, this`sharedServers
      ensures ok && !tickTimerRunning
      ensures sharedServers == map k | k in old(sharedServers) && !shutdown(old(sharedServers)[k]) :: old(sharedServers)[k]
    {
      tickTimerRunning := false;
      StopSharedServers(shutdown);
      return true;
    }

    /** `onStart`: the callback server is started. */
    method OnStart() returns (ok: bool)
      modifies this`callbackServerRunning, this`serverCalls
      ensures ok && callbackServerRunning
      ensures serverCalls == old(serverCalls) + [ServerStarted(customPortRange)]
    {
      StartCallbackServer();
      return true;
    }

    /** `onStop`: the callback server is stopped and the shared servers
        are shut down. */
    method OnStop(shutdown: ServerInfo -> bool) returns (ok: bool)
      modifies this`callbackServerRunning, this`serverCalls, this`sharedServers
      ensures ok && !callbackServerRunning
      ensures serverCalls == old(serverCalls) + [ServerStopped]
      ensures sharedServers == map k | k in old(sharedServers) && !shutdown(old(sharedServers)[k]) :: old(sharedServers)[k]
    {
      StopCallbackServer();
      StopSharedServers(shutdown);
      return true;
    }
  }
}
