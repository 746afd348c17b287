/** One pass of the scheduler's status poll (`tick`): every job id of the
    ledger snapshot is queried, its task state classified, lifecycle events
    emitted and finished jobs removed from the ledger. This module is the
    specification of that pass; `Scheduler.Tick` runs it step by step. */
module AfanasyTick {
  import opened PyBase
  import opened PyStr
  import opened PdgEngine

  /** The ledger `active_jobs`: farm job id to work item name. */
  type Ledger = map<int, string>

  /** What the farm answers about one job. `NoRecord` is a progress query
      returning `None`; `Malformed` is an answer whose progress or info
      cannot be indexed as the code expects (it raises); `Snapshot` carries
      the state string of the first task record in the progress answer
      (the one the nested `[0]` lookups reach) and the two timestamps of the
      job info, each possibly absent. */
  datatype PollReply =
    | NoRecord
    | Malformed
    | Snapshot(state: string, timeStarted: Option<int>, timeDone: Option<int>)

  /** How `tick` reads a reply. `Fault` is a reply on which the code raises. */
  datatype Verdict =
    | Lost          // no progress record
    | Ghost         // empty state string
    | Running       // "RUN"
    | Errored       // "RDY RER"
    | Done(duration: int)  // "DON" or "SKP" with both times
    | Unclassified  // anything else, including whitespace only
    | Fault

  function Classify(reply: PollReply): (v: Verdict)
    ensures reply.NoRecord? ==> v == Lost
    ensures reply.Malformed? ==> v == Fault
    ensures reply.Snapshot? && |reply.state| == 0 ==> v == Ghost
    ensures reply.Snapshot? && |reply.state| > 0 ==>
              (v == Running <==> Strip(reply.state) == "RUN")
              && (v == Errored <==> Strip(reply.state) == "RDY RER")
              && (v.Done? <==> (Strip(reply.state) == "DON" || Strip(reply.state) == "SKP")
                               && reply.timeStarted.Some? && reply.timeDone.Some?)
              && (v.Done? ==> v.duration == reply.timeDone.value - reply.timeStarted.value)
              && (v == Fault <==> (Strip(reply.state) == "DON" || Strip(reply.state) == "SKP")
                                  && (reply.timeStarted.None? || reply.timeDone.None?))
              && (v == Unclassified <==> Strip(reply.state) != "RUN" && Strip(reply.state) != "RDY RER"
                                         && Strip(reply.state) != "DON" && Strip(reply.state) != "SKP")
  {
    match reply
    case NoRecord => Lost
    case Malformed => Fault
    case Snapshot(state, started, done) =>
      if |state| < 1 then Ghost
      else
        var t := Strip(state);
        if t == "RUN" then Running
        else if t == "RDY RER" then Errored
        else if t == "DON" || t == "SKP" then
          (if started.Some? && done.Some? then Done(done.value - started.value) else Fault)
        else Unclassified
  }

  /** A verdict after which the job is deleted from the ledger. */
  predicate Terminal(v: Verdict) {
    v.Lost? || v.Ghost? || v.Errored? || v.Done?
  }

  /** A verdict whose branch reads the item name from the ledger. */
  predicate NeedsName(v: Verdict) {
    !v.Unclassified? && !v.Fault?
  }

  /** The callbacks the branch of a verdict makes, all with index -1. */
  function VerdictEvents(name: string, v: Verdict): (es: seq<Event>)
    ensures |es| <= 1
    ensures TerminalCount(es) == (if Terminal(v) then 1 else 0)
    ensures forall k :: 0 <= k < |es| ==> es[k].item == name && es[k].index == -1
  {
    match v
    case Lost => [ItemFailed(name, -1)]
    case Ghost => [ItemFailed(name, -1)]
    case Running => [ItemStarted(name, -1)]
    case Errored => [ItemFailed(name, -1)]
    case Done(d) => [ItemSucceeded(name, -1, d)]
    case Unclassified => []
    case Fault => []
  }

  /** The outcome of a pass: the new ledger, the events in order, `ok` for
      `tick`'s return value, and how many keys were fully handled before
      an exception stopped the pass. */
  datatype TickResult = TickResult(ledger: Ledger, events: seq<Event>, ok: bool, handled: nat)

  /** The pass over the keys `keys`, in order. */
  function TickFrom(ledger: Ledger, keys: seq<int>, poll: int -> PollReply): (r: TickResult)
    ensures r.handled <= |keys|
    ensures r.ok ==> r.handled == |keys|
    ensures r.ledger.Keys <= ledger.Keys
    ensures forall k | k in r.ledger :: r.ledger[k] == ledger[k]
    decreases |keys|
  {
    if |keys| == 0 then TickResult(ledger, [], true, 0)
    else
      var id := keys[0];
      var v := Classify(poll(id));
      if v.Fault? then TickResult(ledger, [], false, 0)
      else if !NeedsName(v) then
        var rest := TickFrom(ledger, keys[1..], poll);
        TickResult(rest.ledger, rest.events, rest.ok, rest.handled + 1)
      else if id !in ledger then TickResult(ledger, [], false, 0)
      else
        var next := if Terminal(v) then ledger - {id} else ledger;
        var rest := TickFrom(next, keys[1..], poll);
        TickResult(rest.ledger, VerdictEvents(ledger[id], v) + rest.events, rest.ok, rest.handled + 1)
  }

  predicate Distinct<K(==)>(keys: seq<K>) {
    forall i, j | 0 <= i < j < |keys| :: keys[i] != keys[j]
  }

  /** `keys` lists exactly the ledger's keys, each once: what `keys()`
      returns. */
  predicate IsSnapshot(ledger: Ledger, keys: seq<int>) {
    Distinct(keys) && (forall k | k in keys :: k in ledger) && (forall k | k in ledger :: k in keys)
  }

  // ---------------------------------------------------------------------
  // Properties of the pass

  /** No raise, no stop: over keys the ledger holds, the pass succeeds
      exactly when no reply is a fault. */
  lemma {:induction false} TickOkIffNoFault(ledger: Ledger, keys: seq<int>, poll: int -> PollReply)
    requires Distinct(keys) && forall k | k in keys :: k in ledger
    ensures TickFrom(ledger, keys, poll).ok <==> forall k | k in keys :: !Classify(poll(k)).Fault?
    decreases |keys|
  {
    if |keys| > 0 {
      var id := keys[0];
      var v := Classify(poll(id));
      if !v.Fault? {
        var next := if Terminal(v) then ledger - {id} else ledger;
        DistinctTail(keys);
        if NeedsName(v) {
          TickOkIffNoFault(next, keys[1..], poll);
        } else {
          TickOkIffNoFault(ledger, keys[1..], poll);
        }
        assert forall k | k in keys :: k == id || k in keys[1..];
      }
    }
  }

  lemma DistinctTail(keys: seq<int>)
    requires |keys| > 0 && Distinct(keys)
    ensures Distinct(keys[1..])
    ensures keys[0] !in keys[1..]
    ensures forall k | k in keys[1..] :: k in keys
  {
    forall j | 0 <= j < |keys[1..]| ensures keys[1..][j] != keys[0] {
      assert keys[1..][j] == keys[j + 1];
    }
  }

  /** The ledger a step of the pass leaves for the next key. */
  function StepLedger(ledger: Ledger, id: int, v: Verdict): Ledger {
    if NeedsName(v) && Terminal(v) then ledger - {id} else ledger
  }

  /** One key of the pass: whether it goes on, the ledger after it and
      the callbacks it makes. */
  function Step(ledger: Ledger, id: int, v: Verdict): (s: (bool, Ledger, seq<Event>))
    ensures !s.0 <==> v.Fault? || (NeedsName(v) && id !in ledger)
    ensures s.0 && NeedsName(v) ==> s.1 == StepLedger(ledger, id, v) && s.2 == VerdictEvents(ledger[id], v)
    ensures !(s.0 && NeedsName(v)) ==> s.1 == ledger && s.2 == []
  {
    if v.Fault? then (false, ledger, [])
    else if !NeedsName(v) then (true, ledger, [])
    else if id !in ledger then (false, ledger, [])
    else (true, StepLedger(ledger, id, v), VerdictEvents(ledger[id], v))
  }

  /** The pass is its first step followed by the pass over the remaining
      keys, unless the first step raises. */
  lemma TickFromUnfold(ledger: Ledger, keys: seq<int>, poll: int -> PollReply)
    requires |keys| > 0
    ensures var s := Step(ledger, keys[0], Classify(poll(keys[0])));
            var rest := TickFrom(s.1, keys[1..], poll);
            TickFrom(ledger, keys, poll)
              == if !s.0 then TickResult(ledger, [], false, 0)
                 else TickResult(rest.ledger, s.2 + rest.events, rest.ok, rest.handled + 1)
  {
    var id := keys[0];
    var v := Classify(poll(id));
    var s := Step(ledger, id, v);
    var rest := TickFrom(s.1, keys[1..], poll);
    if v.Fault? {
    } else if !NeedsName(v) {
      assert s.1 == ledger && s.2 == [];
      assert s.2 + rest.events == rest.events;
    } else if id in ledger {
      assert s.1 == (if Terminal(v) then ledger - {id} else ledger);
      assert s.2 == VerdictEvents(ledger[id], v);
    }
  }

  /** `TickFromUnfold` at position `i` of a key list, in the shape a loop
      over the keys uses. */
  lemma TickFromAt(ledger: Ledger, keys: seq<int>, i: nat, poll: int -> PollReply)
    requires i < |keys|
    ensures var s := Step(ledger, keys[i], Classify(poll(keys[i])));
            var here := TickFrom(ledger, keys[i..], poll);
            var rest := TickFrom(s.1, keys[i + 1..], poll);
            && (!s.0 ==> here == TickResult(ledger, [], false, 0))
            && (s.0 ==> here.ledger == rest.ledger && here.events == s.2 + rest.events && here.ok == rest.ok)
  {
    TickFromUnfold(ledger, keys[i..], poll);
    assert keys[i..][0] == keys[i] && keys[i..][1..] == keys[i + 1..];
  }

  /** The bookkeeping of a loop over the keys: if what is left of the pass
      from position `i` accounts for the whole pass, then after the step at
      `i` what is left from `i + 1` does, or the step stops the pass where
      it is. */
  lemma PollStep(ledger: Ledger, keys: seq<int>, i: nat, poll: int -> PollReply,
                 events0: seq<Event>, events: seq<Event>, full: TickResult,
                 ok: bool, ledger': Ledger, events': seq<Event>)
    requires i < |keys|
    requires var here := TickFrom(ledger, keys[i..], poll);
             full.ledger == here.ledger && events0 + full.events == events + here.events && full.ok == here.ok
    requires var s := Step(ledger, keys[i], Classify(poll(keys[i])));
             ok == s.0 && ledger' == s.1 && events' == events + s.2
    ensures !ok ==> full.ledger == ledger' && events0 + full.events == events' && !full.ok
    ensures ok ==> var rest := TickFrom(ledger', keys[i + 1..], poll);
                   full.ledger == rest.ledger && events0 + full.events == events' + rest.events && full.ok == rest.ok
  {
    TickFromAt(ledger, keys, i, poll);
    var s := Step(ledger, keys[i], Classify(poll(keys[i])));
    assert !s.0 ==> s.1 == ledger && s.2 == [];
    StepBookkeeping(ledger, s, TickFrom(ledger, keys[i..], poll), TickFrom(s.1, keys[i + 1..], poll),
                    events0, events, full, ok, ledger', events');
  }

  /** `PollStep` with the pass and the step abstracted: only sequence
      bookkeeping is left. */
  lemma StepBookkeeping(ledger: Ledger, s: (bool, Ledger, seq<Event>), here: TickResult, rest: TickResult,
                        events0: seq<Event>, events: seq<Event>, full: TickResult,
                        ok: bool, ledger': Ledger, events': seq<Event>)
    requires full.ledger == here.ledger && events0 + full.events == events + here.events && full.ok == here.ok
    requires ok == s.0 && ledger' == s.1 && events' == events + s.2
    requires !s.0 ==> here == TickResult(ledger, [], false, 0) && s.1 == ledger && s.2 == []
    requires s.0 ==> here.ledger == rest.ledger && here.events == s.2 + rest.events && here.ok == rest.ok
    ensures !ok ==> full.ledger == ledger' && events0 + full.events == events' && !full.ok
    ensures ok ==> full.ledger == rest.ledger && events0 + full.events == events' + rest.events && full.ok == rest.ok
  {
    if s.0 {
      assert events + (s.2 + rest.events) == (events + s.2) + rest.events;
    } else {
      assert events + [] == events;
    }
  }

  lemma HandledPrefix(keys: seq<int>, n: nat)
    requires |keys| > 0 && n < |keys|
    ensures keys[..n + 1] == [keys[0]] + keys[1..][..n]
  {}

  /** Exactly-once: over distinct keys the ledger holds, the pass removes
      as many entries as it emits terminal events. */
  lemma {:induction false} TickExactlyOnce(ledger: Ledger, keys: seq<int>, poll: int -> PollReply)
    requires Distinct(keys) && forall k | k in keys :: k in ledger
    ensures var r := TickFrom(ledger, keys, poll);
            |ledger| == |r.ledger| + TerminalCount(r.events)
    decreases |keys|
  {
    if |keys| > 0 {
      var id := keys[0];
      var v := Classify(poll(id));
      if !v.Fault? {
        DistinctTail(keys);
        var l := StepLedger(ledger, id, v);
        assert forall k | k in keys[1..] :: k in l;
        TickExactlyOnce(l, keys[1..], poll);
        if NeedsName(v) {
          var rest := TickFrom(l, keys[1..], poll);
          TerminalCountConcat(VerdictEvents(ledger[id], v), rest.events);
          if Terminal(v) {
            assert |ledger - {id}| == |ledger| - 1;
          }
        }
      }
    }
  }

  /** Every handled key whose reply was terminal is gone, every other
      handled key stays. */
  lemma {:induction false} TickHandledKeys(ledger: Ledger, keys: seq<int>, poll: int -> PollReply)
    requires Distinct(keys) && forall k | k in keys :: k in ledger
    ensures var r := TickFrom(ledger, keys, poll);
            forall k | k in keys[..r.handled] :: k in r.ledger <==> !Terminal(Classify(poll(k)))
    decreases |keys|
  {
    var r := TickFrom(ledger, keys, poll);
    if |keys| > 0 {
      var id := keys[0];
      var v := Classify(poll(id));
      if !v.Fault? {
        DistinctTail(keys);
        var l := StepLedger(ledger, id, v);
        assert forall k | k in keys[1..] :: k in l;
        TickHandledKeys(l, keys[1..], poll);
        TickKeepsUnreached(l, keys[1..], poll);
        var rest := TickFrom(l, keys[1..], poll);
        HandledPrefix(keys, rest.handled);
        assert id !in keys[1..][..rest.handled] by {
          assert forall k | k in keys[1..][..rest.handled] :: k in keys[1..];
        }
        assert id in r.ledger <==> !Terminal(v) by {
          if !Terminal(v) {
            assert id in l;
          }
        }
      }
    }
  }

  /** Entries the pass did not reach stay, and so do entries whose key is
      not among the keys polled. */
  lemma {:induction false} TickKeepsUnreached(ledger: Ledger, keys: seq<int>, poll: int -> PollReply)
    ensures var r := TickFrom(ledger, keys, poll);
            forall k | k in ledger && k !in keys[..r.handled] :: k in r.ledger
    decreases |keys|
  {
    var r := TickFrom(ledger, keys, poll);
    if |keys| > 0 {
      var id := keys[0];
      var v := Classify(poll(id));
      if v.Fault? {
      } else if !NeedsName(v) {
        var rest := TickFrom(ledger, keys[1..], poll);
        assert r.ledger == rest.ledger && r.handled == rest.handled + 1;
        TickKeepsUnreached(ledger, keys[1..], poll);
        HandledPrefix(keys, rest.handled);
      } else if id in ledger {
        var l := StepLedger(ledger, id, v);
        var rest := TickFrom(l, keys[1..], poll);
        assert r.ledger == rest.ledger && r.handled == rest.handled + 1;
        TickKeepsUnreached(l, keys[1..], poll);
        HandledPrefix(keys, rest.handled);
        forall k | k in ledger && k !in keys[..r.handled] ensures k in r.ledger {
          assert k != id && k !in keys[1..][..rest.handled];
        }
      }
    }
  }

  /** Every event names the item of a key the pass handled. */
  lemma {:induction false} TickEventsFromHandled(ledger: Ledger, keys: seq<int>, poll: int -> PollReply)
    ensures var r := TickFrom(ledger, keys, poll);
            forall e | e in r.events ::
              e.index == -1 && exists k | k in keys[..r.handled] :: k in ledger && e.item == ledger[k]
    decreases |keys|
  {
    var r := TickFrom(ledger, keys, poll);
    if |keys| > 0 {
      var id := keys[0];
      var v := Classify(poll(id));
      if v.Fault? || (NeedsName(v) && id !in ledger) {
      } else {
        var l := StepLedger(ledger, id, v);
        TickEventsFromHandled(l, keys[1..], poll);
        var rest := TickFrom(l, keys[1..], poll);
        HandledPrefix(keys, rest.handled);
        forall e | e in r.events
          ensures e.index == -1 && exists k | k in keys[..r.handled] :: k in ledger && e.item == ledger[k]
        {
          if e in rest.events {
            var k :| k in keys[1..][..rest.handled] && k in l && e.item == l[k];
            assert k in keys[..r.handled];
          } else {
            assert e in VerdictEvents(ledger[id], v);
            assert id in keys[..r.handled];
          }
        }
      }
    }
  }

  /** A job whose task is running stays in the ledger and gets exactly one
      start event. */
  lemma RunningStays(ledger: Ledger, id: int, state: string, t0: Option<int>, t1: Option<int>,
                     poll: int -> PollReply)
    requires id in ledger && poll(id) == Snapshot(state, t0, t1) && |state| > 0 && Strip(state) == "RUN"
    ensures var r := TickFrom(ledger, [id], poll);
            r.ok && r.ledger == ledger && r.events == [ItemStarted(ledger[id], -1)]
  {
    assert [id][1..] == [];
  }

  /** A state of blanks only is not a ghost job: it passes the length check,
      strips to nothing and is left alone. */
  lemma WhitespaceStateUnclassified(state: string, t0: Option<int>, t1: Option<int>)
    requires |state| > 0 && AllSpace(state)
    ensures Classify(Snapshot(state, t0, t1)) == Unclassified
  {
    StripAllSpace(state);
  }

  /** A finished task whose job info lacks a timestamp raises (None minus
      int) and the rest of the pass is abandoned; entries already removed
      stay removed and `tick` answers False. */
  lemma DoneWithoutTimeAborts(state: string, t0: Option<int>, t1: Option<int>)
    requires |state| > 0 && (Strip(state) == "DON" || Strip(state) == "SKP")
    requires t0.None? || t1.None?
    ensures Classify(Snapshot(state, t0, t1)) == Fault
  {}
}
