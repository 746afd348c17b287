/** The interface between the scheduler and the PDG work-graph engine: what
    `onSchedule` answers, and the lifecycle callbacks the scheduler makes
    (`onWorkItemStartCook`, `onWorkItemSucceeded`, ...). The engine itself
    is not modelled; the callbacks it receives are recorded as `Event`s. */
module PdgEngine {
  import opened PyBase

  /** `pdg.scheduleResult`. */
  datatype ScheduleResult = CookSucceeded | Succeeded | Failed

  /** One lifecycle callback into the engine. */
  datatype Event =
    | ItemStarted(item: string, index: int)
    | ItemSucceeded(item: string, index: int, duration: int)
    | ItemFailed(item: string, index: int)
    | ItemCancelled(item: string, index: int)
    | ItemFileResult(item: string, index: int, result: string, tag: string, checksum: int)
    | ItemSetAttribute(item: string, index: int, attribute: string, values: seq<Value>)

  /** An event after which the engine no longer expects news of the item. */
  predicate IsTerminal(e: Event) {
    e.ItemSucceeded? || e.ItemFailed? || e.ItemCancelled?
  }

  /** The number of terminal events in an event log. */
  function TerminalCount(events: seq<Event>): (n: nat)
    ensures n <= |events|
    ensures n == 0 <==> forall k :: 0 <= k < |events| ==> !IsTerminal(events[k])
    decreases |events|
  {
    if |events| == 0 then 0
    else (if IsTerminal(events[0]) then 1 else 0) + TerminalCount(events[1..])
  }

  lemma {:induction false} TerminalCountConcat(a: seq<Event>, b: seq<Event>)
    ensures TerminalCount(a + b) == TerminalCount(a) + TerminalCount(b)
    decreases |a|
  {
    if |a| > 0 {
      assert (a + b)[1..] == a[1..] + b;
      TerminalCountConcat(a[1..], b);
    } else {
      assert a + b == b;
    }
  }
}
