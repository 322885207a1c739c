/** ClaudeAdapter: the streaming call with its process slot, and the slot under calls that overlap. */
module ClaudeAdapter {
  import opened Sequences
  import opened ClaudeStream

  /** One adapter. A process is known by its number; what it does is given as the events that reach
      the call while it waits for output, in any order, and the way it ends. */
  class ClaudeAdapter {
    const parse: Reader
    var activeProcess: Option<nat>
    var lastExitCode: Option<int>

    constructor (parse: Reader)
      ensures this.parse == parse && activeProcess == None && lastExitCode == None
    {
      this.parse := parse;
      activeProcess := None;
      lastExitCode := None;
    }

    /** What the handled events leave of a run that takes the slot. */
    ghost function Finished(aborted: bool, events: seq<ProcessEvent>): RunState
    {
      AdvanceAll(LineReader(parse), Begin(aborted), events)
    }

    method Stream(handle: nat, repository: bool, aborted: bool, events: seq<ProcessEvent>, end: ProcessEnd)
      returns (texts: seq<string>, outcome: Outcome)
      modifies this
      ensures old(activeProcess).Some? ==>
                && outcome == AlreadyRunning && texts == []
                && activeProcess == old(activeProcess) && lastExitCode == old(lastExitCode)
      ensures old(activeProcess).None? && !repository ==>
                outcome == NoRepository && texts == [] && activeProcess == None && lastExitCode == old(lastExitCode)
      ensures old(activeProcess).None? && repository ==>
                && texts == Finished(aborted, events).output.parsed.texts
                && outcome == Conclude(Finished(aborted, events), end)
                && activeProcess == None
                && lastExitCode == if end.Exited? then end.code else old(lastExitCode)
    {
      if activeProcess.Some? {
        return [], AlreadyRunning;
      }
      if !repository {
        return [], NoRepository;
      }
      activeProcess := Some(handle);
      var timedOut, cancelled := false, aborted;
      var resultIsError, resultErrorSubtype := false, "";
      var buffer := "";
      texts := [];
      for i := 0 to |events|
        invariant lastExitCode == old(lastExitCode)
        invariant RunState(Buffered(buffer, Parsed(texts, resultIsError, resultErrorSubtype)), timedOut, cancelled) ==
                  Finished(aborted, events[..i])
      {
        assert events[..i + 1][..i] == events[..i];
        match events[i]
        case Timeout => timedOut := true;
        case Abort => cancelled := true;
        case Chunk(chunk) =>
          ghost var before := Parsed(texts, resultIsError, resultErrorSubtype);
          var pieces := Split(buffer + chunk);
          buffer := Last(pieces);
          var lines := Lines(pieces);
          for j := 0 to |lines|
            invariant Parsed(texts, resultIsError, resultErrorSubtype) ==
                      HandleLines(LineReader(parse), before, lines[..j])
          {
            assert lines[..j + 1][..j] == lines[..j];
            var trimmed := Trim(lines[j]);
            if trimmed == "" {
              continue;
            }
            var event := parse(trimmed);
            if event.None? {
              continue;
            }
            if IsTextDelta(event.value) {
              var text := event.value.event.value.delta.value.text;
              if text.Some? && text.value != "" {
                texts := texts + [text.value];
              }
            } else if event.value.kind == ResultKind {
              resultIsError := event.value.isError;
              resultErrorSubtype := if event.value.subtype.Some? then event.value.subtype.value else "";
            }
          }
          assert lines[..|lines|] == lines;
      }
      assert events[..|events|] == events;
      if end.SpawnError? {
        outcome := SpawnFailed;
      } else {
        lastExitCode := end.code;
        if timedOut {
          outcome := TimedOut;
        } else if cancelled {
          outcome := Cancelled;
        } else if end.code != Some(0) {
          outcome := CommandFailed(end.code, Stderr);
        } else if resultIsError {
          outcome := CommandFailed(end.code, ErrorResult(
            if resultErrorSubtype != "" then resultErrorSubtype else "Claude reported an error result"));
        } else {
          outcome := Succeeded;
        }
      }
      activeProcess := None;
    }

    /** The yielded texts in one piece with the exit code; None when the call threw. */
    method Execute(handle: nat, repository: bool, aborted: bool, events: seq<ProcessEvent>, end: ProcessEnd)
      returns (result: Option<(string, Option<int>)>)
      modifies this
      ensures result.Some? <==>
                old(activeProcess).None? && repository && Conclude(Finished(aborted, events), end) == Succeeded
      ensures result.Some? ==>
                && result.value.0 == Flatten(ParseWhole(LineReader(parse), TextOf(events)).parsed.texts)
                && result.value.1 == Some(0)
      ensures activeProcess == old(activeProcess)
    {
      var texts, outcome := Stream(handle, repository, aborted, events, end);
      var output := "";
      for i := 0 to |texts|
        invariant output == Flatten(texts[..i])
        modifies {}
      {
        assert texts[..i + 1] == texts[..i] + [texts[i]];
        FlattenAppend(texts[..i], [texts[i]]);
        assert Flatten([texts[i]]) == texts[i];
        output := output + texts[i];
      }
      assert texts[..|texts|] == texts;
      StateOfEvents(LineReader(parse), aborted, events);
      result := if outcome.Succeeded? then Some((output, lastExitCode)) else None;
    }
  }

  // ----- calls that overlap -----

  datatype Result = Result(texts: seq<string>, outcome: Outcome)

  /** The adapter between the steps of any number of calls, each with a number of its own. */
  datatype Slot = Slot(
    active: Option<nat>, lastExitCode: Option<int>, runs: map<nat, RunState>, results: map<nat, Result>)

  datatype Step =
    | Call(id: nat, repository: bool, aborted: bool)
    | Deliver(id: nat, event: ProcessEvent)
    | Finish(id: nat, end: ProcessEnd)

  const IDLE := Slot(None, None, map[], map[])

  /** A step that the call is not ready for does nothing. The end of a run clears the slot, whoever holds it. */
  function Take(read: Reader, s: Slot, step: Step): Slot
  {
    match step
    case Call(id, repository, aborted) =>
      if id in s.runs || id in s.results then s
      else if s.active.Some? then s.(results := s.results[id := Result([], AlreadyRunning)])
      else if !repository then s.(results := s.results[id := Result([], NoRepository)])
      else s.(active := Some(id), runs := s.runs[id := Begin(aborted)])
    case Deliver(id, event) =>
      if id in s.runs then s.(runs := s.runs[id := Advance(read, s.runs[id], event)]) else s
    case Finish(id, end) =>
      if id in s.runs then
        Slot(None, if end.Exited? then end.code else s.lastExitCode, s.runs - {id},
             s.results[id := Result(s.runs[id].output.parsed.texts, Conclude(s.runs[id], end))])
      else s
  }

  function TakeAll(read: Reader, steps: seq<Step>): Slot
  {
    if steps == [] then IDLE else Take(read, TakeAll(read, steps[..|steps| - 1]), steps[|steps| - 1])
  }

  /** What a caller can tell of its own call: its own steps, and whether the slot was free. */
  datatype History =
    | Unseen
    | Refused(outcome: Outcome)
    | Live(aborted: bool, events: seq<ProcessEvent>)
    | Ended(aborted: bool, events: seq<ProcessEvent>, end: ProcessEnd)

  function Note(h: History, step: Step, free: bool): History
  {
    match step
    case Call(_, repository, aborted) =>
      if !h.Unseen? then h
      else if !free then Refused(AlreadyRunning)
      else if !repository then Refused(NoRepository)
      else Live(aborted, [])
    case Deliver(_, event) => if h.Live? then Live(h.aborted, h.events + [event]) else h
    case Finish(_, end) => if h.Live? then Ended(h.aborted, h.events, end) else h
  }

  function HistoryOf(read: Reader, steps: seq<Step>, id: nat): History
  {
    if steps == [] then Unseen
    else
      var front, last := steps[..|steps| - 1], steps[|steps| - 1];
      var h := HistoryOf(read, front, id);
      if last.id == id then Note(h, last, TakeAll(read, front).active.None?) else h
  }

  /** What the slot holds of a call agrees with the call's own history. */
  ghost predicate Tracks(read: Reader, s: Slot, id: nat, h: History)
  {
    && (s.active == Some(id) <==> h.Live?)
    && (id in s.runs <==> h.Live?)
    && (id in s.results <==> h.Refused? || h.Ended?)
    && match h
       case Unseen => true
       case Refused(outcome) => s.results[id] == Result([], outcome)
       case Live(aborted, events) => s.runs[id] == AdvanceAll(read, Begin(aborted), events)
       case Ended(aborted, events, end) =>
         var r := AdvanceAll(read, Begin(aborted), events);
         s.results[id] == Result(r.output.parsed.texts, Conclude(r, end))
  }

  /** Over every interleaving of calls, each call gets the result that its own events determine; the
      slot belongs to the one call that is running. */
  lemma {:induction false} EveryCallGetsItsOwnResult(read: Reader, steps: seq<Step>, id: nat)
    ensures Tracks(read, TakeAll(read, steps), id, HistoryOf(read, steps, id))
  {
    if steps != [] {
      var front, last := steps[..|steps| - 1], steps[|steps| - 1];
      EveryCallGetsItsOwnResult(read, front, id);
      EveryCallGetsItsOwnResult(read, front, last.id);
      var h := HistoryOf(read, front, id);
      if h.Live? && last.Deliver? && last.id == id {
        assert (h.events + [last.event])[..|h.events|] == h.events;
      }
    }
  }

  /** The slot passes from a call to none, by that call's own end, and to no other call directly. */
  lemma SlotFreedByItsOwner(read: Reader, steps: seq<Step>, step: Step)
    ensures var s, t := TakeAll(read, steps), Take(read, TakeAll(read, steps), step);
            s.active.Some? && t.active != s.active ==>
              t.active == None && step.Finish? && step.id == s.active.value
  {
    EveryCallGetsItsOwnResult(read, steps, step.id);
  }

  function NotOf(id: nat): Step -> bool { (s: Step) => s.id != id }

  /** A refused call might as well not have been made: with all its steps taken out of the trace, every
      other call ends up with the same state and result. */
  lemma {:induction false} RefusedCallIsInvisible(read: Reader, steps: seq<Step>, id: nat)
    requires HistoryOf(read, steps, id).Refused? || HistoryOf(read, steps, id).Unseen?
    ensures var s := TakeAll(read, steps);
            TakeAll(read, Filter(NotOf(id), steps)) == s.(results := s.results - {id})
  {
    if steps != [] {
      var front, last := steps[..|steps| - 1], steps[|steps| - 1];
      RefusedCallIsInvisible(read, front, id);
      EveryCallGetsItsOwnResult(read, front, id);
      FilterLast(NotOf(id), steps, front, last);
      if last.id != id {
        TakeLast(read, Filter(NotOf(id), front), last);
        OtherStep(read, TakeAll(read, front), last, id);
      } else {
        OwnStep(read, TakeAll(read, front), last);
      }
    }
  }

  lemma FilterLast(keep: Step -> bool, steps: seq<Step>, front: seq<Step>, last: Step)
    requires steps != [] && front == steps[..|steps| - 1] && last == steps[|steps| - 1]
    ensures Filter(keep, steps) == if keep(last) then Filter(keep, front) + [last] else Filter(keep, front)
  {
    assert steps == front + [last];
    FilterAppend(keep, front, [last]);
  }

  lemma TakeLast(read: Reader, steps: seq<Step>, step: Step)
    ensures TakeAll(read, steps + [step]) == Take(read, TakeAll(read, steps), step)
  {
    assert (steps + [step])[..|steps|] == steps;
  }

  lemma OtherStep(read: Reader, s: Slot, step: Step, id: nat)
    requires step.id != id
    ensures var t := Take(read, s, step);
            Take(read, s.(results := s.results - {id}), step) == t.(results := t.results - {id})
  {}

  lemma OwnStep(read: Reader, s: Slot, step: Step)
    requires step.id !in s.runs
    ensures var t := Take(read, s, step);
            step.id !in t.runs ==> t.(results := t.results - {step.id}) == s.(results := s.results - {step.id})
  {}

  // ----- the exit code that is shared -----

  /** The step ends a run. */
  predicate Ends(read: Reader, steps: seq<Step>, step: Step)
  {
    step.Finish? && HistoryOf(read, steps, step.id).Live?
  }

  /** The exit code of the last run of the trace that ended with one. */
  function LastExit(read: Reader, steps: seq<Step>): Option<int>
  {
    if steps == [] then None
    else
      var front, last := steps[..|steps| - 1], steps[|steps| - 1];
      if Ends(read, front, last) && last.end.Exited? then last.end.code else LastExit(read, front)
  }

  lemma {:induction false} ExitCodeIsTheLast(read: Reader, steps: seq<Step>)
    ensures TakeAll(read, steps).lastExitCode == LastExit(read, steps)
  {
    if steps != [] {
      var front, last := steps[..|steps| - 1], steps[|steps| - 1];
      ExitCodeIsTheLast(read, front);
      EveryCallGetsItsOwnResult(read, front, last.id);
    }
  }

  /** After a run that succeeded the exit code that execute reads is that run's, whatever other calls do,
      until another run ends. */
  lemma {:induction false} ExitCodeIsItsOwn(read: Reader, steps: seq<Step>, id: nat, end: ProcessEnd, later: seq<Step>)
    requires HistoryOf(read, steps, id).Live?
    requires var h := HistoryOf(read, steps, id);
             Conclude(AdvanceAll(read, Begin(h.aborted), h.events), end) == Succeeded
    requires forall i :: 0 <= i < |later| ==> !Ends(read, steps + [Finish(id, end)] + later[..i], later[i])
    ensures var s := TakeAll(read, steps + [Finish(id, end)] + later);
            s.lastExitCode == end.code == Some(0) && id in s.results && s.results[id].outcome == Succeeded
  {
    var all := steps + [Finish(id, end)] + later;
    ExitCodeIsTheLast(read, all);
    EveryCallGetsItsOwnResult(read, all, id);
    if later == [] {
      assert all[..|all| - 1] == steps && all[|all| - 1] == Finish(id, end);
    } else {
      var front, last := later[..|later| - 1], later[|later| - 1];
      forall i | 0 <= i < |front| ensures !Ends(read, steps + [Finish(id, end)] + front[..i], front[i])
      {
        assert front[..i] == later[..i];
      }
      ExitCodeIsItsOwn(read, steps, id, end, front);
      assert all[..|all| - 1] == steps + [Finish(id, end)] + front && all[|all| - 1] == last;
      EveryCallGetsItsOwnResult(read, all[..|all| - 1], id);
      ExitCodeIsTheLast(read, all[..|all| - 1]);
      assert !Ends(read, all[..|all| - 1], last) by { assert later[..|later| - 1] == front; }
    }
  }
}
