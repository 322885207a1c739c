/** The approval gate under calls that overlap: while an approver is asked about one request, others are
    checked, decided and run. Workflows are calls whose steps are further calls. */
module ApprovalOverlap {
  import opened Sequences
  import opened Approval

  /** Where a call of ApprovalEngine.execute is between two steps of its own. */
  datatype Phase = Waiting(request: Request) | Inside | Over

  /** What moves a call on. A call reads the configuration when it starts; None stands for an approver
      that throws. */
  datatype Step =
    | Start(id: nat, request: Request, config: Config)
    | Answer(id: nat, decision: Option<Decision>)
    | Return(id: nat)

  datatype Entry = Entry(id: nat, event: Event)

  /** All calls so far, each with a number of its own, and the log of the one gate. */
  datatype Gate = Gate(calls: map<nat, Phase>, log: seq<Entry>)

  const OPEN := Gate(map[], [])

  /** The events that a step appends to the log, and where it leaves its call. */
  function Move(g: Gate, id: nat, phase: Phase, events: Log): Gate
  {
    Gate(g.calls[id := phase], g.log + Map(Tag(id), events))
  }

  function Tag(id: nat): Event -> Entry { (v: Event) => Entry(id, v) }

  /** A step that its call is not ready for does nothing. */
  function Take(g: Gate, s: Step): Gate
  {
    match s
    case Start(id, r, config) =>
      if id in g.calls then g
      else if r.WorkflowRequest? then Move(g, id, Inside, [Arrived(r)])
      else if RequiresApproval(r.task, config) then Move(g, id, Waiting(r), [Checked(r, true), Asked(r)])
      else Move(g, id, Inside, [Checked(r, false), Arrived(r)])
    case Answer(id, decision) =>
      if id in g.calls && g.calls[id].Waiting? then
        var r := g.calls[id].request;
        match decision
        case None => Move(g, id, Over, [])
        case Some(Denied(reason)) => Move(g, id, Over, [Decided(r, Denied(reason))])
        case Some(Approved(who)) => Move(g, id, Inside, [Decided(r, Approved(who)), Arrived(r)])
      else g
    case Return(id) => if id in g.calls && g.calls[id] == Inside then Move(g, id, Over, []) else g
  }

  function TakeAll(steps: seq<Step>): Gate
  {
    if steps == [] then OPEN else Take(TakeAll(steps[..|steps| - 1]), steps[|steps| - 1])
  }

  // ----- a call's own part of the log -----

  function Own(log: seq<Entry>, id: nat): Log
  {
    if log == [] then []
    else
      var front, last := log[..|log| - 1], log[|log| - 1];
      if last.id == id then Own(front, id) + [last.event] else Own(front, id)
  }

  lemma {:induction false} OwnAppend(log: seq<Entry>, id: nat, events: Log, other: nat)
    ensures Own(log + Map(Tag(id), events), other) == if other == id then Own(log, other) + events else Own(log, other)
  {
    if events == [] {
      assert log + Map(Tag(id), events) == log;
    } else {
      var front, last := events[..|events| - 1], events[|events| - 1];
      OwnAppend(log, id, front, other);
      assert events == front + [last];
      LogOneMore(log, id, events, front, last);
      OwnOneMore(log + Map(Tag(id), front), Entry(id, last), other);
      OneMore(Own(log, other), events, front, last);
    }
  }

  lemma LogOneMore(log: seq<Entry>, id: nat, events: Log, front: Log, last: Event)
    requires events == front + [last]
    ensures log + Map(Tag(id), events) == (log + Map(Tag(id), front)) + [Entry(id, last)]
  {
    assert Map(Tag(id), events) == Map(Tag(id), front) + [Entry(id, last)];
    OneMore(log, Map(Tag(id), events), Map(Tag(id), front), Entry(id, last));
  }

  lemma OneMore<T>(log: seq<T>, events: seq<T>, front: seq<T>, last: T)
    requires events == front + [last]
    ensures log + events == (log + front) + [last]
  {}

  lemma OwnOneMore(log: seq<Entry>, entry: Entry, id: nat)
    ensures Own(log + [entry], id) == if entry.id == id then Own(log, id) + [entry.event] else Own(log, id)
  {
    assert (log + [entry])[..|log|] == log;
  }

  lemma {:induction false} OwnPrefix(log: seq<Entry>, id: nat, n: nat)
    requires n <= |log|
    ensures Own(log[..n], id) <= Own(log, id)
  {
    if n == |log| {
      assert log[..n] == log;
    } else {
      assert log[..|log| - 1][..n] == log[..n];
      OwnPrefix(log[..|log| - 1], id, n);
    }
  }

  lemma {:induction false} OwnIsLogged(log: seq<Entry>, id: nat, v: Event)
    requires v in Own(log, id)
    ensures exists i :: 0 <= i < |log| && log[i] == Entry(id, v)
  {
    var front, last := log[..|log| - 1], log[|log| - 1];
    if last == Entry(id, v) {
      assert log[|log| - 1] == Entry(id, v);
    } else {
      OwnIsLogged(front, id, v);
      var i :| 0 <= i < |front| && front[i] == Entry(id, v);
      assert log[i] == Entry(id, v);
    }
  }

  // ----- every call has a gate of its own -----

  /** What a call may have done, by what it asks for: as at a gate with no other calls. `decision` is the
      approver's, None while there is none or when the approver threw. */
  ghost predicate AloneAtGate(own: Log, r: Request, gated: bool, decision: Option<Decision>)
  {
    own == if r.WorkflowRequest? then [Arrived(r)] else GateEvents(r, gated, decision)
  }

  /** The step by which the call began. */
  function Began(steps: seq<Step>, id: nat): Option<Step>
  {
    if steps == [] then None
    else
      var front, last := steps[..|steps| - 1], steps[|steps| - 1];
      if Began(front, id).None? && last.Start? && last.id == id then Some(last) else Began(front, id)
  }

  /** The answer that the call got while it waited for one. */
  function Answered(steps: seq<Step>, id: nat): Option<Decision>
  {
    if steps == [] then None
    else
      var front, last := steps[..|steps| - 1], steps[|steps| - 1];
      if last.Answer? && last.id == id && id in TakeAll(front).calls && TakeAll(front).calls[id].Waiting?
      then last.decision else Answered(front, id)
  }

  /** What the gate holds of a call agrees with the call's own steps. */
  ghost predicate Tracks(g: Gate, id: nat, began: Option<Step>, answer: Option<Decision>)
  {
    match began
    case Some(Start(_, r, config)) =>
      var gated := r.TaskRequest? && RequiresApproval(r.task, config);
      && id in g.calls
      && AloneAtGate(Own(g.log, id), r, gated, answer)
      && (g.calls[id].Waiting? ==> gated && answer == None && g.calls[id].request == r)
      && (g.calls[id].Inside? ==> gated ==> answer.Some? && answer.value.Approved?)
      && (answer.Some? ==> gated)
    case _ => id !in g.calls && Own(g.log, id) == [] && answer == None
  }

  lemma {:induction false} EveryCallHasItsOwnGate(steps: seq<Step>, id: nat)
    ensures Tracks(TakeAll(steps), id, Began(steps, id), Answered(steps, id))
    ensures Began(steps, id).Some? ==> Began(steps, id).value.Start?
  {
    if steps != [] {
      var front, last := steps[..|steps| - 1], steps[|steps| - 1];
      EveryCallHasItsOwnGate(front, id);
      if last.id != id {
        OtherCall(TakeAll(front), last, id);
      } else {
        match last
        case Start(_, r, config) =>
          if Began(front, id).None? {
            StartTracked(TakeAll(front), r, config, id);
          }
        case Answer(_, decision) => AnswerTracked(TakeAll(front), Began(front, id), Answered(front, id), decision, id);
        case Return(_) => OwnAppend(TakeAll(front).log, id, [], id);
      }
    }
  }

  /** A step does nothing but move its own call. */
  ghost predicate Moves(g: Gate, after: Gate, id: nat)
  {
    after == g || exists phase, events :: after == Move(g, id, phase, events)
  }

  lemma TakeMoves(g: Gate, s: Step)
    ensures Moves(g, Take(g, s), s.id)
  {}

  lemma OtherCall(g: Gate, s: Step, id: nat)
    requires s.id != id
    ensures Own(Take(g, s).log, id) == Own(g.log, id)
    ensures id in Take(g, s).calls <==> id in g.calls
    ensures id in g.calls ==> Take(g, s).calls[id] == g.calls[id]
  {
    TakeMoves(g, s);
    MovedOther(g, Take(g, s), s.id, id);
  }

  lemma MovedOther(g: Gate, after: Gate, moved: nat, id: nat)
    requires Moves(g, after, moved) && moved != id
    ensures Own(after.log, id) == Own(g.log, id) && (id in after.calls <==> id in g.calls)
    ensures id in g.calls ==> after.calls[id] == g.calls[id]
  {
    if after != g {
      var phase, events :| after == Move(g, moved, phase, events);
      OwnAppend(g.log, moved, events, id);
    }
  }

  lemma StartTracked(g: Gate, r: Request, config: Config, id: nat)
    requires id !in g.calls && Own(g.log, id) == []
    ensures Tracks(Take(g, Start(id, r, config)), id, Some(Start(id, r, config)), None)
  {
    if r.WorkflowRequest? {
      OwnAppend(g.log, id, [Arrived(r)], id);
    } else if RequiresApproval(r.task, config) {
      OwnAppend(g.log, id, [Checked(r, true), Asked(r)], id);
      assert GateEvents(r, true, None) == [Checked(r, true), Asked(r)];
    } else {
      OwnAppend(g.log, id, [Checked(r, false), Arrived(r)], id);
      assert GateEvents(r, false, None) == [Checked(r, false), Arrived(r)];
    }
  }

  lemma AnswerTracked(g: Gate, began: Option<Step>, answer: Option<Decision>, decision: Option<Decision>, id: nat)
    requires Tracks(g, id, began, answer)
    ensures Tracks(Take(g, Answer(id, decision)), id, began,
                   if id in g.calls && g.calls[id].Waiting? then decision else answer)
  {
    if id in g.calls && g.calls[id].Waiting? {
      var r := g.calls[id].request;
      match decision
      case None => OwnAppend(g.log, id, [], id);
      case Some(Denied(_)) => OwnAppend(g.log, id, [Decided(r, decision.value)], id);
      case Some(Approved(_)) => OwnAppend(g.log, id, [Decided(r, decision.value), Arrived(r)], id);
    }
  }

  /** How far a call has come. */
  function Progress(g: Gate, id: nat): nat
  {
    if id !in g.calls then 0 else match g.calls[id] case Waiting(_) => 1 case Inside => 2 case Over => 3
  }

  /** A call only moves on: an answer ends its waiting, whatever it is, and a return ends the call. */
  lemma CallsMoveOn(g: Gate, s: Step)
    ensures forall id :: Progress(g, id) <= Progress(Take(g, s), id)
    ensures s.Start? ==> Progress(Take(g, s), s.id) >= 1
    ensures s.Answer? && Progress(g, s.id) == 1 ==>
              Progress(Take(g, s), s.id) == if s.decision.Some? && s.decision.value.Approved? then 2 else 3
    ensures s.Return? && Progress(g, s.id) == 2 ==> Progress(Take(g, s), s.id) == 3
  {}

  // ----- arrivals and approvals, one to one -----

  lemma OwnAt(log: seq<Entry>, k: nat)
    requires k < |log|
    ensures Own(log[..k], log[k].id) + [log[k].event] <= Own(log, log[k].id)
  {
    assert log[..k + 1][..k] == log[..k];
    OwnPrefix(log, log[k].id, k + 1);
  }

  /** In a call's own events an arrival comes last, after the check or the approval that let it pass. */
  lemma ArrivalIsLast(own: Log, r: Request, gated: bool, decision: Option<Decision>, front: Log, v: Event)
    requires AloneAtGate(own, r, gated, decision) && front + [v] <= own
    ensures v.Arrived? ==>
              && own == front + [v] && v.request == r
              && (r.TaskRequest? ==>
                    if gated then
                      && decision.Some? && decision.value.Approved?
                      && front[|front| - 1] == Decided(r, decision.value)
                    else front == [Checked(r, false)])
    ensures v.Decided? ==> gated && decision == Some(v.decision)
  {
    assert v == own[|front|];
    if v.Arrived? {
      assert own[..|front|] == front;
    }
  }

  lemma OwnGrows(log: seq<Entry>, k: nat, j: nat)
    requires k < j < |log| && log[k].id == log[j].id
    ensures |Own(log[..k], log[k].id)| + 2 <= |Own(log, log[k].id)|
  {
    OwnAt(log, j);
    OwnAt(log[..j], k);
    assert log[..j][..k] == log[..k] && log[..j][k] == log[k];
  }

  /** Over every interleaving, a task arrives at the inner core after its own call's check that found it
      free, or after its own call's approval of that same request; its call arrives just once, and no
      denied call ever does. */
  lemma ArrivalsAreMatched(steps: seq<Step>, j: nat)
    requires j < |TakeAll(steps).log| && TakeAll(steps).log[j].event.Arrived?
    requires TakeAll(steps).log[j].event.request.TaskRequest?
    ensures var log := TakeAll(steps).log;
            var id, r := log[j].id, log[j].event.request;
            && (|| (exists i :: 0 <= i < j && log[i] == Entry(id, Checked(r, false)))
                || (exists i, who :: 0 <= i < j && log[i] == Entry(id, Decided(r, Approved(who)))))
            && (forall k :: 0 <= k < |log| && log[k].id == id && log[k].event.Arrived? ==> k == j)
            && (forall k :: 0 <= k < |log| && log[k].id == id && log[k].event.Decided? ==>
                  log[k].event.decision.Approved?)
  {
    var log := TakeAll(steps).log;
    var id, r := log[j].id, log[j].event.request;
    EveryCallHasItsOwnGate(steps, id);
    OwnAt(log, j);
    assert Own(log, id) != [];
    var start, answer := Began(steps, id).value, Answered(steps, id);
    var gated := start.request.TaskRequest? && RequiresApproval(start.request.task, start.config);
    ArrivalIsLast(Own(log, id), start.request, gated, answer, Own(log[..j], id), log[j].event);
    forall k | 0 <= k < |log| && log[k].id == id
      ensures log[k].event.Arrived? ==> k == j
      ensures log[k].event.Decided? ==> log[k].event.decision.Approved?
    {
      OwnAt(log, k);
      ArrivalIsLast(Own(log, id), start.request, gated, answer, Own(log[..k], id), log[k].event);
      if k < j {
        OwnGrows(log, k, j);
      } else if j < k {
        OwnGrows(log, j, k);
      }
    }
    LoggedBefore(log, j, if gated then Decided(r, answer.value) else Checked(r, false));
  }

  lemma LoggedBefore(log: seq<Entry>, j: nat, v: Event)
    requires j < |log| && v in Own(log[..j], log[j].id)
    ensures exists i :: 0 <= i < j && log[i] == Entry(log[j].id, v)
  {
    OwnIsLogged(log[..j], log[j].id, v);
    var i :| 0 <= i < |log[..j]| && log[..j][i] == Entry(log[j].id, v);
    assert log[i] == Entry(log[j].id, v);
  }
}
