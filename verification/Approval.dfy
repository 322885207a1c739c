/** The approval gate in front of the controller core, with workflows whose steps come back through
    the same gate. Configuration, approver, task execution and workflow definitions are arbitrary
    functions of the whole log so far, which grows with every request, so a statement about every
    environment is one about every run. */
module Approval {
  import opened Sequences

  datatype Task = Task(kind: string, input: string)

  /** controller.approval of the configuration. */
  datatype Config = Config(mode: string, requireBefore: Option<seq<string>>, requireBeforeGitPush: Option<bool>,
                           requireBeforePullRequest: Option<bool>)

  function Flag(b: Option<bool>): bool { b.Some? && b.value }

  predicate RequiresApproval(task: Task, config: Config)
  {
    if config.mode != "manual" then false
    else if config.requireBefore.Some? then task.kind in config.requireBefore.value
    else if task.kind == "push-changes" then Flag(config.requireBeforeGitPush)
    else if task.kind == "create-pull-request" then Flag(config.requireBeforePullRequest)
    else false
  }

  /** The list that says what the legacy flags say. */
  function LegacyList(config: Config): seq<string>
  {
    (if Flag(config.requireBeforeGitPush) then ["push-changes"] else []) +
    (if Flag(config.requireBeforePullRequest) then ["create-pull-request"] else [])
  }

  /** The kinds that the configuration lists, in the one way or the other. */
  function ListedKinds(config: Config): seq<string>
  {
    if config.requireBefore.Some? then config.requireBefore.value else LegacyList(config)
  }

  /** A list replaces the legacy flags without changing what is gated: exactly the listed kinds, in
      manual mode only, and flags beside a list have no say. */
  lemma LegacyFlagsAreAList(task: Task, config: Config, push: Option<bool>, pull: Option<bool>)
    ensures RequiresApproval(task, config) ==
            RequiresApproval(task, Config(config.mode, Some(ListedKinds(config)), push, pull))
    ensures RequiresApproval(task, config) <==> config.mode == "manual" && task.kind in ListedKinds(config)
  {
    assert "push-changes" != "create-pull-request" by { assert |"push-changes"| != |"create-pull-request"|; }
    var pushes := if Flag(config.requireBeforeGitPush) then ["push-changes"] else [];
    var pulls := if Flag(config.requireBeforePullRequest) then ["create-pull-request"] else [];
    assert LegacyList(config) == pushes + pulls;
    assert task.kind in LegacyList(config) <==> task.kind in pushes || task.kind in pulls;
  }

  datatype Request =
    | TaskRequest(task: Task, repositoryId: Option<string>, correlationId: Option<string>)
    | WorkflowRequest(workflowId: string, input: string, repositoryId: Option<string>, correlationId: Option<string>)

  datatype Decision = Approved(approvedBy: Option<string>) | Denied(reason: Option<string>)

  /** What happens at the gate: the policy is consulted, the approver asked, a decision given, a
      request handed to the inner core. */
  datatype Event =
    | Checked(request: Request, gated: bool)
    | Asked(request: Request)
    | Decided(request: Request, decision: Decision)
    | Arrived(request: Request)

  type Log = seq<Event>

  datatype Stamp = Unstamped | NotRequired | Given(approvedBy: Option<string>) | Refused

  datatype TaskResult = TaskResult(kind: string, success: bool, output: Option<string>, error: Option<string>)

  datatype Result =
    | TaskDone(result: TaskResult, approval: Stamp)
    | WorkflowDone(completed: bool, steps: seq<Result>)
    | Threw

  /** Everything the gate calls. None stands for a call that throws. `steps` gives the definitions of a
      workflow's steps, `buildStep` the task of one from its definition, the workflow's input and the
      results so far. */
  datatype Env = Env(
    config: Log -> Config,
    newId: Log -> string,
    approver: (Log, Request) -> Option<Decision>,
    repository: (Log, Request) -> Option<string>,
    runTask: (Log, Request) -> Option<TaskResult>,
    steps: (Log, string, string) -> Option<seq<string>>,
    buildStep: (string, string, seq<Result>) -> Task)

  function Attach(r: Result, approval: Stamp): Result
  {
    if r.TaskDone? then r.(approval := approval) else r
  }

  function Rejection(task: Task, reason: Option<string>): Result
  {
    var error := if reason.Some? then reason.value else "Request was not approved.";
    TaskDone(TaskResult(task.kind, false, None, Some(error)), Refused)
  }

  /** A request without a correlation id gets a new one. */
  function Normalize(e: Env, log: Log, request: Request): (r: Request)
    ensures r.correlationId.Some? && (request.correlationId.Some? ==> r == request)
    ensures r.TaskRequest? == request.TaskRequest?
  {
    var id := if request.correlationId.Some? then request.correlationId.value else e.newId(log);
    match request
    case TaskRequest(task, repositoryId, _) => TaskRequest(task, repositoryId, Some(id))
    case WorkflowRequest(workflowId, input, repositoryId, _) =>
      WorkflowRequest(workflowId, input, repositoryId, Some(id))
  }

  /** ControllerCore.execute of a task: the inner core. */
  function InnerTask(e: Env, log: Log, r: Request): (Log, Result)
  {
    var log1 := log + [Arrived(r)];
    if e.repository(log1, r).None? then (log1, Threw)
    else
      match e.runTask(log1, r)
      case None => (log1, Threw)
      case Some(result) => (log1, TaskDone(result, Unstamped))
  }

  /** ApprovalEngine.execute of a task. */
  function GateTask(e: Env, log: Log, r: Request): (Log, Result)
    requires r.TaskRequest?
  {
    var gated := RequiresApproval(r.task, e.config(log));
    var log1 := log + [Checked(r, gated)];
    if !gated then
      var (log2, result) := InnerTask(e, log1, r);
      (log2, Attach(result, NotRequired))
    else
      var log2 := log1 + [Asked(r)];
      match e.approver(log2, r)
      case None => (log2, Threw)
      case Some(Denied(reason)) => (log2 + [Decided(r, Denied(reason))], Rejection(r.task, reason))
      case Some(Approved(who)) =>
        var (log3, result) := InnerTask(e, log2 + [Decided(r, Approved(who))], r);
        (log3, Attach(result, Given(who)))
  }

  /** ControllerCore.execute of a workflow: never gated as a whole. */
  function InnerWorkflow(e: Env, log: Log, r: Request): (Log, Result)
    requires r.WorkflowRequest?
    decreases 1, 1, 0
  {
    var log1 := log + [Arrived(r)];
    match e.repository(log1, r)
    case None => (log1, Threw)
    case Some(repository) =>
      match e.steps(log1, r.workflowId, repository)
      case None => (log1, Threw)
      case Some(steps) => RunSteps(e, log1, Context(repository, r.input, r.correlationId), steps, [])
  }

  /** ApprovalEngine.execute. */
  function Execute(e: Env, log: Log, request: Request): (Log, Result)
    decreases if request.WorkflowRequest? then 1 else 0, 2, 0
  {
    var r := Normalize(e, log, request);
    if r.WorkflowRequest? then InnerWorkflow(e, log, r) else GateTask(e, log, r)
  }

  /** What all steps of a workflow share. */
  datatype Context = Context(repository: string, input: string, correlationId: Option<string>)

  function StepRequest(e: Env, context: Context, step: string, done: seq<Result>): Request
  {
    TaskRequest(e.buildStep(step, context.input, done), Some(context.repository), context.correlationId)
  }

  /** WorkflowOrchestrator.run: every step goes through the gate, and the first that fails ends the run. */
  function RunSteps(e: Env, log: Log, context: Context, steps: seq<string>,
                    done: seq<Result>): (Log, Result)
    decreases 1, 0, |steps|
  {
    if steps == [] then (log, WorkflowDone(true, done))
    else
      var (log1, result) := Execute(e, log, StepRequest(e, context, steps[0], done));
      if !result.TaskDone? then (log1, Threw)
      else if !result.result.success then (log1, WorkflowDone(false, done + [result]))
      else RunSteps(e, log1, context, steps[1..], done + [result])
  }

  // ----- safety of every log -----

  /** The request at `i` got in because the policy let it through or because this very request was
      approved just before. */
  ghost predicate Admitted(log: Log, i: nat)
    requires i < |log| && log[i].Arrived?
  {
    var r := log[i].request;
    || r.WorkflowRequest?
    || (i >= 1 && log[i - 1] == Checked(r, false))
    || (i >= 3 && log[i - 3] == Checked(r, true) && log[i - 2] == Asked(r)
        && log[i - 1].Decided? && log[i - 1].request == r && log[i - 1].decision.Approved?)
  }

  /** Every event is in place: checks follow the policy, prompts follow a gated check, decisions follow
      their prompt, arrivals are admitted. */
  ghost predicate InPlace(e: Env, log: Log, i: nat)
    requires i < |log|
  {
    match log[i]
    case Checked(r, gated) => r.TaskRequest? && gated == RequiresApproval(r.task, e.config(log[..i]))
    case Asked(r) => i >= 1 && log[i - 1] == Checked(r, true)
    case Decided(r, decision) => i >= 1 && log[i - 1] == Asked(r) && e.approver(log[..i], r) == Some(decision)
    case Arrived(r) => Admitted(log, i)
  }

  ghost predicate SafeLog(e: Env, log: Log)
  {
    forall i :: 0 <= i < |log| ==> InPlace(e, log, i)
  }

  lemma SafeAppend(e: Env, log: Log, event: Event)
    requires SafeLog(e, log) && InPlace(e, log + [event], |log|)
    ensures SafeLog(e, log + [event])
  {
    var more := log + [event];
    forall i | 0 <= i < |log| ensures InPlace(e, more, i)
    {
      assert more[..i] == log[..i];
      assert InPlace(e, log, i);
    }
  }

  // ----- one-to-one matching -----

  /** The requests of approved decisions, in order. */
  function Approvals(log: Log): seq<Request>
  {
    if log == [] then []
    else
      var front, last := log[..|log| - 1], log[|log| - 1];
      if last.Decided? && last.decision.Approved? then Approvals(front) + [last.request] else Approvals(front)
  }

  /** What the policy last said. */
  function LastCheck(log: Log): Option<Event>
  {
    if log == [] then None
    else if log[|log| - 1].Checked? then Some(log[|log| - 1])
    else LastCheck(log[..|log| - 1])
  }

  /** The task requests that the policy gates and that reached the inner core, in order. */
  function GatedArrivals(log: Log): seq<Request>
  {
    if log == [] then []
    else
      var front, last := log[..|log| - 1], log[|log| - 1];
      if last.Arrived? && last.request.TaskRequest? && LastCheck(front) == Some(Checked(last.request, true))
      then GatedArrivals(front) + [last.request]
      else GatedArrivals(front)
  }

  lemma Unfold(log: Log, event: Event)
    ensures Approvals(log + [event]) ==
            if event.Decided? && event.decision.Approved? then Approvals(log) + [event.request] else Approvals(log)
    ensures LastCheck(log + [event]) == if event.Checked? then Some(event) else LastCheck(log)
    ensures GatedArrivals(log + [event]) ==
            if event.Arrived? && event.request.TaskRequest? && LastCheck(log) == Some(Checked(event.request, true))
            then GatedArrivals(log) + [event.request] else GatedArrivals(log)
  {
    assert (log + [event])[..|log|] == log;
  }

  /** Both properties of a log that is between requests. */
  ghost predicate Settled(e: Env, log: Log)
  {
    SafeLog(e, log) && Approvals(log) == GatedArrivals(log)
  }

  lemma GateSettled(e: Env, log: Log, r: Request)
    requires Settled(e, log) && r.TaskRequest?
    ensures Settled(e, GateTask(e, log, r).0)
  {
    var gated, decision := RequiresApproval(r.task, e.config(log)), AnswerTo(e, log, r);
    GateTaskEvents(e, log, r);
    EventsSettled(e, log, r, gated, decision);
  }

  lemma EventsSettled(e: Env, log: Log, r: Request, gated: bool, decision: Option<Decision>)
    requires Settled(e, log) && r.TaskRequest? && gated == RequiresApproval(r.task, e.config(log))
    requires decision == e.approver(log + [Checked(r, gated)] + [Asked(r)], r)
    ensures Settled(e, log + GateEvents(r, gated, decision))
  {
    var log1 := log + [Checked(r, gated)];
    GateEventsInTurn(log, r, gated, decision);
    CheckSettled(e, log, r, gated);
    CheckedSettled(e, log1, r, gated);
    if gated && decision.Some? {
      DecisionSettled(e, log1 + [Asked(r)], r, decision.value);
    }
  }

  lemma CheckSettled(e: Env, log: Log, r: Request, gated: bool)
    requires Settled(e, log) && r.TaskRequest? && gated == RequiresApproval(r.task, e.config(log))
    ensures Settled(e, log + [Checked(r, gated)])
  {
    assert (log + [Checked(r, gated)])[..|log|] == log;
    SafeAppend(e, log, Checked(r, gated));
    Unfold(log, Checked(r, gated));
  }

  lemma CheckedSettled(e: Env, log: Log, r: Request, gated: bool)
    requires Settled(e, log) && r.TaskRequest? && log != [] && log[|log| - 1] == Checked(r, gated)
    ensures !gated ==> Settled(e, log + [Arrived(r)])
    ensures gated ==> Settled(e, log + [Asked(r)]) && LastCheck(log + [Asked(r)]) == Some(Checked(r, true))
  {
    if gated {
      SafeAppend(e, log, Asked(r));
      Unfold(log, Asked(r));
    } else {
      SafeAppend(e, log, Arrived(r));
      Unfold(log, Arrived(r));
    }
  }

  lemma DecisionSettled(e: Env, log: Log, r: Request, decision: Decision)
    requires Settled(e, log) && r.TaskRequest? && |log| >= 2 && LastCheck(log) == Some(Checked(r, true))
    requires log[|log| - 2] == Checked(r, true) && log[|log| - 1] == Asked(r) && e.approver(log, r) == Some(decision)
    ensures decision.Denied? ==> Settled(e, log + [Decided(r, decision)])
    ensures decision.Approved? ==> Settled(e, log + [Decided(r, decision)] + [Arrived(r)])
  {
    var log1 := log + [Decided(r, decision)];
    assert log1[..|log|] == log;
    SafeAppend(e, log, Decided(r, decision));
    Unfold(log, Decided(r, decision));
    if decision.Approved? {
      SafeAppend(e, log1, Arrived(r));
      Unfold(log1, Arrived(r));
    }
  }

  lemma {:induction false} StepsSettled(e: Env, log: Log, context: Context,
                                        steps: seq<string>, done: seq<Result>)
    requires Settled(e, log)
    ensures Settled(e, RunSteps(e, log, context, steps, done).0)
    decreases |steps|
  {
    if steps != [] {
      var r := StepRequest(e, context, steps[0], done);
      GateSettled(e, log, Normalize(e, log, r));
      var (log1, result) := Execute(e, log, r);
      if result.TaskDone? && result.result.success {
        StepsSettled(e, log1, context, steps[1..], done + [result]);
      }
    }
  }

  lemma WorkflowSettled(e: Env, log: Log, r: Request)
    requires Settled(e, log) && r.WorkflowRequest?
    ensures Settled(e, InnerWorkflow(e, log, r).0)
  {
    var log1 := log + [Arrived(r)];
    SafeAppend(e, log, Arrived(r));
    Unfold(log, Arrived(r));
    var repository := e.repository(log1, r);
    if repository.Some? && e.steps(log1, r.workflowId, repository.value).Some? {
      StepsSettled(e, log1, Context(repository.value, r.input, r.correlationId),
                   e.steps(log1, r.workflowId, repository.value).value, []);
    }
  }

  /** Over every run of any request: each event is in place, and the gated requests that reached the
      inner core are, one for one and in order, the requests that were approved. */
  lemma EveryRunIsSafe(e: Env, log: Log, request: Request)
    requires Settled(e, log)
    ensures Settled(e, Execute(e, log, request).0)
  {
    var r := Normalize(e, log, request);
    if r.WorkflowRequest? {
      WorkflowSettled(e, log, r);
    } else {
      GateSettled(e, log, r);
    }
  }

  /** Requests one after another, from an empty log. */
  function ExecuteAll(e: Env, requests: seq<Request>): Log
  {
    if requests == [] then []
    else Execute(e, ExecuteAll(e, requests[..|requests| - 1]), requests[|requests| - 1]).0
  }

  lemma {:induction false} EverySequenceIsSafe(e: Env, requests: seq<Request>)
    ensures Settled(e, ExecuteAll(e, requests))
  {
    if requests != [] {
      EverySequenceIsSafe(e, requests[..|requests| - 1]);
      EveryRunIsSafe(e, ExecuteAll(e, requests[..|requests| - 1]), requests[|requests| - 1]);
    }
  }

  /** The events by which the request got past the gate to position `j`, the first of them at `k`. */
  ghost predicate PassedGate(log: Log, k: nat, j: nat, r: Request)
    requires k < j < |log|
  {
    || (k == j - 1 && log[k] == Checked(r, false))
    || (k == j - 3 && log[k] == Checked(r, true) && log[k + 1] == Asked(r)
        && log[k + 2].Decided? && log[k + 2].request == r && log[k + 2].decision.Approved?)
  }

  /** A task request that was denied arrives at no later time without passing the gate anew after the
      denial: checked again, and then ungated or prompted and approved again. */
  lemma DeniedNeverArrives(e: Env, log: Log, i: nat, j: nat)
    requires SafeLog(e, log) && i < j < |log|
    requires log[i].Decided? && log[i].decision.Denied? && log[i].request.TaskRequest?
    requires log[j] == Arrived(log[i].request)
    ensures exists k :: i < k < j && PassedGate(log, k, j, log[i].request)
  {
    var r := log[i].request;
    assert InPlace(e, log, j);
    if log[j - 1] == Checked(r, false) {
      assert PassedGate(log, j - 1, j, r);
    } else {
      assert log[j - 3] == Checked(r, true) && log[j - 2] == Asked(r);
      assert PassedGate(log, j - 3, j, r);
    }
  }

  /** So it is over any sequence of requests. */
  lemma DenialStands(e: Env, requests: seq<Request>, i: nat, j: nat)
    requires i < j < |ExecuteAll(e, requests)|
    requires ExecuteAll(e, requests)[i].Decided? && ExecuteAll(e, requests)[i].decision.Denied?
    requires ExecuteAll(e, requests)[i].request.TaskRequest?
    requires ExecuteAll(e, requests)[j] == Arrived(ExecuteAll(e, requests)[i].request)
    ensures var log := ExecuteAll(e, requests); exists k :: i < k < j && PassedGate(log, k, j, log[i].request)
  {
    EverySequenceIsSafe(e, requests);
    DeniedNeverArrives(e, ExecuteAll(e, requests), i, j);
  }

  // ----- what a denial costs a workflow -----

  /** The requests of the events of some kind, in order. */
  function RequestsOf(kind: Event -> bool, events: Log): seq<Request>
  {
    if events == [] then []
    else if kind(events[0]) then [events[0].request] + RequestsOf(kind, events[1..])
    else RequestsOf(kind, events[1..])
  }

  function Checks(): Event -> bool { (v: Event) => v.Checked? }

  function Prompts(): Event -> bool { (v: Event) => v.Asked? }

  function Arrivals(): Event -> bool { (v: Event) => v.Arrived? }

  lemma RequestsOfCons(kind: Event -> bool, first: Event, rest: Log)
    ensures RequestsOf(kind, [first] + rest) ==
            (if kind(first) then [first.request] else []) + RequestsOf(kind, rest)
  {
    assert ([first] + rest)[1..] == rest;
  }

  lemma RequestsOfOne(kind: Event -> bool, event: Event)
    ensures RequestsOf(kind, [event]) == if kind(event) then [event.request] else []
  {
    RequestsOfCons(kind, event, []);
    assert [event] + [] == [event];
  }

  lemma {:induction false} RequestsOfAppend(kind: Event -> bool, a: Log, b: Log)
    ensures RequestsOf(kind, a + b) == RequestsOf(kind, a) + RequestsOf(kind, b)
  {
    if a == [] {
      assert a + b == b;
    } else {
      assert (a + b)[1..] == a[1..] + b;
      RequestsOfAppend(kind, a[1..], b);
    }
  }

  /** The events that one task adds to the log; with no decision, the approver threw. */
  function GateEvents(r: Request, gated: bool, decision: Option<Decision>): Log
  {
    [Checked(r, gated)] +
    if !gated then [Arrived(r)]
    else if decision.None? then [Asked(r)]
    else [Asked(r)] + ([Decided(r, decision.value)] + if decision.value.Approved? then [Arrived(r)] else [])
  }

  /** The events of a gate, one after the other. */
  lemma GateEventsInTurn(log: Log, r: Request, gated: bool, decision: Option<Decision>)
    ensures var checked := log + [Checked(r, gated)];
            log + GateEvents(r, gated, decision) ==
              if !gated then checked + [Arrived(r)]
              else if decision.None? then checked + [Asked(r)]
              else
                var decided := checked + [Asked(r)] + [Decided(r, decision.value)];
                if decision.value.Approved? then decided + [Arrived(r)] else decided
  {}

  lemma RequestsOfGate(kind: Event -> bool, r: Request, gated: bool, decision: Option<Decision>)
    ensures RequestsOf(kind, GateEvents(r, gated, decision)) ==
            (if kind(Checked(r, gated)) then [r] else []) +
            if !gated then (if kind(Arrived(r)) then [r] else [])
            else if decision.None? then (if kind(Asked(r)) then [r] else [])
            else
              (if kind(Asked(r)) then [r] else []) + (if kind(Decided(r, decision.value)) then [r] else [])
              + (if decision.value.Approved? && kind(Arrived(r)) then [r] else [])
  {
    if !gated {
      RequestsOfOne(kind, Arrived(r));
      RequestsOfCons(kind, Checked(r, gated), [Arrived(r)]);
    } else if decision.None? {
      RequestsOfOne(kind, Asked(r));
      RequestsOfCons(kind, Checked(r, gated), [Asked(r)]);
    } else {
      RequestsOfPrompt(kind, r, decision.value);
      var tail := if decision.value.Approved? then [Arrived(r)] else [];
      RequestsOfCons(kind, Checked(r, gated), [Asked(r)] + ([Decided(r, decision.value)] + tail));
    }
  }

  lemma RequestsOfPrompt(kind: Event -> bool, r: Request, decision: Decision)
    ensures var tail := if decision.Approved? then [Arrived(r)] else [];
            RequestsOf(kind, [Asked(r)] + ([Decided(r, decision)] + tail)) ==
            (if kind(Asked(r)) then [r] else []) + (if kind(Decided(r, decision)) then [r] else [])
            + (if decision.Approved? && kind(Arrived(r)) then [r] else [])
  {
    var tail := if decision.Approved? then [Arrived(r)] else [];
    RequestsOfOne(kind, Arrived(r));
    RequestsOfCons(kind, Decided(r, decision), tail);
    RequestsOfCons(kind, Asked(r), [Decided(r, decision)] + tail);
  }

  predicate WasDenied(r: Result) { r.TaskDone? && r.approval == Refused }

  predicate WasGated(r: Result) { r.TaskDone? && (r.approval.Given? || r.approval.Refused?) }

  /** One task at the gate: checked once and prompted if gated; once its result comes back, run unless
      denied, and a denied task's result is a failure with a reason. */
  ghost predicate GateOutcome(e: Env, log: Log, r: Request, after: Log, result: Result)
    requires r.TaskRequest?
  {
    var gated := RequiresApproval(r.task, e.config(log));
    && log <= after && !result.WorkflowDone?
    && RequestsOf(Checks(), after[|log|..]) == [r]
    && RequestsOf(Prompts(), after[|log|..]) == (if gated then [r] else [])
    && RequestsOf(Arrivals(), after[|log|..]) <= [r]
    && (result.TaskDone? ==>
          && RequestsOf(Arrivals(), after[|log|..]) == (if WasDenied(result) then [] else [r])
          && (gated <==> WasGated(result))
          && (WasDenied(result) ==> !result.result.success && result.result.error.Some?))
  }

  function AnswerTo(e: Env, log: Log, r: Request): Option<Decision>
    requires r.TaskRequest?
  {
    e.approver(log + [Checked(r, RequiresApproval(r.task, e.config(log)))] + [Asked(r)], r)
  }

  lemma GateTaskEvents(e: Env, log: Log, r: Request)
    requires r.TaskRequest?
    ensures var (after, result) := GateTask(e, log, r);
            var gated, decision := RequiresApproval(r.task, e.config(log)), AnswerTo(e, log, r);
            && after == log + GateEvents(r, gated, decision) && !result.WorkflowDone?
            && (result.TaskDone? ==>
                  && (gated ==> decision.Some?)
                  && (gated <==> WasGated(result))
                  && (WasDenied(result) <==> gated && decision.value.Denied?)
                  && (WasDenied(result) ==> !result.result.success && result.result.error.Some?))
  {
    GateEventsInTurn(log, r, RequiresApproval(r.task, e.config(log)), AnswerTo(e, log, r));
    GateTaskResult(e, log, r);
  }

  lemma GateTaskResult(e: Env, log: Log, r: Request)
    requires r.TaskRequest?
    ensures var result := GateTask(e, log, r).1;
            var gated, decision := RequiresApproval(r.task, e.config(log)), AnswerTo(e, log, r);
            && !result.WorkflowDone?
            && (result.TaskDone? ==>
                  && (gated ==> decision.Some?)
                  && (gated <==> WasGated(result))
                  && (WasDenied(result) <==> gated && decision.value.Denied?)
                  && (WasDenied(result) ==> !result.result.success && result.result.error.Some?))
  {}

  lemma RequestsAtGate(r: Request, gated: bool, decision: Option<Decision>)
    ensures var events := GateEvents(r, gated, decision);
            && RequestsOf(Checks(), events) == [r]
            && RequestsOf(Prompts(), events) == (if gated then [r] else [])
            && RequestsOf(Arrivals(), events) ==
               (if gated && (decision.None? || decision.value.Denied?) then [] else [r])
  {
    RequestsOfGate(Checks(), r, gated, decision);
    RequestsOfGate(Prompts(), r, gated, decision);
    RequestsOfGate(Arrivals(), r, gated, decision);
  }

  lemma GateTaskOutcome(e: Env, log: Log, r: Request)
    requires r.TaskRequest?
    ensures var (after, result) := GateTask(e, log, r); GateOutcome(e, log, r, after, result)
  {
    var gated, decision := RequiresApproval(r.task, e.config(log)), AnswerTo(e, log, r);
    var (after, result) := GateTask(e, log, r);
    GateTaskEvents(e, log, r);
    assert after[|log|..] == GateEvents(r, gated, decision);
    RequestsAtGate(r, gated, decision);
  }

  // ----- whose result it is -----

  /** The last event, and the one before it. */
  predicate Ends(log: Log, last: Event) { log != [] && log[|log| - 1] == last }

  predicate EndsWith(log: Log, before: Event, last: Event)
  {
    |log| >= 2 && log[|log| - 2] == before && log[|log| - 1] == last
  }

  /** What comes of handing the request on at this log: the inner core's own answer, or its throw. */
  predicate CoreAnswer(e: Env, log: Log, r: Request, result: Result, approval: Stamp)
  {
    if e.repository(log, r) == None || e.runTask(log, r) == None then result == Threw
    else result == TaskDone(e.runTask(log, r).value, approval)
  }

  /** The result of a task by what the log says of it in the end: that of the inner core at the log of the
      arrival, stamped as ungated or with the approver; a failure with the reason of the denial; or a throw. */
  ghost predicate Told(e: Env, r: Request, after: Log, result: Result)
    requires r.TaskRequest?
  {
    || (EndsWith(after, Checked(r, false), Arrived(r)) && CoreAnswer(e, after, r, result, NotRequired))
    || (exists who :: EndsWith(after, Decided(r, Approved(who)), Arrived(r))
                      && CoreAnswer(e, after, r, result, Given(who)))
    || (exists reason :: Ends(after, Decided(r, Denied(reason)))
                         && result == TaskDone(TaskResult(r.task.kind, false, None, Some(
                              match reason case Some(text) => text case None => "Request was not approved.")), Refused))
    || (Ends(after, Asked(r)) && e.approver(after, r) == None && result == Threw)
  }

  /** A task gets the result that the log tells of, under its own correlation id or a new one. */
  lemma TaskGetsItsResult(e: Env, log: Log, task: Task, repositoryId: Option<string>, correlationId: Option<string>)
    ensures var (after, result) := Execute(e, log, TaskRequest(task, repositoryId, correlationId));
            var id := match correlationId case Some(id) => id case None => e.newId(log);
            log <= after && Told(e, TaskRequest(task, repositoryId, Some(id)), after, result)
  {
    var id := match correlationId case Some(id) => id case None => e.newId(log);
    GateTaskTold(e, log, TaskRequest(task, repositoryId, Some(id)));
  }

  lemma GateTaskTold(e: Env, log: Log, r: Request)
    requires r.TaskRequest?
    ensures log <= GateTask(e, log, r).0 && Told(e, r, GateTask(e, log, r).0, GateTask(e, log, r).1)
  {
    var gated, decision := RequiresApproval(r.task, e.config(log)), AnswerTo(e, log, r);
    var (after, result) := GateTask(e, log, r);
    if !gated {
      assert EndsWith(after, Checked(r, false), Arrived(r));
    } else if decision.None? {
      assert Ends(after, Asked(r));
    } else if decision.value.Denied? {
      assert Ends(after, Decided(r, Denied(decision.value.reason)));
    } else {
      assert EndsWith(after, Decided(r, Approved(decision.value.approvedBy)), Arrived(r));
    }
  }

  // ----- workflows -----

  /** The requests of the first steps, each built from the results of those before it. */
  function StepRequests(e: Env, context: Context, steps: seq<string>,
                        done: seq<Result>, results: seq<Result>): (requests: seq<Request>)
    requires |results| <= |steps|
    ensures |requests| == |results|
  {
    if results == [] then []
    else
      [StepRequest(e, context, steps[0], done)]
      + StepRequests(e, context, steps[1..], done + [results[0]], results[1..])
  }

  /** Those of the requests whose results say that they were gated. */
  function Gated(requests: seq<Request>, results: seq<Result>): seq<Request>
    requires |requests| == |results|
  {
    if results == [] then []
    else (if WasGated(results[0]) then [requests[0]] else []) + Gated(requests[1..], results[1..])
  }

  function LastOf(results: seq<Result>): Result
    requires results != []
  {
    results[|results| - 1]
  }

  /** What a step sequence that returned did: it checked exactly the steps it reports, prompted for the
      gated ones among them, ran all but a denied last one, and reports only successes before the last. */
  ghost predicate StepsRan(requests: seq<Request>, events: Log, steps: nat, ran: seq<Result>, completed: bool)
    requires |requests| == |ran| <= steps
  {
    var denied := ran != [] && WasDenied(LastOf(ran));
    && RequestsOf(Checks(), events) == requests
    && RequestsOf(Prompts(), events) == Gated(requests, ran)
    && RequestsOf(Arrivals(), events) == (if denied then requests[..|ran| - 1] else requests)
    && (forall i :: 0 <= i < |ran| ==> ran[i].TaskDone? && (i < |ran| - 1 ==> ran[i].result.success))
    && (completed <==> |ran| == steps && (ran != [] ==> LastOf(ran).result.success))
    && (!completed ==> ran != [] && !LastOf(ran).result.success)
  }

  /** What a step sequence that threw did: the steps before the throwing one succeeded, and that one was
      checked as well, perhaps prompted for, perhaps handed on. */
  ghost predicate StepsThrew(requests: seq<Request>, next: Request, events: Log, ran: seq<Result>)
    requires |requests| == |ran|
  {
    && RequestsOf(Checks(), events) == requests + [next]
    && Gated(requests, ran) <= RequestsOf(Prompts(), events) <= Gated(requests, ran) + [next]
    && requests <= RequestsOf(Arrivals(), events) <= requests + [next]
    && (forall i :: 0 <= i < |ran| ==> ran[i].TaskDone? && ran[i].result.success)
  }

  /** Either, by the end of the sequence. */
  ghost predicate RanTo(requests: seq<Request>, next: Option<Request>, events: Log, steps: nat, done: seq<Result>,
                        end: Result, ran: seq<Result>)
    requires |requests| == |ran| <= steps
  {
    match end
    case TaskDone(_, _) => false
    case WorkflowDone(completed, results) =>
      results == done + ran && StepsRan(requests, events, steps, ran, completed)
    case Threw => next.Some? && StepsThrew(requests, next.value, events, ran)
  }

  /** The step sequence did that, for the results `ran` of its steps. */
  ghost predicate PrefixRan(e: Env, log: Log, context: Context, steps: seq<string>, done: seq<Result>,
                            end: (Log, Result), ran: seq<Result>)
  {
    && log <= end.0 && |ran| <= |steps|
    && var next := if |ran| < |steps| then Some(StepRequest(e, context, steps[|ran|], done + ran)) else None;
       RanTo(StepRequests(e, context, steps, done, ran), next, end.0[|log|..], |steps|, done, end.1, ran)
  }

  /** One more step in front. */
  lemma StepsRanMore(r: Request, requests: seq<Request>, first: Log, rest: Log, steps: nat, result: Result,
                     ran: seq<Result>, completed: bool)
    requires result.TaskDone? && result.result.success && !WasDenied(result) && |requests| == |ran| <= steps
    requires RequestsOf(Checks(), first) == RequestsOf(Arrivals(), first) == [r]
    requires RequestsOf(Prompts(), first) == (if WasGated(result) then [r] else [])
    requires StepsRan(requests, rest, steps, ran, completed)
    ensures StepsRan([r] + requests, first + rest, steps + 1, [result] + ran, completed)
  {
    RequestsOfAppend(Checks(), first, rest);
    RequestsOfAppend(Prompts(), first, rest);
    RequestsOfAppend(Arrivals(), first, rest);
    assert ([result] + ran)[1..] == ran && ([r] + requests)[1..] == requests;
    assert ran != [] ==>
             LastOf([result] + ran) == LastOf(ran) && ([r] + requests)[..|ran|] == [r] + requests[..|ran| - 1];
  }

  lemma StepsThrewMore(r: Request, requests: seq<Request>, next: Request, first: Log, rest: Log, result: Result,
                       ran: seq<Result>)
    requires result.TaskDone? && result.result.success && |requests| == |ran|
    requires RequestsOf(Checks(), first) == RequestsOf(Arrivals(), first) == [r]
    requires RequestsOf(Prompts(), first) == (if WasGated(result) then [r] else [])
    requires StepsThrew(requests, next, rest, ran)
    ensures StepsThrew([r] + requests, next, first + rest, [result] + ran)
  {
    RequestsOfAppend(Checks(), first, rest);
    RequestsOfAppend(Prompts(), first, rest);
    RequestsOfAppend(Arrivals(), first, rest);
    assert ([result] + ran)[1..] == ran && ([r] + requests)[1..] == requests;
  }

  lemma StepRequestsMore(e: Env, context: Context, steps: seq<string>,
                         done: seq<Result>, result: Result, rest: seq<Result>)
    requires |rest| < |steps|
    ensures StepRequests(e, context, steps, done, [result] + rest) ==
            [StepRequest(e, context, steps[0], done)]
            + StepRequests(e, context, steps[1..], done + [result], rest)
  {
    assert ([result] + rest)[1..] == rest;
  }

  lemma RanToMore(r: Request, requests: seq<Request>, next: Option<Request>, first: Log, rest: Log, steps: nat,
                  done: seq<Result>, result: Result, end: Result, ran: seq<Result>)
    requires result.TaskDone? && result.result.success && !WasDenied(result) && |requests| == |ran| <= steps
    requires RequestsOf(Checks(), first) == RequestsOf(Arrivals(), first) == [r]
    requires RequestsOf(Prompts(), first) == (if WasGated(result) then [r] else [])
    requires RanTo(requests, next, rest, steps, done + [result], end, ran)
    ensures RanTo([r] + requests, next, first + rest, steps + 1, done, end, [result] + ran)
  {
    assert done + ([result] + ran) == (done + [result]) + ran;
    match end
    case TaskDone(_, _) =>
    case WorkflowDone(completed, _) => StepsRanMore(r, requests, first, rest, steps, result, ran, completed);
    case Threw => StepsThrewMore(r, requests, next.value, first, rest, result, ran);
  }

  lemma PrefixRanMore(e: Env, log: Log, context: Context, steps: seq<string>,
                      done: seq<Result>, mid: Log, result: Result, end: (Log, Result), rest: seq<Result>)
    requires steps != [] && context.correlationId.Some? && result.TaskDone? && result.result.success
    requires GateOutcome(e, log, StepRequest(e, context, steps[0], done), mid, result)
    requires PrefixRan(e, mid, context, steps[1..], done + [result], end, rest)
    ensures PrefixRan(e, log, context, steps, done, end, [result] + rest)
  {
    var r := StepRequest(e, context, steps[0], done);
    var requests := StepRequests(e, context, steps[1..], done + [result], rest);
    StepRequestsMore(e, context, steps, done, result, rest);
    NextMore(e, context, steps, done, result, rest);
    assert end.0[|log|..] == mid[|log|..] + end.0[|mid|..];
    var next := if |rest| + 1 < |steps| then Some(StepRequest(e, context, steps[|rest| + 1], done + ([result] + rest)))
                else None;
    RanToMore(r, requests, next, mid[|log|..], end.0[|mid|..], |steps| - 1, done, result, end.1, rest);
  }

  lemma NextMore(e: Env, context: Context, steps: seq<string>, done: seq<Result>, result: Result, rest: seq<Result>)
    ensures |rest| + 1 < |steps| ==>
              StepRequest(e, context, steps[1..][|rest|], (done + [result]) + rest) ==
              StepRequest(e, context, steps[|rest| + 1], done + ([result] + rest))
  {
    assert (done + [result]) + rest == done + ([result] + rest);
  }

  /** The first step, when it ends the sequence. */
  lemma PrefixRanLast(e: Env, log: Log, context: Context, steps: seq<string>,
                      done: seq<Result>, after: Log, result: Result)
    requires steps != [] && !(result.TaskDone? && result.result.success)
    requires GateOutcome(e, log, StepRequest(e, context, steps[0], done), after, result)
    ensures result.TaskDone? ==>
              PrefixRan(e, log, context, steps, done,
                        (after, WorkflowDone(false, done + [result])), [result])
    ensures result.Threw? ==> PrefixRan(e, log, context, steps, done, (after, Threw), [])
  {
    var r := StepRequest(e, context, steps[0], done);
    if result.TaskDone? {
      assert StepRequests(e, context, steps, done, [result]) == [r];
      assert [result][1..] == [] && [r][1..] == [];
    } else {
      assert done + [] == done;
    }
  }

  /** A step sequence stops at the first result that is no success; after a denial the tasks that ran
      are exactly the steps before it, and no later step is checked, prompted or run. */
  lemma {:induction false} StepsAreAPrefix(e: Env, log: Log, context: Context,
                                           steps: seq<string>, done: seq<Result>)
    returns (ran: seq<Result>)
    requires context.correlationId.Some?
    ensures PrefixRan(e, log, context, steps, done,
                      RunSteps(e, log, context, steps, done), ran)
    decreases |steps|
  {
    if steps == [] {
      ran := [];
      assert log[|log|..] == [] && done + [] == done;
    } else {
      var r := StepRequest(e, context, steps[0], done);
      var (mid, result) := Execute(e, log, r);
      GateTaskOutcome(e, log, r);
      if !result.TaskDone? {
        ran := [];
        PrefixRanLast(e, log, context, steps, done, mid, result);
      } else if !result.result.success {
        ran := [result];
        PrefixRanLast(e, log, context, steps, done, mid, result);
      } else {
        var rest := StepsAreAPrefix(e, mid, context, steps[1..], done + [result]);
        ran := [result] + rest;
        PrefixRanMore(e, log, context, steps, done, mid, result,
                      RunSteps(e, mid, context, steps[1..], done + [result]), rest);
      }
    }
  }

  // ----- what comes of a workflow -----

  /** The results `ran` of a step sequence are what the log tells of its tasks, one after the other, each built
      from the results before it. The sequence ends with the first that is no success, or with a throw, or when
      all steps have succeeded. */
  ghost predicate StepsTold(e: Env, log: Log, context: Context, steps: seq<string>, done: seq<Result>,
                            ran: seq<Result>, end: (Log, Result))
    decreases |ran|
  {
    if steps == [] then ran == [] && end == (log, WorkflowDone(true, done))
    else
      var r := TaskRequest(e.buildStep(steps[0], context.input, done), Some(context.repository), context.correlationId);
      if ran == [] then end.1 == Threw && log <= end.0 && Told(e, r, end.0, Threw)
      else exists mid :: log <= mid && Told(e, r, mid, ran[0]) && GoesOn(e, mid, context, steps, done, ran, end)
  }

  ghost predicate GoesOn(e: Env, mid: Log, context: Context, steps: seq<string>, done: seq<Result>,
                         ran: seq<Result>, end: (Log, Result))
    requires steps != [] && ran != []
    decreases |ran|, 0
  {
    && ran[0].TaskDone?
    && if ran[0].result.success then StepsTold(e, mid, context, steps[1..], done + [ran[0]], ran[1..], end)
       else ran[1..] == [] && end == (mid, WorkflowDone(false, done + [ran[0]]))
  }

  lemma {:induction false} StepsGetTheirResults(e: Env, log: Log, context: Context, steps: seq<string>,
                                                done: seq<Result>)
    returns (ran: seq<Result>)
    requires context.correlationId.Some?
    ensures StepsTold(e, log, context, steps, done, ran, RunSteps(e, log, context, steps, done))
    decreases |steps|
  {
    ran := [];
    if steps != [] {
      var task := e.buildStep(steps[0], context.input, done);
      var (mid, result) := Execute(e, log, StepRequest(e, context, steps[0], done));
      TaskGetsItsResult(e, log, task, Some(context.repository), context.correlationId);
      if result.TaskDone? {
        var rest := [];
        if result.result.success {
          rest := StepsGetTheirResults(e, mid, context, steps[1..], done + [result]);
        }
        ran := [result] + rest;
        assert ran[1..] == rest;
        assert GoesOn(e, mid, context, steps, done, ran, RunSteps(e, log, context, steps, done));
      }
    }
  }

  /** A workflow that reaches its steps ends as they tell, in its repository, with its input and under its own
      correlation id or a new one; one whose repository or definition is missing throws. */
  lemma WorkflowGetsItsResult(e: Env, log: Log, workflowId: string, input: string, repositoryId: Option<string>,
                              correlationId: Option<string>)
    returns (ran: seq<Result>)
    ensures var end := Execute(e, log, WorkflowRequest(workflowId, input, repositoryId, correlationId));
            var id := match correlationId case Some(id) => id case None => e.newId(log);
            var r := WorkflowRequest(workflowId, input, repositoryId, Some(id));
            var arrived := log + [Arrived(r)];
            match e.repository(arrived, r)
            case None => end == (arrived, Threw)
            case Some(repository) =>
              match e.steps(arrived, workflowId, repository)
              case None => end == (arrived, Threw)
              case Some(steps) => StepsTold(e, arrived, Context(repository, input, Some(id)), steps, [], ran, end)
  {
    var id := match correlationId case Some(id) => id case None => e.newId(log);
    var r := WorkflowRequest(workflowId, input, repositoryId, Some(id));
    var arrived := log + [Arrived(r)];
    ran := [];
    if e.repository(arrived, r).Some? {
      var repository := e.repository(arrived, r).value;
      if e.steps(arrived, workflowId, repository).Some? {
        ran := StepsGetTheirResults(e, arrived, Context(repository, input, Some(id)),
                                    e.steps(arrived, workflowId, repository).value, []);
      }
    }
  }
}
