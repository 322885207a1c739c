/** AttentionDispatcher: events grouped by repository, each group put to the runtime policy and, if
    allowed, handed to every registered transport. */
module Attention {
  import opened Sequences

  datatype AttentionEvent = AttentionEvent(repositoryId: string, body: string)

  type Batch = seq<AttentionEvent>

  datatype Group = Group(repositoryId: string, events: Batch)

  // ----- grouping -----

  function Of(id: string): AttentionEvent -> bool { (v: AttentionEvent) => v.repositoryId == id }

  /** The repositories of the events, by first occurrence. */
  function Repositories(events: Batch): seq<string>
  {
    if events == [] then []
    else
      var front, id := Repositories(events[..|events| - 1]), events[|events| - 1].repositoryId;
      if id in front then front else front + [id]
  }

  function GroupOf(events: Batch): string -> Group { (id: string) => Group(id, Filter(Of(id), events)) }

  /** One group per repository, holding its events in their order. */
  function Groups(events: Batch): seq<Group>
  {
    Map(GroupOf(events), Repositories(events))
  }

  lemma {:induction false} RepositoriesDistinct(events: Batch)
    ensures NoDuplicates(Repositories(events))
    ensures forall id :: id in Repositories(events) <==> exists v :: v in events && v.repositoryId == id
  {
    if events != [] {
      var front, last := events[..|events| - 1], events[|events| - 1];
      RepositoriesDistinct(front);
      assert events == front + [last];
      forall id
        ensures id in Repositories(events) <==> exists v :: v in events && v.repositoryId == id
      {
        if v :| v in front && v.repositoryId == id {
          assert v in events;
        }
        if id == last.repositoryId {
          assert last in events;
        }
      }
    }
  }

  /** The events of all groups together are the events dispatched. */
  lemma GroupsPartition(events: Batch)
    ensures forall i, j :: 0 <= i < j < |Groups(events)| ==>
              Groups(events)[i].repositoryId != Groups(events)[j].repositoryId
    ensures forall v :: v in events ==>
              exists i :: 0 <= i < |Groups(events)| && Groups(events)[i].repositoryId == v.repositoryId
    ensures forall g :: g in Groups(events) ==> g.events == Filter(Of(g.repositoryId), events) && g.events != []
  {
    RepositoriesDistinct(events);
    var ids, groups := Repositories(events), Groups(events);
    forall v | v in events
      ensures exists i :: 0 <= i < |groups| && groups[i].repositoryId == v.repositoryId
    {
      assert v.repositoryId in ids;
      var i :| 0 <= i < |ids| && ids[i] == v.repositoryId;
      assert groups[i].repositoryId == v.repositoryId;
    }
    forall g | g in groups
      ensures g.events != []
    {
      var i :| 0 <= i < |groups| && groups[i] == g;
      assert ids[i] in ids;
      var v :| v in events && v.repositoryId == ids[i];
      assert v in Filter(Of(ids[i]), events);
    }
  }

  /** The group with the event pushed if it is of its repository. */
  function Joined(g: Group, v: AttentionEvent): Group
  {
    if g.repositoryId == v.repositoryId then g.(events := g.events + [v]) else g
  }

  lemma GroupGrows(events: Batch, v: AttentionEvent, id: string)
    ensures GroupOf(events + [v])(id) == Joined(GroupOf(events)(id), v)
  {
    FilterAppend(Of(id), events, [v]);
    assert [v][1..] == [];
  }

  lemma RepositoriesOneMore(events: Batch, v: AttentionEvent)
    ensures Repositories(events + [v]) ==
            Repositories(events) + if v.repositoryId in Repositories(events) then [] else [v.repositoryId]
  {
    assert (events + [v])[..|events|] == events;
  }

  /** One more event joins the group of its repository or opens a new one at the end. */
  lemma GroupsOneMore(events: Batch, v: AttentionEvent)
    ensures var groups, more := Groups(events), Groups(events + [v]);
            && |more| == |groups| + (if v.repositoryId in Repositories(events) then 0 else 1)
            && (forall i :: 0 <= i < |groups| ==> more[i] == Joined(groups[i], v))
            && (v.repositoryId !in Repositories(events) ==> more[|groups|] == Group(v.repositoryId, [v]))
  {
    var ids := Repositories(events);
    RepositoriesOneMore(events, v);
    forall i | 0 <= i < |ids|
      ensures Groups(events + [v])[i] == Joined(Groups(events)[i], v)
    {
      GroupGrows(events, v, ids[i]);
    }
    if v.repositoryId !in ids {
      RepositoriesDistinct(events);
      FilterNone(Of(v.repositoryId), events);
      GroupGrows(events, v, v.repositoryId);
    }
  }

  /** Pushing the event at the place found for it gives the groups of the longer batch. */
  lemma PushIsGroups(events: Batch, v: AttentionEvent, place: nat)
    requires var groups := Groups(events);
             && place <= |groups|
             && (forall k :: 0 <= k < place ==> groups[k].repositoryId != v.repositoryId)
             && (place < |groups| ==> groups[place].repositoryId == v.repositoryId)
    ensures var groups := Groups(events);
            Groups(events + [v]) ==
            if place < |groups| then groups[place := groups[place].(events := groups[place].events + [v])]
            else groups + [Group(v.repositoryId, [v])]
  {
    var groups, ids := Groups(events), Repositories(events);
    assert forall k :: 0 <= k < |groups| ==> groups[k].repositoryId == ids[k];
    RepositoriesDistinct(events);
    GroupsOneMore(events, v);
    if place < |groups| {
      assert ids[place] == v.repositoryId;
    }
  }

  // ----- what a dispatch does -----

  /** The policy's answer, as any function of how often it was asked, what was recorded as sent, and
      the repository. */
  type Policy = (nat, seq<string>, string) -> bool

  /** `inboxes[i]` are the batches handed to the transport registered in place i; `sent` are the
      recordNotificationSent calls. */
  datatype State = State(inboxes: seq<seq<Batch>>, lastDispatchAt: Option<int>, delivered: nat, suppressed: nat,
                         sent: seq<string>, asked: nat)

  function HandedTo(batch: Batch): seq<Batch> -> seq<Batch> { (inbox: seq<Batch>) => inbox + [batch] }

  function DispatchGroup(policy: Policy, s: State, g: Group): State
  {
    if s.inboxes == [] then s
    else if !policy(s.asked, s.sent, g.repositoryId) then s.(suppressed := s.suppressed + 1, asked := s.asked + 1)
    else s.(inboxes := Map(HandedTo(g.events), s.inboxes), sent := s.sent + [g.repositoryId],
            delivered := s.delivered + 1, asked := s.asked + 1)
  }

  function DispatchGroups(policy: Policy, s: State, groups: seq<Group>): State
  {
    if groups == [] then s
    else DispatchGroup(policy, DispatchGroups(policy, s, groups[..|groups| - 1]), groups[|groups| - 1])
  }

  function AfterDispatch(policy: Policy, s: State, now: int, events: Batch): State
  {
    if events == [] then s
    else DispatchGroups(policy, s.(lastDispatchAt := Some(now)), Groups(events))
  }

  /** The dispatcher. Deliveries are calls to transports that may throw; `throws` says which do. */
  class AttentionDispatcher {
    const policy: Policy
    const throws: (nat, Batch) -> bool
    var inboxes: seq<seq<Batch>>
    var lastDispatchAt: Option<int>
    var notificationsDelivered: nat
    var notificationsSuppressed: nat
    var sent: seq<string>
    var asked: nat

    constructor (policy: Policy, throws: (nat, Batch) -> bool)
      ensures this.policy == policy && this.throws == throws
      ensures Current() == State([], None, 0, 0, [], 0)
    {
      this.policy, this.throws := policy, throws;
      inboxes, lastDispatchAt, notificationsDelivered, notificationsSuppressed, sent, asked := [], None, 0, 0, [], 0;
    }

    ghost function Current(): State
      reads this
    {
      State(inboxes, lastDispatchAt, notificationsDelivered, notificationsSuppressed, sent, asked)
    }

    method AddTransport()
      modifies this
      ensures Current() == old(Current()).(inboxes := old(inboxes) + [[]])
    {
      inboxes := inboxes + [[]];
    }

    /** True when the delivery throws; the transport has been handed the batch either way. */
    method Deliver(place: nat, events: Batch) returns (threw: bool)
      requires place < |inboxes|
      modifies this`inboxes
      ensures inboxes == old(inboxes)[place := old(inboxes)[place] + [events]] && threw == throws(place, events)
    {
      inboxes := inboxes[place := inboxes[place] + [events]];
      threw := throws(place, events);
    }

    method DispatchForRepository(repositoryId: string, events: Batch)
      modifies this
      ensures Current() == DispatchGroup(policy, old(Current()), Group(repositoryId, events))
    {
      if |inboxes| == 0 {
        return;
      }
      var allowed := policy(asked, sent, repositoryId);
      asked := asked + 1;
      if !allowed {
        notificationsSuppressed := notificationsSuppressed + 1;
        return;
      }
      for i := 0 to |inboxes|
        invariant |inboxes| == |old(inboxes)|
        invariant forall k :: 0 <= k < |inboxes| ==>
                    inboxes[k] == if k < i then old(inboxes)[k] + [events] else old(inboxes)[k]
        invariant Current() == old(Current()).(inboxes := inboxes, asked := old(asked) + 1)
      {
        // A throw is caught and logged; it ends neither the loop nor the dispatch.
        var threw := Deliver(i, events);
      }
      assert inboxes == Map(HandedTo(events), old(inboxes));
      sent := sent + [repositoryId];
      notificationsDelivered := notificationsDelivered + 1;
    }

    method GroupByRepository(events: Batch) returns (groups: seq<Group>)
      ensures groups == Groups(events)
    {
      groups := [];
      for i := 0 to |events|
        invariant groups == Groups(events[..i])
      {
        var place := 0;
        while place < |groups| && groups[place].repositoryId != events[i].repositoryId
          invariant 0 <= place <= |groups|
          invariant forall k :: 0 <= k < place ==> groups[k].repositoryId != events[i].repositoryId
        {
          place := place + 1;
        }
        assert events[..i + 1] == events[..i] + [events[i]];
        PushIsGroups(events[..i], events[i], place);
        if place < |groups| {
          groups := groups[place := groups[place].(events := groups[place].events + [events[i]])];
        } else {
          groups := groups + [Group(events[i].repositoryId, [events[i]])];
        }
      }
      assert events[..|events|] == events;
    }

    method Dispatch(now: int, events: Batch)
      modifies this
      ensures Current() == AfterDispatch(policy, old(Current()), now, events)
    {
      if |events| == 0 {
        return;
      }
      lastDispatchAt := Some(now);
      var groups := GroupByRepository(events);
      for i := 0 to |groups|
        invariant Current() == DispatchGroups(policy, old(Current()).(lastDispatchAt := Some(now)), groups[..i])
      {
        assert groups[..i + 1][..i] == groups[..i];
        DispatchForRepository(groups[i].repositoryId, groups[i].events);
      }
      assert groups[..|groups|] == groups;
    }

    method ResetStatistics()
      modifies this
      ensures Current() == old(Current()).(lastDispatchAt := None, delivered := 0, suppressed := 0)
    {
      lastDispatchAt, notificationsDelivered, notificationsSuppressed := None, 0, 0;
    }
  }

  // ----- whole runs -----

  datatype Op = Register | Send(now: int, events: Batch) | Reset

  function After(policy: Policy, s: State, op: Op): State
  {
    match op
    case Register => s.(inboxes := s.inboxes + [[]])
    case Send(now, events) => AfterDispatch(policy, s, now, events)
    case Reset => s.(lastDispatchAt := None, delivered := 0, suppressed := 0)
  }

  function Run(policy: Policy, ops: seq<Op>): State
  {
    if ops == [] then State([], None, 0, 0, [], 0)
    else After(policy, Run(policy, ops[..|ops| - 1]), ops[|ops| - 1])
  }

  /** The groups among these that are delivered, in order. */
  function Passed(policy: Policy, s: State, groups: seq<Group>): seq<Group>
  {
    if groups == [] then []
    else
      var front, last := groups[..|groups| - 1], groups[|groups| - 1];
      var t := DispatchGroups(policy, s, front);
      if t.inboxes != [] && policy(t.asked, t.sent, last.repositoryId) then Passed(policy, s, front) + [last]
      else Passed(policy, s, front)
  }

  function PassedBy(policy: Policy, s: State, op: Op): seq<Group>
  {
    if op.Send? && op.events != [] then Passed(policy, s.(lastDispatchAt := Some(op.now)), Groups(op.events)) else []
  }

  /** Every group delivered in the run. */
  function AllPassed(policy: Policy, ops: seq<Op>): seq<Group>
  {
    if ops == [] then []
    else
      var front, last := ops[..|ops| - 1], ops[|ops| - 1];
      AllPassed(policy, front) + PassedBy(policy, Run(policy, front), last)
  }

  /** How many groups had been delivered when each transport was registered, and at the last reset. */
  function RegisteredAfter(policy: Policy, ops: seq<Op>): seq<nat>
  {
    if ops == [] then []
    else
      var front, last := ops[..|ops| - 1], ops[|ops| - 1];
      RegisteredAfter(policy, front) + if last.Register? then [|AllPassed(policy, front)|] else []
  }

  function ResetAfter(policy: Policy, ops: seq<Op>): nat
  {
    if ops == [] then 0
    else
      var front, last := ops[..|ops| - 1], ops[|ops| - 1];
      if last.Reset? then |AllPassed(policy, front)| else ResetAfter(policy, front)
  }

  /** How many groups were dispatched since the last reset while a transport was registered. */
  function HandledSinceReset(policy: Policy, ops: seq<Op>): nat
  {
    if ops == [] then 0
    else
      var front, last := ops[..|ops| - 1], ops[|ops| - 1];
      match last
      case Register => HandledSinceReset(policy, front)
      case Reset => 0
      case Send(_, events) =>
        HandledSinceReset(policy, front) + if Run(policy, front).inboxes != [] then |Groups(events)| else 0
  }

  function EventsOf(): Group -> Batch { (g: Group) => g.events }

  function IdOf(): Group -> string { (g: Group) => g.repositoryId }

  /** One dispatch: what passed is recorded, reaches every transport alike, and adds up. */
  lemma {:induction false} DispatchAddsUp(policy: Policy, s: State, groups: seq<Group>)
    ensures var t, passed := DispatchGroups(policy, s, groups), Passed(policy, s, groups);
            && t.sent == s.sent + Map(IdOf(), passed)
            && t.delivered == s.delivered + |passed|
            && t.delivered + t.suppressed == s.delivered + s.suppressed + (if s.inboxes != [] then |groups| else 0)
            && |t.inboxes| == |s.inboxes|
            && (forall i :: 0 <= i < |s.inboxes| ==> t.inboxes[i] == s.inboxes[i] + Map(EventsOf(), passed))
            && t.lastDispatchAt == s.lastDispatchAt
  {
    if groups != [] {
      var front, last := groups[..|groups| - 1], groups[|groups| - 1];
      DispatchAddsUp(policy, s, front);
      var passed, more := Passed(policy, s, front), Passed(policy, s, groups);
      if more == passed + [last] {
        assert Map(IdOf(), more) == Map(IdOf(), passed) + [last.repositoryId];
        assert Map(EventsOf(), more) == Map(EventsOf(), passed) + [last.events];
      }
    }
  }

  /** The counters add up to the groups handled since the reset, every delivery is recorded with the
      policy, and each transport has been handed every group delivered since it was registered. */
  ghost predicate AddsUp(s: State, passed: seq<Group>, joined: seq<nat>, resetAfter: nat, handled: nat)
  {
    && s.delivered + s.suppressed == handled
    && resetAfter <= |s.sent| && s.delivered == |s.sent| - resetAfter
    && s.sent == Map(IdOf(), passed)
    && |s.inboxes| == |joined|
    && (forall i :: 0 <= i < |joined| ==> joined[i] <= |passed| && s.inboxes[i] == Map(EventsOf(), passed[joined[i]..]))
  }

  lemma SendKeeps(policy: Policy, s: State, op: Op, passed: seq<Group>, joined: seq<nat>, resetAfter: nat, handled: nat)
    requires op.Send? && AddsUp(s, passed, joined, resetAfter, handled)
    ensures AddsUp(After(policy, s, op), passed + PassedBy(policy, s, op), joined, resetAfter,
                   handled + if s.inboxes != [] then |Groups(op.events)| else 0)
  {
    var t, more := After(policy, s, op), PassedBy(policy, s, op);
    SendAddsUp(policy, s, op);
    assert Map(IdOf(), passed + more) == Map(IdOf(), passed) + Map(IdOf(), more);
    forall i | 0 <= i < |joined|
      ensures t.inboxes[i] == Map(EventsOf(), (passed + more)[joined[i]..])
    {
      InboxGrows(passed, more, joined[i]);
    }
  }

  lemma SendAddsUp(policy: Policy, s: State, op: Op)
    requires op.Send?
    ensures var t, more := After(policy, s, op), PassedBy(policy, s, op);
            && t.sent == s.sent + Map(IdOf(), more) && t.delivered == s.delivered + |more|
            && t.delivered + t.suppressed ==
               s.delivered + s.suppressed + (if s.inboxes != [] then |Groups(op.events)| else 0)
            && |t.inboxes| == |s.inboxes|
            && forall i :: 0 <= i < |s.inboxes| ==> t.inboxes[i] == s.inboxes[i] + Map(EventsOf(), more)
  {
    if op.events != [] {
      DispatchAddsUp(policy, s.(lastDispatchAt := Some(op.now)), Groups(op.events));
    } else {
      assert forall i :: 0 <= i < |s.inboxes| ==> s.inboxes[i] == s.inboxes[i] + Map(EventsOf(), []);
    }
  }

  lemma InboxGrows(passed: seq<Group>, more: seq<Group>, joined: nat)
    requires joined <= |passed|
    ensures Map(EventsOf(), (passed + more)[joined..]) == Map(EventsOf(), passed[joined..]) + Map(EventsOf(), more)
  {
    assert (passed + more)[joined..] == passed[joined..] + more;
  }

  lemma RegisterKeeps(policy: Policy, s: State, passed: seq<Group>, joined: seq<nat>, resetAfter: nat, handled: nat)
    requires AddsUp(s, passed, joined, resetAfter, handled)
    ensures AddsUp(After(policy, s, Register), passed, joined + [|passed|], resetAfter, handled)
  {
    assert passed[|passed|..] == [];
  }

  lemma ResetKeeps(policy: Policy, s: State, passed: seq<Group>, joined: seq<nat>, resetAfter: nat, handled: nat)
    requires AddsUp(s, passed, joined, resetAfter, handled)
    ensures AddsUp(After(policy, s, Reset), passed, joined, |passed|, 0)
  {}

  /** Over any run, whatever the policy answers and whichever deliveries throw. */
  lemma {:induction false} EveryRunAddsUp(policy: Policy, ops: seq<Op>)
    ensures AddsUp(Run(policy, ops), AllPassed(policy, ops), RegisteredAfter(policy, ops), ResetAfter(policy, ops),
                   HandledSinceReset(policy, ops))
  {
    if ops != [] {
      var front, last := ops[..|ops| - 1], ops[|ops| - 1];
      var s, passed, joined := Run(policy, front), AllPassed(policy, front), RegisteredAfter(policy, front);
      EveryRunAddsUp(policy, front);
      assert passed + [] == passed && joined + [] == joined;
      match last
      case Send(_, _) =>
        SendKeeps(policy, s, last, passed, joined, ResetAfter(policy, front), HandledSinceReset(policy, front));
      case Register =>
        RegisterKeeps(policy, s, passed, joined, ResetAfter(policy, front), HandledSinceReset(policy, front));
      case Reset => ResetKeeps(policy, s, passed, joined, ResetAfter(policy, front), HandledSinceReset(policy, front));
    }
  }

  // ----- the time of the last dispatch -----

  predicate Dispatches(op: Op) { op.Send? && op.events != [] }

  /** It is that of the last batch that was not empty, whatever became of its groups, until a reset. */
  lemma {:induction false} LastDispatchTime(policy: Policy, ops: seq<Op>, k: nat)
    requires k <= |ops|
    requires forall i :: k <= i < |ops| ==> !Dispatches(ops[i]) && !ops[i].Reset?
    ensures k == 0 ==> Run(policy, ops).lastDispatchAt == None
    ensures k > 0 && ops[k - 1].Reset? ==> Run(policy, ops).lastDispatchAt == None
    ensures k > 0 && Dispatches(ops[k - 1]) ==> Run(policy, ops).lastDispatchAt == Some(ops[k - 1].now)
    decreases |ops|
  {
    if ops != [] {
      var front, last := ops[..|ops| - 1], ops[|ops| - 1];
      if k < |ops| {
        LastDispatchTime(policy, front, k);
      } else if Dispatches(last) {
        DispatchAddsUp(policy, Run(policy, front).(lastDispatchAt := Some(last.now)), Groups(last.events));
      }
    }
  }
}
