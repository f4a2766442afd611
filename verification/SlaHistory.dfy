/**
 Calls of the SLA routes one after the other, told finding by finding: which start its record comes from, the
 checks and resolutions since, and the events a check has left. The store holds exactly that.
 */
module SlaHistory {
  import opened Wrappers
  import opened Sla
  import opened SlaStore

  datatype Op =
    | Start(finding: int, priority: Priority, now: int)
    | CheckOne(finding: int, now: int, fault: Fault)
    | ResolveOne(finding: int, at: int)
    | RemoveOne(finding: int)

  function StoreAfter(s: Store, policy: Policy, op: Op): (r: Store)
  {
    match op
    case Start(f, priority, now) => AfterStart(s, policy, f, priority, now)
    case CheckOne(f, now, fault) => AfterCheck(s, f, now, fault).0
    case ResolveOne(f, at) => AfterResolve(s, f, at)
    case RemoveOne(f) => AfterRemove(s, f)
  }

  function StoreOf(policy: Policy, ops: seq<Op>): (r: Store)
  {
    if ops == [] then Store(map[], map[])
    else StoreAfter(StoreOf(policy, ops[..|ops| - 1]), policy, ops[|ops| - 1])
  }

  // The start a finding's record comes from, and what has visited it since.
  datatype Tale = Tale(priority: Priority, at: int, visits: seq<Visit>)

  // A start of the priority it has already starts nothing.
  function TaleOf(ops: seq<Op>, f: int): (r: Option<Tale>)
  {
    if ops == [] then None
    else
      var tale, last := TaleOf(ops[..|ops| - 1], f), ops[|ops| - 1];
      if last.finding != f then tale
      else
        match last
        case Start(_, priority, now) =>
          if tale.Some? && tale.value.priority == priority then tale else Some(Tale(priority, now, []))
        case CheckOne(_, now, _) => Visiting(tale, CheckAt(now))
        case ResolveOne(_, at) => Visiting(tale, ResolveAt(at))
        case RemoveOne(_) => None
  }

  function Visiting(tale: Option<Tale>, visit: Visit): (r: Option<Tale>)
  {
    if tale.None? then None else Some(tale.value.(visits := tale.value.visits + [visit]))
  }

  // The event of a check: it is the first to find the deadline passed.
  function EventOf(policy: Policy, f: int, tale: Option<Tale>, now: int): (r: seq<Escalation>)
  {
    if tale.None? || tale.value.priority !in policy || policy[tale.value.priority].None? then []
    else
      var due := tale.value.at + policy[tale.value.priority].value;
      if due <= now && Caught(due, tale.value.visits).None? && ResolvedAt(tale.value.visits).None?
      then [Escalation(f, 0, 1, tale.value.priority, due, now)] else []
  }

  // The events of a finding since its last removal; one whose record could not be written is lost.
  function EventsTold(policy: Policy, ops: seq<Op>, f: int): (r: seq<Escalation>)
  {
    if ops == [] then []
    else
      var front, last := ops[..|ops| - 1], ops[|ops| - 1];
      var before := EventsTold(policy, front, f);
      if last.finding != f then before
      else
        match last
        case CheckOne(_, now, fault) =>
          before + if fault == RecordWriteFails then [] else EventOf(policy, f, TaleOf(front, f), now)
        case RemoveOne(_) => []
        case _ => before
  }

  // The record is what the policy in force at its start and the visits since make it.
  ghost predicate Holds(s: Store, policy: Policy, f: int, tale: Option<Tale>, events: seq<Escalation>)
  {
    && (f in s.records <==> tale.Some?)
    && (f in s.records && tale.Some? ==>
          s.records[f] == Told(policy, f, tale.value.priority, tale.value.at, tale.value.visits))
    && EventsOf(s, f) == events
  }

  lemma ToldNext(policy: Policy, f: int, tale: Tale, visit: Visit)
    ensures var r := Told(policy, f, tale.priority, tale.at, tale.visits);
            Told(policy, f, tale.priority, tale.at, tale.visits + [visit]) == Visited(r, visit).0
  {
    assert (tale.visits + [visit])[..|tale.visits|] == tale.visits;
  }

  lemma CheckHolds(s: Store, policy: Policy, f: int, tale: Option<Tale>, events: seq<Escalation>, now: int,
      fault: Fault)
    requires Holds(s, policy, f, tale, events)
    ensures Holds(AfterCheck(s, f, now, fault).0, policy, f, Visiting(tale, CheckAt(now)),
                  events + if fault == RecordWriteFails then [] else EventOf(policy, f, tale, now))
  {
    if tale.Some? {
      ToldNext(policy, f, tale.value, CheckAt(now));
      assert Check(s.records[f], now).1.Some? <==> EventOf(policy, f, tale, now) != [];
    }
  }

  lemma ResolveHolds(s: Store, policy: Policy, f: int, tale: Option<Tale>, events: seq<Escalation>, at: int)
    requires Holds(s, policy, f, tale, events)
    ensures Holds(AfterResolve(s, f, at), policy, f, Visiting(tale, ResolveAt(at)), events)
  {
    if tale.Some? {
      ToldNext(policy, f, tale.value, ResolveAt(at));
    }
  }

  lemma OtherHolds(s: Store, policy: Policy, f: int, tale: Option<Tale>, events: seq<Escalation>, op: Op)
    requires Holds(s, policy, f, tale, events) && op.finding != f
    requires op.finding in s.records ==> s.records[op.finding].finding == op.finding
    ensures Holds(StoreAfter(s, policy, op), policy, f, tale, events)
  {
  }

  // After any calls every finding has the record and the events its own calls give it, and nothing else.
  lemma {:induction false} StoreIsTold(policy: Policy, ops: seq<Op>, f: int)
    ensures Holds(StoreOf(policy, ops), policy, f, TaleOf(ops, f), EventsTold(policy, ops, f))
    decreases |ops|
  {
    if ops != [] {
      var front, last := ops[..|ops| - 1], ops[|ops| - 1];
      var s, tale, events := StoreOf(policy, front), TaleOf(front, f), EventsTold(policy, front, f);
      StoreIsTold(policy, front, f);
      StoreIsTold(policy, front, last.finding);
      if last.finding != f {
        OtherHolds(s, policy, f, tale, events, last);
      } else {
        match last
        case CheckOne(_, now, fault) => CheckHolds(s, policy, f, tale, events, now, fault);
        case ResolveOne(_, at) => ResolveHolds(s, policy, f, tale, events, at);
        case Start(_, _, _) =>
        case RemoveOne(_) =>
      }
    }
  }
}
