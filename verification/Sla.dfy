/** One SLA record: its deadline, the checks that may find it breached, and its resolution. */
module Sla {
  import opened Wrappers

  datatype Priority = P0 | P1 | P2 | P3 | P4

  datatype Status = NotApplicable | Active | Breached | Resolved

  datatype Record = Record(finding: int, priority: Priority, startedAt: int, dueAt: Option<int>, status: Status,
                           breachedAt: Option<int>, level: nat, checkedAt: Option<int>, resolvedAt: Option<int>)

  datatype Escalation = Escalation(finding: int, previousLevel: nat, newLevel: nat, priority: Priority, due: int,
      at: int)

  // How long each priority may take, in seconds; a priority that is not listed has no deadline either.
  type Policy = map<Priority, Option<int>>

  const HOUR := 3600
  const DAY := 86400
  const DEFAULT_DEADLINES: Policy :=
    map[P0 := Some(4 * HOUR), P1 := Some(24 * HOUR), P2 := Some(3 * DAY), P3 := Some(7 * DAY), P4 := None]

  function DurationFor(policy: Policy, priority: Priority): (r: Option<int>)
  {
    if priority in policy then policy[priority] else None
  }

  function Create(policy: Policy, finding: int, priority: Priority, at: int): (r: Record)
  {
    match DurationFor(policy, priority)
    case None => Record(finding, priority, at, None, NotApplicable, None, 0, None, None)
    case Some(d) => Record(finding, priority, at, Some(at + d), Active, None, 0, None, None)
  }

  function Check(r: Record, now: int): (result: (Record, Option<Escalation>))
  {
    if r.status == Resolved then (r.(checkedAt := Some(now)), None)
    else if r.dueAt.None? then (r.(status := NotApplicable, checkedAt := Some(now)), None)
    else if r.status == Breached then (r.(checkedAt := Some(now)), None)
    else if now >= r.dueAt.value then
      (r.(status := Breached, breachedAt := Some(now), level := r.level + 1, checkedAt := Some(now)),
       Some(Escalation(r.finding, r.level, r.level + 1, r.priority, r.dueAt.value, now)))
    else (r.(status := Active, checkedAt := Some(now)), None)
  }

  function Resolve(r: Record, at: int): (result: Record)
  {
    if r.status == Resolved then r else r.(status := Resolved, resolvedAt := Some(at))
  }

  function Rank(s: Status): (r: nat)
  {
    match s
    case NotApplicable => 0
    case Active => 1
    case Breached => 2
    case Resolved => 3
  }

  // ---------------------------------------------------------------- what holds of every record

  predicate Sane(r: Record)
  {
    && (r.status == NotApplicable ==> r.dueAt.None?)
    && (r.status == Active || r.status == Breached ==> r.dueAt.Some?)
    && (r.status == Active ==> r.breachedAt.None?)
    && (r.status == Breached ==> r.breachedAt.Some?)
    && (r.breachedAt.Some? ==> r.dueAt.Some? && r.dueAt.value <= r.breachedAt.value)
    && r.level == (if r.breachedAt.Some? then 1 else 0)
    && (r.status == Resolved <==> r.resolvedAt.Some?)
  }

  // The events a record's own fields say it must have had.
  function Expected(r: Record): (result: seq<Escalation>)
    requires Sane(r)
  {
    if r.breachedAt.None? then []
    else [Escalation(r.finding, 0, 1, r.priority, r.dueAt.value, r.breachedAt.value)]
  }

  function AsSeq(e: Option<Escalation>): (r: seq<Escalation>)
  {
    if e.None? then [] else [e.value]
  }

  predicate Forward(r: Record, later: Record)
  {
    && Rank(r.status) <= Rank(later.status) && r.level <= later.level
    && later.finding == r.finding && later.priority == r.priority && later.dueAt == r.dueAt
    && (r.breachedAt.Some? ==> later.breachedAt == r.breachedAt)
    && (r.resolvedAt.Some? ==> later.resolvedAt == r.resolvedAt)
  }

  lemma CreateSane(policy: Policy, finding: int, priority: Priority, at: int)
    ensures Sane(Create(policy, finding, priority, at)) && Expected(Create(policy, finding, priority, at)) == []
  {
  }

  // A check escalates just when the record is active and due, and its event is what the record then expects.
  lemma CheckSteps(r: Record, now: int)
    requires Sane(r)
    ensures var (next, event) := Check(r, now);
            && Sane(next) && Forward(r, next) && Expected(next) == Expected(r) + AsSeq(event)
            && (event.Some? <==> r.status == Active && r.dueAt.value <= now)
            && (event.Some? <==> r.status == Active && next.status == Breached)
            && !(next.status == Active && next.dueAt.value <= now)
  {
  }

  lemma ResolveSteps(r: Record, at: int)
    requires Sane(r)
    ensures Sane(Resolve(r, at)) && Forward(r, Resolve(r, at)) && Expected(Resolve(r, at)) == Expected(r)
    ensures Resolve(r, at).status == Resolved && forall later: int :: Resolve(Resolve(r, at), later) == Resolve(r, at)
  {
  }

  // ---------------------------------------------------------------- the life of one record

  datatype Visit = CheckAt(now: int) | ResolveAt(at: int)

  function Visited(r: Record, v: Visit): (result: (Record, seq<Escalation>))
  {
    match v
    case CheckAt(now) => (Check(r, now).0, AsSeq(Check(r, now).1))
    case ResolveAt(at) => (Resolve(r, at), [])
  }

  // The record after all visits, and the events they gave.
  function Life(r: Record, visits: seq<Visit>): (result: (Record, seq<Escalation>))
  {
    if visits == [] then (r, [])
    else
      var (before, events) := Life(r, visits[..|visits| - 1]);
      var (after, more) := Visited(before, visits[|visits| - 1]);
      (after, events + more)
  }

  lemma ForwardTwice(a: Record, b: Record, c: Record)
    requires Forward(a, b) && Forward(b, c)
    ensures Forward(a, c)
  {
  }

  // Whatever the visits and their clocks: the status only moves forward, the breach and resolution times
  // are set once, and the events are exactly those the record expects.
  lemma {:induction false} LifeMovesForward(r: Record, visits: seq<Visit>)
    requires Sane(r)
    ensures var (end, events) := Life(r, visits);
            Sane(end) && Forward(r, end) && Expected(end) == Expected(r) + events
  {
    if visits != [] {
      var (before, events) := Life(r, visits[..|visits| - 1]);
      LifeMovesForward(r, visits[..|visits| - 1]);
      match visits[|visits| - 1] {
        case CheckAt(now) => CheckSteps(before, now);
        case ResolveAt(at) => ResolveSteps(before, at);
      }
      var (end, all) := Life(r, visits);
      ForwardTwice(r, before, end);
      assert Expected(end) == Expected(r) + all;
    }
  }

  // The first check at or past the deadline, if no resolution came before it.
  predicate CaughtAt(due: int, visits: seq<Visit>, i: nat)
    requires i < |visits|
  {
    visits[i].CheckAt? && due <= visits[i].now && forall j :: 0 <= j < i ==> visits[j].CheckAt? && visits[j].now < due
  }

  function Caught(due: int, visits: seq<Visit>): (at: Option<int>)
  {
    if visits == [] then None
    else
      var n := |visits| - 1;
      if Caught(due, visits[..n]).Some? then Caught(due, visits[..n])
      else if visits[n].CheckAt? && due <= visits[n].now && ResolvedAt(visits[..n]).None? then Some(visits[n].now)
      else None
  }

  function ResolvedAt(visits: seq<Visit>): (at: Option<int>)
  {
    if visits == [] then None
    else
      var n := |visits| - 1;
      if ResolvedAt(visits[..n]).None? && visits[n].ResolveAt? then Some(visits[n].at) else ResolvedAt(visits[..n])
  }

  function LastChecked(visits: seq<Visit>): (at: Option<int>)
  {
    if visits == [] then None
    else
      var n := |visits| - 1;
      if visits[n].CheckAt? then Some(visits[n].now) else LastChecked(visits[..n])
  }

  ghost predicate Unresolved(visits: seq<Visit>)
  {
    forall j :: 0 <= j < |visits| ==> visits[j].CheckAt?
  }

  lemma {:induction false} ResolvedIff(visits: seq<Visit>)
    ensures ResolvedAt(visits).None? <==> Unresolved(visits)
    decreases |visits|
  {
    if visits != [] {
      var n := |visits| - 1;
      ResolvedIff(visits[..n]);
      assert Unresolved(visits) <==> Unresolved(visits[..n]) && visits[n].CheckAt?;
    }
  }

  lemma {:induction false} CaughtIff(due: int, visits: seq<Visit>)
    ensures Caught(due, visits).Some? <==> exists i :: 0 <= i < |visits| && CaughtAt(due, visits, i)
    ensures forall i :: 0 <= i < |visits| && CaughtAt(due, visits, i) ==> Caught(due, visits) == Some(visits[i].now)
    ensures Caught(due, visits).None? && Unresolved(visits) ==>
              forall j :: 0 <= j < |visits| ==> visits[j].now < due
    decreases |visits|
  {
    if visits != [] {
      var n := |visits| - 1;
      var rest := visits[..n];
      CaughtIff(due, rest);
      ResolvedIff(rest);
      forall i | 0 <= i < n
        ensures CaughtAt(due, rest, i) <==> CaughtAt(due, visits, i)
      {
        assert forall j :: 0 <= j < i ==> rest[j] == visits[j];
      }
      CaughtLast(due, visits);
    }
  }

  lemma CaughtLast(due: int, visits: seq<Visit>)
    requires visits != []
    requires var rest := visits[..|visits| - 1];
             Caught(due, rest).None? && Unresolved(rest) ==> forall j :: 0 <= j < |rest| ==> rest[j].now < due
    requires Caught(due, visits[..|visits| - 1]).Some? ==>
               exists i :: 0 <= i < |visits| - 1 && CaughtAt(due, visits, i)
    ensures var n := |visits| - 1;
            CaughtAt(due, visits, n) <==>
            visits[n].CheckAt? && due <= visits[n].now && Unresolved(visits[..n]) && Caught(due, visits[..n]).None?
  {
    var n := |visits| - 1;
    assert forall j :: 0 <= j < n ==> visits[..n][j] == visits[j];
  }

  // The whole of a record that was started under a policy and visited: what the policy and the visits make it.
  function Told(policy: Policy, finding: int, priority: Priority, at: int, visits: seq<Visit>): (r: Record)
  {
    if priority in policy && policy[priority].Some? then
      var due := at + policy[priority].value;
      var caught := Caught(due, visits);
      var status := if ResolvedAt(visits).Some? then Resolved else if caught.Some? then Breached else Active;
      Record(finding, priority, at, Some(due), status, caught, if caught.Some? then 1 else 0, LastChecked(visits),
             ResolvedAt(visits))
    else
      var status := if ResolvedAt(visits).Some? then Resolved else NotApplicable;
      Record(finding, priority, at, None, status, None, 0, LastChecked(visits), ResolvedAt(visits))
  }

  lemma {:induction false} LifeIsTold(policy: Policy, finding: int, priority: Priority, at: int, visits: seq<Visit>)
    ensures Life(Create(policy, finding, priority, at), visits).0 == Told(policy, finding, priority, at, visits)
    decreases |visits|
  {
    if visits != [] {
      LifeIsTold(policy, finding, priority, at, visits[..|visits| - 1]);
    }
  }

  // A started SLA escalates at most once in its life, and it does exactly when its priority has a deadline and a
  // check finds that passed before any resolution; the event is that of the first such check.
  lemma EscalatesOnceIff(policy: Policy, finding: int, priority: Priority, at: int, visits: seq<Visit>)
    ensures var events := Life(Create(policy, finding, priority, at), visits).1;
            && |events| <= 1
            && (|events| == 1 ==> priority in policy && policy[priority].Some?)
            && (priority in policy && policy[priority].Some? ==>
                  var due := at + policy[priority].value;
                  && (|events| == 1 <==> exists i :: 0 <= i < |visits| && CaughtAt(due, visits, i))
                  && (forall i :: 0 <= i < |visits| && CaughtAt(due, visits, i) ==>
                        events == [Escalation(finding, 0, 1, priority, due, visits[i].now)]))
  {
    var r := Create(policy, finding, priority, at);
    CreateSane(policy, finding, priority, at);
    LifeMovesForward(r, visits);
    LifeIsTold(policy, finding, priority, at, visits);
    if priority in policy && policy[priority].Some? {
      CaughtIff(at + policy[priority].value, visits);
    }
  }

  // The documented deadlines: four hours, one day, three days, seven days and none.
  lemma DefaultDeadlines(finding: int, at: int, now: int)
    ensures var check := [CheckAt(now)];
            && (Life(Create(DEFAULT_DEADLINES, finding, P0, at), check).1 == [] <==> now < at + 14400)
            && (Life(Create(DEFAULT_DEADLINES, finding, P1, at), check).1 == [] <==> now < at + 86400)
            && (Life(Create(DEFAULT_DEADLINES, finding, P2, at), check).1 == [] <==> now < at + 259200)
            && (Life(Create(DEFAULT_DEADLINES, finding, P3, at), check).1 == [] <==> now < at + 604800)
            && Life(Create(DEFAULT_DEADLINES, finding, P4, at), check).1 == []
  {
    assert [CheckAt(now)][..0] == [];
  }
}
