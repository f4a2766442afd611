/** Runs of the SLA routes and checks in which a write outside the lock, or a removal, loses something. */
module SlaLosses {
  import opened Wrappers
  import opened Sla
  import opened SlaConcurrent

  // One more move at the end of a run.
  lemma Extend(states: seq<State>, moves: seq<Move>, m: Move) returns (longer: seq<State>, more: seq<Move>)
    requires Run(states, moves) && Enabled(states[|moves|], m)
    ensures Run(longer, more) && |more| == |moves| + 1 && more[|moves|] == m
    ensures longer[|more|] == After(states[|moves|], m) && longer[|moves|] == states[|moves|]
  {
    longer, more := states + [After(states[|moves|], m)], moves + [m];
    forall i | 0 <= i < |more|
      ensures Enabled(longer[i], more[i]) && longer[i + 1] == After(longer[i], more[i])
    {
      if i < |moves| {
        assert moves[i] == more[i];
      }
    }
  }

  // A run that has started one SLA, which is active.
  lemma StartedRun(r: Record, policy: Policy, f: int, priority: Priority, at: int)
    returns (states: seq<State>, moves: seq<Move>)
    requires r == Create(policy, f, priority, at)
    ensures Run(states, moves)
    ensures states[|moves|] == State(None, map[], map[], map[f := Cell(r, 0)], map[], [r], map[])
  {
    states, moves := [START], [];
    states, moves := Extend(states, moves, StartRead(1, f, policy, priority, at));
    states, moves := Extend(states, moves, StartWrite(1));
    assert states[|moves|].calls == map[] && [] + [r] == [r];
  }

  function Locked(s: State, c: Thread): (after: State)
  {
    s.(lock := Some(0), threads := s.threads[0 := c])
  }

  // A check that has taken the lock and read.
  lemma OpenCheck(states: seq<State>, moves: seq<Move>, f: int, now: int) returns (longer: seq<State>, more: seq<Move>)
    requires Run(states, moves)
    requires var s := states[|moves|]; s.lock.None? && ThreadAt(s, 0).Idle? && f in s.cells
    ensures Run(longer, more)
    ensures var s := states[|moves|];
            var (updated, event) := Check(s.cells[f].record, now);
            longer[|more|] == Locked(s, Computed(f, s.cells[f], updated, event, Nothing))
  {
    longer, more := Extend(states, moves, Acquire(0, f, now));
    longer, more := Extend(longer, more, Read(0));
    var s := states[|moves|];
    assert s.threads[0 := Holding(f, now)][0 := longer[|more|].threads[0]] == s.threads[0 := longer[|more|].threads[0]];
  }

  // The state after a check that found an active record due has given the lock back.
  function Escalated(s: State, f: int, e: Escalation, updated: Record): (after: State)
    requires f in s.cells
  {
    var life := s.cells[f].life;
    State(None, s.threads[0 := Idle], NoteBreach(s.calls, f, life), s.cells[f := Cell(updated, life)],
          s.trails[f := Trail(s.trails, f) + [Tagged(e, life)]], s.births, s.breaches[life := e.at])
  }

  lemma FinishCheck(states: seq<State>, moves: seq<Move>, s: State, f: int, e: Escalation, updated: Record)
    returns (longer: seq<State>, more: seq<Move>)
    requires Run(states, moves) && f in s.cells && s.cells[f].record != updated && e.finding == f
    requires states[|moves|] == Locked(s, Computed(f, s.cells[f], updated, Some(e), Nothing))
    ensures Run(longer, more) && longer[|more|] == Escalated(s, f, e, updated)
  {
    longer, more := Extend(states, moves, Write(0));
    longer, more := Extend(longer, more, Append(0));
    longer, more := Extend(longer, more, Release(0));
    assert longer[|more|].threads == s.threads[0 := Idle];
  }

  // A run in which an SLA has been started and a check has found it due.
  lemma BreachedRun(states: seq<State>, moves: seq<Move>, s: State, f: int, now: int)
    returns (longer: seq<State>, more: seq<Move>)
    requires Run(states, moves) && states[|moves|] == s && s.lock.None? && ThreadAt(s, 0).Idle? && f in s.cells
    requires var r := s.cells[f].record; Sane(r) && r.finding == f && r.status == Active && r.dueAt.value <= now
    ensures var (updated, event) := Check(s.cells[f].record, now);
            event.Some? && Run(longer, more) && longer[|more|] == Escalated(s, f, event.value, updated)
  {
    CheckSteps(s.cells[f].record, now);
    var (updated, event) := Check(s.cells[f].record, now);
    longer, more := OpenCheck(states, moves, f, now);
    longer, more := FinishCheck(longer, more, s, f, event.value, updated);
  }

  // A resolution that reads and writes with nothing in between.
  lemma ResolvedRun(states: seq<State>, moves: seq<Move>, s: State, f: int, later: int)
    returns (longer: seq<State>, more: seq<Move>)
    requires Run(states, moves) && states[|moves|] == s && f in s.cells && 2 !in s.calls
    ensures Run(longer, more)
    ensures longer[|more|] == s.(cells := s.cells[f := Cell(Resolve(s.cells[f].record, later), s.cells[f].life)])
  {
    longer, more := Extend(states, moves, ResolveRead(2, f, later));
    longer, more := Extend(longer, more, ResolveWrite(2));
    assert longer[|more|].calls == s.calls;
  }

  // A resolution between the read and the write of a check is lost.
  lemma ResolutionLost(policy: Policy, priority: Priority, f: int, at: int, now: int, later: int)
    requires priority in policy && policy[priority].Some?
    ensures exists states: seq<State>, moves: seq<Move> ::
              && Run(states, moves) && |moves| > 0 && moves[|moves| - 1] == Write(0)
              && f in states[|moves| - 1].cells && states[|moves| - 1].cells[f].record.status == Resolved
              && f in states[|moves|].cells && states[|moves|].cells[f].record.status != Resolved
              && states[|moves| - 1].cells[f].life == states[|moves|].cells[f].life
  {
    var r := Create(policy, f, priority, at);
    var states, moves := StartedRun(r, policy, f, priority, at);
    states, moves := OpenCheck(states, moves, f, now);
    states, moves := ResolvedRun(states, moves, states[|moves|], f, later);
    states, moves := Extend(states, moves, Write(0));
  }

  // A resolution that read the record before its breach and writes after it: the event is there, and the
  // record says it was never breached.
  lemma BreachLost(policy: Policy, priority: Priority, f: int, at: int, now: int, later: int)
    requires priority in policy && policy[priority].Some? && at + policy[priority].value <= now
    ensures exists states: seq<State>, moves: seq<Move> ::
              && Run(states, moves) && |moves| > 0 && moves[|moves| - 1] == ResolveWrite(2)
              && f in states[|moves|].cells && states[|moves|].lock.None? && states[|moves|].cells[f].record.level == 0
              && |Of(Trail(states[|moves|].trails, f), states[|moves|].cells[f].life)| == 1
  {
    var r := Create(policy, f, priority, at);
    var states, moves := StartedRun(r, policy, f, priority, at);
    states, moves := Extend(states, moves, ResolveRead(2, f, later));
    states, moves := BreachedRun(states, moves, states[|moves|], f, now);
    var e := Tagged(Check(r, now).1.value, 0);
    OfOneMore([], e, 0);
    states, moves := Extend(states, moves, ResolveWrite(2));
    assert Trail(states[|moves|].trails, f) == [] + [e];
  }

  // A removal between the read and the write of a second check: the record says it was breached, and its
  // event is gone.
  lemma RemovalLeavesLevel(policy: Policy, priority: Priority, f: int, at: int, now: int, later: int)
    requires priority in policy && policy[priority].Some? && at + policy[priority].value <= now < later
    ensures exists states: seq<State>, moves: seq<Move> ::
              && Run(states, moves) && |moves| > 0 && moves[|moves| - 1] == Write(0)
              && f in states[|moves|].cells && states[|moves|].cells[f].record.level == 1
              && Trail(states[|moves|].trails, f) == []
              && !Pending(Holder(states[|moves|]), f, states[|moves|].cells[f].life)
  {
    var r := Create(policy, f, priority, at);
    var states, moves := StartedRun(r, policy, f, priority, at);
    states, moves := BreachedRun(states, moves, states[|moves|], f, now);
    states, moves := OpenCheck(states, moves, f, later);
    states, moves := Extend(states, moves, Remove(f));
    states, moves := Extend(states, moves, Write(0));
  }
}
