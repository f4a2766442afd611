/**
 Where lives and escalations come from, however threads and calls interleave: every life was started by a call
 that gives it its deadline from its policy, and every event names that deadline and the check that found it
 passed.
 */
module SlaStarts {
  import opened Wrappers
  import opened Sla
  import opened SlaConcurrent

  // A record as it is started: due when the policy says, counted from the time of the start.
  ghost predicate DueByPolicy(r: Record, policy: Policy, at: int)
  {
    && r.startedAt == at && r.breachedAt.None? && r.resolvedAt.None? && r.checkedAt.None? && r.level == 0
    && if r.priority in policy && policy[r.priority].Some?
       then r.status == Active && r.dueAt == Some(at + policy[r.priority].value)
       else r.status == NotApplicable && r.dueAt.None?
  }

  ghost predicate StartedBy(moves: seq<Move>, n: nat, r: Record)
    requires n <= |moves|
  {
    exists i {:trigger moves[i]} :: 0 <= i < n && moves[i].StartRead? && moves[i].finding == r.finding
                                    && moves[i].priority == r.priority && DueByPolicy(r, moves[i].policy, moves[i].at)
  }

  ghost predicate CheckedBy(moves: seq<Move>, n: nat, f: int, now: int)
    requires n <= |moves|
  {
    exists i {:trigger moves[i]} :: 0 <= i < n && moves[i].Acquire? && moves[i].finding == f && moves[i].now == now
  }

  // An event is of its life's finding and priority, names its deadline, and a check came no earlier.
  ghost predicate EventFits(e: Escalation, f: int, life: nat, births: seq<Record>, moves: seq<Move>, n: nat)
    requires n <= |moves|
  {
    && life < |births| && births[life].finding == f && e.finding == f && e.priority == births[life].priority
    && births[life].dueAt == Some(e.due) && e.due <= e.at && e.previousLevel == 0 && e.newLevel == 1
    && CheckedBy(moves, n, f, e.at)
  }

  ghost predicate BirthsTold(s: State, moves: seq<Move>, n: nat)
    requires n <= |moves|
  {
    && (forall life :: 0 <= life < |s.births| ==> StartedBy(moves, n, s.births[life]))
    && (forall k :: k in s.calls && s.calls[k].Starting? ==> StartedBy(moves, n, s.calls[k].record))
  }

  ghost predicate TrailTold(trail: seq<Tagged>, f: int, births: seq<Record>, moves: seq<Move>, n: nat)
    requires n <= |moves|
  {
    forall k :: 0 <= k < |trail| ==> EventFits(trail[k].event, f, trail[k].life, births, moves, n)
  }

  ghost predicate TrailsTold(s: State, moves: seq<Move>, n: nat)
    requires n <= |moves|
  {
    forall f :: TrailTold(Trail(s.trails, f), f, s.births, moves, n)
  }

  ghost predicate HolderTold(holder: Thread, births: seq<Record>, moves: seq<Move>, n: nat)
    requires n <= |moves|
  {
    match holder
    case Holding(f, now) => CheckedBy(moves, n, f, now)
    case Computed(f, read, _, event, _) => event.Some? ==> EventFits(event.value, f, read.life, births, moves, n)
    case Stored(f, life, event) => event.Some? ==> EventFits(event.value, f, life, births, moves, n)
    case _ => true
  }

  lemma StartedLater(moves: seq<Move>, n: nat, r: Record)
    requires n < |moves| && StartedBy(moves, n, r)
    ensures StartedBy(moves, n + 1, r)
  {
    var i :| 0 <= i < n && moves[i].StartRead? && moves[i].finding == r.finding
             && moves[i].priority == r.priority && DueByPolicy(r, moves[i].policy, moves[i].at);
    assert moves[i] == moves[i];
  }

  lemma CheckedLater(moves: seq<Move>, n: nat, f: int, now: int)
    requires n < |moves| && CheckedBy(moves, n, f, now)
    ensures CheckedBy(moves, n + 1, f, now)
  {
    var i :| 0 <= i < n && moves[i].Acquire? && moves[i].finding == f && moves[i].now == now;
    assert moves[i] == moves[i];
  }

  // ---------------------------------------------------------------- what a move does to each part of the state

  lemma BirthsAfter(s: State, m: Move)
    requires Enabled(s, m)
    ensures After(s, m).births == if m.StartWrite? then s.births + [s.calls[m.call].record] else s.births
  {
  }

  lemma CallAfter(s: State, m: Move, k: int)
    requires Enabled(s, m) && k in After(s, m).calls && After(s, m).calls[k].Starting?
    ensures (k in s.calls && s.calls[k] == After(s, m).calls[k])
            || (m.StartRead? && After(s, m).calls[k].record == Create(m.policy, m.finding, m.priority, m.at))
  {
  }

  lemma TrailAfter(s: State, m: Move, f: int)
    requires Enabled(s, m)
    ensures var before, after := Trail(s.trails, f), Trail(After(s, m).trails, f);
            || after == before || after == []
            || (m.Append? && var c := ThreadAt(s, m.thread);
                c.event.Some? && c.finding == f && after == before + [Tagged(c.event.value, c.life)])
  {
  }

  // While others start, resolve or remove, the thread with the lock stays where it is.
  lemma HolderAfter(s: State, m: Move)
    requires Enabled(s, m) && !m.Acquire? && !m.Read? && !m.Write? && !m.Append? && !m.Release?
    ensures Holder(After(s, m)) == Holder(s)
            || (Holder(s).Computed? && Holder(After(s, m)) == Holder(s).(since := Removal))
  {
  }

  // ---------------------------------------------------------------- each move keeps what is told

  lemma BirthsNext(s: State, after: State, moves: seq<Move>, n: nat)
    requires n < |moves| && Enabled(s, moves[n]) && after == After(s, moves[n]) && BirthsTold(s, moves, n)
    ensures BirthsTold(after, moves, n + 1)
  {
    var m := moves[n];
    BirthsAfter(s, m);
    forall life | 0 <= life < |after.births|
      ensures StartedBy(moves, n + 1, after.births[life])
    {
      if life < |s.births| {
        StartedLater(moves, n, s.births[life]);
      } else {
        StartedLater(moves, n, s.calls[m.call].record);
      }
    }
    forall k | k in after.calls && after.calls[k].Starting?
      ensures StartedBy(moves, n + 1, after.calls[k].record)
    {
      CallAfter(s, m, k);
      if k in s.calls && s.calls[k] == after.calls[k] {
        StartedLater(moves, n, s.calls[k].record);
      } else {
        StartedNow(moves, n);
      }
    }
  }

  // What a start writes is due as its policy says.
  lemma StartedNow(moves: seq<Move>, n: nat)
    requires n < |moves| && moves[n].StartRead?
    ensures StartedBy(moves, n + 1, Create(moves[n].policy, moves[n].finding, moves[n].priority, moves[n].at))
  {
    var m := moves[n];
    assert DueByPolicy(Create(m.policy, m.finding, m.priority, m.at), m.policy, m.at);
  }

  lemma FitsLater(e: Escalation, f: int, life: nat, births: seq<Record>, later: seq<Record>, moves: seq<Move>, n: nat)
    requires n < |moves| && EventFits(e, f, life, births, moves, n) && births <= later
    ensures EventFits(e, f, life, later, moves, n + 1)
  {
    CheckedLater(moves, n, f, e.at);
  }

  lemma TrailLater(trail: seq<Tagged>, f: int, births: seq<Record>, later: seq<Record>, moves: seq<Move>, n: nat)
    requires n < |moves| && TrailTold(trail, f, births, moves, n) && births <= later
    ensures TrailTold(trail, f, later, moves, n + 1)
  {
    forall k | 0 <= k < |trail|
      ensures EventFits(trail[k].event, f, trail[k].life, later, moves, n + 1)
    {
      FitsLater(trail[k].event, f, trail[k].life, births, later, moves, n);
    }
  }

  lemma TrailsNext(s: State, after: State, moves: seq<Move>, n: nat)
    requires n < |moves| && Enabled(s, moves[n]) && after == After(s, moves[n])
    requires TrailsTold(s, moves, n)
    requires moves[n].Append? ==> HolderTold(ThreadAt(s, moves[n].thread), s.births, moves, n)
    ensures TrailsTold(after, moves, n + 1)
  {
    BirthsAfter(s, moves[n]);
    forall f
      ensures TrailTold(Trail(after.trails, f), f, after.births, moves, n + 1)
    {
      TrailAfter(s, moves[n], f);
      var trail := if |Trail(after.trails, f)| > |Trail(s.trails, f)| || Trail(after.trails, f) == []
                   then Trail(after.trails, f) else Trail(s.trails, f);
      assert TrailTold(trail, f, s.births, moves, n);
      TrailLater(trail, f, s.births, after.births, moves, n);
    }
  }

  // The event of a check is of the record it read, whose birth fixed the deadline.
  lemma ReadTold(s: State, t: int, f: int, now: int, moves: seq<Move>, n: nat)
    requires n < |moves| && CellsFit(s.cells, s.births, s.breaches) && CheckedBy(moves, n, f, now)
    ensures HolderTold(ThreadAt(AfterRead(s, t, f, now), t), s.births, moves, n + 1)
  {
    if f in s.cells {
      CheckSteps(s.cells[f].record, now);
      CheckedLater(moves, n, f, now);
    }
  }

  lemma ToldLater(holder: Thread, births: seq<Record>, later: seq<Record>, moves: seq<Move>, n: nat)
    requires n < |moves| && HolderTold(holder, births, moves, n) && births <= later
    ensures HolderTold(holder, later, moves, n + 1)
  {
    match holder
    case Holding(f, now) => CheckedLater(moves, n, f, now);
    case Computed(f, read, _, event, _) =>
      if event.Some? {
        FitsLater(event.value, f, read.life, births, later, moves, n);
      }
    case Stored(f, life, event) =>
      if event.Some? {
        FitsLater(event.value, f, life, births, later, moves, n);
      }
    case _ =>
  }

  lemma TurnTold(s: State, moves: seq<Move>, n: nat)
    requires n < |moves| && Enabled(s, moves[n]) && Inv(s) && HolderTold(Holder(s), s.births, moves, n)
    requires moves[n].Write? || moves[n].Append?
    ensures HolderTold(Holder(After(s, moves[n])), s.births, moves, n + 1)
  {
    var m := moves[n];
    var c := ThreadAt(s, m.thread);
    assert Holder(s) == c;
    if m.Write? {
      var to := Stored(c.finding, c.read.life, c.event);
      HolderMoves(s, m.thread, to);
      assert Holder(After(s, m)) == to;
      ToldLater(to, s.births, s.births, moves, n);
    } else {
      HolderMoves(s, m.thread, Leaving);
      assert Holder(After(s, m)) == Leaving;
    }
  }

  lemma HolderNext(s: State, after: State, moves: seq<Move>, n: nat)
    requires n < |moves| && Enabled(s, moves[n]) && after == After(s, moves[n])
    requires Inv(s) && HolderTold(Holder(s), s.births, moves, n)
    ensures HolderTold(Holder(after), after.births, moves, n + 1)
  {
    var m := moves[n];
    BirthsAfter(s, m);
    match m
    case Acquire(t, f, now) =>
      assert moves[n].finding == f && moves[n].now == now;
      assert Holder(after) == Holding(f, now);
    case Read(t) =>
      HolderMoves(s, t, ThreadAt(after, t));
      assert Holder(s) == ThreadAt(s, t);
      ReadTold(s, t, ThreadAt(s, t).finding, ThreadAt(s, t).now, moves, n);
    case Write(t) => TurnTold(s, moves, n);
    case Append(t) => TurnTold(s, moves, n);
    case Release(t) => assert Holder(after) == Idle;
    case _ =>
      HolderAfter(s, m);
      ToldLater(Holder(s), s.births, after.births, moves, n);
  }

  lemma {:induction false} RunTold(states: seq<State>, moves: seq<Move>, n: nat)
    requires Run(states, moves) && n <= |moves|
    ensures BirthsTold(states[n], moves, n) && TrailsTold(states[n], moves, n)
    ensures HolderTold(Holder(states[n]), states[n].births, moves, n)
    decreases n
  {
    if n > 0 {
      var m := moves[n - 1];
      var s, after := states[n - 1], states[n];
      RunTold(states, moves, n - 1);
      RunKeeps(states, moves, n - 1);
      assert Enabled(s, m) && after == After(s, m);
      if m.Append? {
        assert Holder(s) == ThreadAt(s, m.thread);
      }
      BirthsNext(s, after, moves, n - 1);
      TrailsNext(s, after, moves, n - 1);
      HolderNext(s, after, moves, n - 1);
    }
  }

  // Every event of every trail: some call started its life with a deadline of its policy, counted from that call's
  // time, and some check came at or after that deadline, at the time the event gives.
  lemma EventHasStartAndCheck(states: seq<State>, moves: seq<Move>, n: nat, f: int, k: nat)
    requires Run(states, moves) && n <= |moves| && k < |Trail(states[n].trails, f)|
    ensures var e := Trail(states[n].trails, f)[k].event;
            && e.finding == f && e.due <= e.at && e.previousLevel == 0 && e.newLevel == 1
            && (exists i {:trigger moves[i]} :: 0 <= i < n && moves[i].StartRead? && moves[i].finding == f
                  && moves[i].priority == e.priority && e.priority in moves[i].policy
                  && moves[i].policy[e.priority] == Some(e.due - moves[i].at))
            && (exists i {:trigger moves[i]} :: 0 <= i < n && moves[i].Acquire? && moves[i].finding == f
                  && moves[i].now == e.at)
  {
    RunTold(states, moves, n);
    var entry := Trail(states[n].trails, f)[k];
    assert TrailTold(Trail(states[n].trails, f), f, states[n].births, moves, n);
    assert EventFits(entry.event, f, entry.life, states[n].births, moves, n);
    var r := states[n].births[entry.life];
    assert StartedBy(moves, n, r);
    var i :| 0 <= i < n && moves[i].StartRead? && moves[i].finding == r.finding
             && moves[i].priority == r.priority && DueByPolicy(r, moves[i].policy, moves[i].at);
    assert moves[i].StartRead?;
  }

  // Every life was started so.
  lemma LifeHasStart(states: seq<State>, moves: seq<Move>, n: nat, life: nat)
    requires Run(states, moves) && n <= |moves| && life < |states[n].births|
    ensures StartedBy(moves, n, states[n].births[life])
  {
    RunTold(states, moves, n);
  }
}
