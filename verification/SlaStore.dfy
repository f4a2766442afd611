/** The SLA records and escalation events of all findings, and the cycle that checks every record. */
module SlaStore {
  import opened Wrappers
  import opened Sla

  datatype Store = Store(records: map<int, Record>, events: map<int, seq<Escalation>>)

  // What the mirroring database does when a check of one finding writes to it.
  datatype Fault = Works | RecordWriteFails | EventWriteFails

  datatype Outcome = Missing | Checked(record: Record, event: Option<Escalation>) | Raised

  datatype Stats = Stats(inspected: nat, breached: nat, skipped: nat, errors: nat)

  function EventsOf(s: Store, finding: int): (r: seq<Escalation>)
  {
    if finding in s.events then s.events[finding] else []
  }

  function FaultAt(faults: map<int, Fault>, finding: int): (r: Fault)
  {
    if finding in faults then faults[finding] else Works
  }

  function Appended(s: Store, e: Escalation): (r: Store)
  {
    s.(events := s.events[e.finding := EventsOf(s, e.finding) + [e]])
  }

  // The record is kept in memory before its row is written, and so is the event.
  function AfterCheck(s: Store, finding: int, now: int, fault: Fault): (r: (Store, Outcome))
  {
    if finding !in s.records then (s, Missing)
    else
      var (updated, event) := Check(s.records[finding], now);
      var kept := s.(records := s.records[finding := updated]);
      if updated == s.records[finding] then (s, Checked(updated, event))
      else if fault == RecordWriteFails then (kept, Raised)
      else if event.None? then (kept, Checked(updated, event))
      else if fault == EventWriteFails then (Appended(kept, event.value), Raised)
      else (Appended(kept, event.value), Checked(updated, event))
  }

  // A start keeps a record of the same priority, whatever has become of it.
  function AfterStart(s: Store, policy: Policy, finding: int, priority: Priority, now: int): (r: Store)
  {
    if finding in s.records && s.records[finding].priority == priority then s
    else s.(records := s.records[finding := Create(policy, finding, priority, now)])
  }

  function AfterResolve(s: Store, finding: int, at: int): (r: Store)
  {
    if finding !in s.records then s
    else s.(records := s.records[finding := Resolve(s.records[finding], at)])
  }

  function AfterRemove(s: Store, finding: int): (r: Store)
  {
    Store(s.records - {finding}, s.events - {finding})
  }

  // ---------------------------------------------------------------- one cycle over all records

  function Counted(stats: Stats, o: Outcome): (r: Stats)
  {
    if o.Raised? then stats.(errors := stats.errors + 1)
    else if o.Checked? && o.event.Some? then stats.(breached := stats.breached + 1)
    else stats
  }

  // The records are listed once, at the start; whether one is checked is read off that list.
  function Cycle(s: Store, ids: seq<int>, now: int, faults: map<int, Fault>): (r: (Store, Stats))
    requires forall f :: f in ids ==> f in s.records
  {
    if ids == [] then (s, Stats(0, 0, 0, 0))
    else
      var rest, f := ids[..|ids| - 1], ids[|ids| - 1];
      assert f in ids;
      var (before, stats) := Cycle(s, rest, now, faults);
      var seen := stats.(inspected := stats.inspected + 1);
      if s.records[f].status != Active then (before, seen.(skipped := seen.skipped + 1))
      else
        var (after, outcome) := AfterCheck(before, f, now, FaultAt(faults, f));
        (after, Counted(seen, outcome))
  }

  ghost predicate Lists(ids: seq<int>, keys: set<int>)
  {
    (forall f :: f in ids <==> f in keys) && forall i, j :: 0 <= i < j < |ids| ==> ids[i] != ids[j]
  }

  class SlaService {
    var records: map<int, Record>
    var events: map<int, seq<Escalation>>
    const policy: Policy

    constructor (policy: Policy)
      ensures Now() == Store(map[], map[]) && this.policy == policy
    {
      records, events := map[], map[];
      this.policy := policy;
    }

    // The service as the routes make it, with the documented deadlines.
    constructor Default()
      ensures Now() == Store(map[], map[]) && policy == DEFAULT_DEADLINES
    {
      records, events := map[], map[];
      policy := DEFAULT_DEADLINES;
    }

    ghost function Now(): (r: Store)
      reads this
    {
      Store(records, events)
    }

    method CheckAndPersist(finding: int, now: int, fault: Fault) returns (outcome: Outcome)
      modifies this
      ensures (Now(), outcome) == AfterCheck(old(Now()), finding, now, fault)
    {
      if finding !in records {
        return Missing;
      }
      var record := records[finding];
      var (updated, event) := Check(record, now);
      if updated != record {
        records := records[finding := updated];
        if fault == RecordWriteFails {
          return Raised;
        }
      }
      if event.Some? {
        var e := event.value;
        var trail := if e.finding in events then events[e.finding] else [];
        events := events[e.finding := trail + [e]];
        if fault == EventWriteFails {
          return Raised;
        }
      }
      outcome := Checked(updated, event);
    }

    method StartSla(finding: int, priority: Priority, now: int) returns (record: Record)
      modifies this
      ensures Now() == AfterStart(old(Now()), policy, finding, priority, now)
      ensures finding in records && record == records[finding]
      ensures record == if finding in old(records) && old(records)[finding].priority == priority
                        then old(records)[finding] else Told(policy, finding, priority, now, [])
    {
      if finding in records && records[finding].priority == priority {
        return records[finding];
      }
      record := Create(policy, finding, priority, now);
      records := records[finding := record];
    }

    method ResolveSla(finding: int, at: int) returns (record: Option<Record>)
      modifies this
      ensures Now() == AfterResolve(old(Now()), finding, at)
      ensures record == if finding in records then Some(records[finding]) else None
    {
      if finding !in records {
        return None;
      }
      var updated := Resolve(records[finding], at);
      records := records[finding := updated];
      record := Some(updated);
    }

    method RemoveFindingState(finding: int)
      modifies this
      ensures Now() == AfterRemove(old(Now()), finding)
    {
      records := records - {finding};
      events := events - {finding};
    }

    method ListIds() returns (ids: seq<int>)
      ensures Lists(ids, records.Keys)
    {
      ids := [];
      var todo := records.Keys;
      while todo != {}
        invariant todo <= records.Keys && Lists(ids, records.Keys - todo)
        decreases |todo|
      {
        var f := Choose(todo);
        ids := ids + [f];
        todo := todo - {f};
      }
    }

    method EvaluateOnce(now: int, faults: map<int, Fault>) returns (stats: Stats, ghost ids: seq<int>)
      modifies this
      ensures Lists(ids, old(records).Keys)
      ensures Now() == Cycle(old(Now()), ids, now, faults).0 && stats == Cycle(old(Now()), ids, now, faults).1
    {
      var listed := ListIds();
      var snapshot := records;
      ids := listed;
      ghost var before := Now();
      var breached, skipped, errors := 0, 0, 0;
      ghost var done: seq<int> := [];
      for i := 0 to |listed|
        invariant done == listed[..i]
        invariant Now() == Cycle(before, done, now, faults).0
        invariant Stats(i, breached, skipped, errors) == Cycle(before, done, now, faults).1
      {
        var f := listed[i];
        ghost var next := done + [f];
        assert f in listed && next[..|next| - 1] == done && next[|next| - 1] == f;
        if snapshot[f].status != Active {
          skipped := skipped + 1;
        } else {
          var outcome := CheckAndPersist(f, now, FaultAt(faults, f));
          if outcome.Raised? {
            errors := errors + 1;
          } else if outcome.Checked? && outcome.event.Some? {
            breached := breached + 1;
          }
        }
        done := next;
      }
      assert done == listed;
      stats := Stats(|listed|, breached, skipped, errors);
    }
  }

  // ---------------------------------------------------------------- what a cycle does to each finding

  ghost predicate Healthy(s: Store)
  {
    forall f :: f in s.records ==> Sane(s.records[f]) && s.records[f].finding == f
  }

  predicate Due(s: Store, f: int, now: int)
  {
    f in s.records && s.records[f].status == Active && s.records[f].dueAt.Some? && s.records[f].dueAt.value <= now
  }

  function RecordAfter(s: Store, f: int, now: int): (r: Record)
    requires f in s.records
  {
    if s.records[f].status == Active then Check(s.records[f], now).0 else s.records[f]
  }

  // The events a cycle leaves in memory for one finding.
  function Emitted(s: Store, f: int, now: int, fault: Fault): (r: seq<Escalation>)
    requires f in s.records
  {
    if Due(s, f, now) && fault != RecordWriteFails then AsSeq(Check(s.records[f], now).1) else []
  }

  // The check of this finding writes, and a write of its fails.
  predicate Fails(s: Store, f: int, now: int, fault: Fault)
    requires f in s.records
  {
    && s.records[f].status == Active && RecordAfter(s, f, now) != s.records[f]
    && (fault == RecordWriteFails || (fault == EventWriteFails && Due(s, f, now)))
  }

  function Escalating(s: Store, ids: seq<int>, now: int, faults: map<int, Fault>): (r: set<int>)
  {
    set f | f in ids && Due(s, f, now) && FaultAt(faults, f) == Works
  }

  function Failing(s: Store, ids: seq<int>, now: int, faults: map<int, Fault>): (r: set<int>)
  {
    set f | f in ids && f in s.records && Fails(s, f, now, FaultAt(faults, f))
  }

  function Skipped(s: Store, ids: seq<int>): (r: set<int>)
  {
    set f | f in ids && f in s.records && s.records[f].status != Active
  }

  lemma CheckOfOne(s: Store, f: int, now: int, fault: Fault)
    requires f in s.records && Sane(s.records[f]) && s.records[f].finding == f && s.records[f].status == Active
    ensures var (after, outcome) := AfterCheck(s, f, now, fault);
            && after.records == s.records[f := RecordAfter(s, f, now)]
            && (forall g :: EventsOf(after, g) == EventsOf(s, g) + (if g == f then Emitted(s, f, now, fault) else []))
            && (outcome.Raised? <==> Fails(s, f, now, fault))
            && (outcome.Checked? && outcome.event.Some? <==> Due(s, f, now) && fault == Works)
  {
    assert s.records[f := s.records[f]] == s.records;
  }

  // A check finds nothing only without a record, raises only when the database does, and otherwise answers with the
  // record it leaves.
  lemma CheckAnswer(s: Store, f: int, now: int, fault: Fault)
    ensures var (after, outcome) := AfterCheck(s, f, now, fault);
            && (outcome == Missing <==> f !in s.records) && (outcome == Missing ==> after == s)
            && (outcome == Raised ==> fault != Works)
            && (outcome.Checked? ==> f in after.records && after.records[f] == outcome.record)
  {
  }

  // What has become of one finding, whether it was listed or not.
  ghost predicate Treated(s: Store, f: int, listed: bool, now: int, fault: Fault, after: Store)
    requires f in s.records
  {
    && f in after.records
    && after.records[f] == (if listed then RecordAfter(s, f, now) else s.records[f])
    && EventsOf(after, f) == (if listed then EventsOf(s, f) + Emitted(s, f, now, fault) else EventsOf(s, f))
  }

  // Each listed finding is treated on its own, whatever the others' writes do.
  ghost predicate Pointwise(s: Store, ids: seq<int>, now: int, faults: map<int, Fault>, after: Store)
  {
    && after.records.Keys == s.records.Keys
    && forall f :: f in s.records ==> Treated(s, f, f in ids, now, FaultAt(faults, f), after)
  }

  ghost predicate Distinct(ids: seq<int>)
  {
    forall i, j :: 0 <= i < j < |ids| ==> ids[i] != ids[j]
  }

  // One more listed finding.
  lemma PointwiseNext(s: Store, rest: seq<int>, f: int, now: int, faults: map<int, Fault>, before: Store, after: Store)
    requires Healthy(s) && f in s.records && f !in rest && Pointwise(s, rest, now, faults, before)
    requires s.records[f].status == Active
    requires after == AfterCheck(before, f, now, FaultAt(faults, f)).0
    ensures Pointwise(s, rest + [f], now, faults, after)
  {
    assert Treated(s, f, false, now, FaultAt(faults, f), before);
    CheckOfOne(before, f, now, FaultAt(faults, f));
    forall g | g in s.records
      ensures Treated(s, g, g in rest + [f], now, FaultAt(faults, g), after)
    {
      assert Treated(s, g, g in rest, now, FaultAt(faults, g), before);
      assert EventsOf(before, g) + [] == EventsOf(before, g);
    }
  }

  lemma PointwiseSkip(s: Store, rest: seq<int>, f: int, now: int, faults: map<int, Fault>, before: Store)
    requires Healthy(s) && f in s.records && f !in rest && Pointwise(s, rest, now, faults, before)
    requires s.records[f].status != Active
    ensures Pointwise(s, rest + [f], now, faults, before)
  {
    forall g | g in s.records
      ensures Treated(s, g, g in rest + [f], now, FaultAt(faults, g), before)
    {
      assert Treated(s, g, g in rest, now, FaultAt(faults, g), before);
      assert EventsOf(s, g) + [] == EventsOf(s, g);
    }
  }

  lemma {:induction false} CycleIsPointwise(s: Store, ids: seq<int>, now: int, faults: map<int, Fault>)
    requires Healthy(s) && Distinct(ids) && forall f :: f in ids ==> f in s.records
    ensures Pointwise(s, ids, now, faults, Cycle(s, ids, now, faults).0)
  {
    if ids != [] {
      var rest, f := ids[..|ids| - 1], ids[|ids| - 1];
      assert ids == rest + [f] && f !in rest;
      CycleIsPointwise(s, rest, now, faults);
      var before, after := Cycle(s, rest, now, faults).0, Cycle(s, ids, now, faults).0;
      if s.records[f].status == Active {
        PointwiseNext(s, rest, f, now, faults, before, after);
      } else {
        PointwiseSkip(s, rest, f, now, faults, before);
      }
    }
  }

  lemma EscalatingNext(s: Store, rest: seq<int>, f: int, now: int, faults: map<int, Fault>)
    requires f !in rest
    ensures var one := if Due(s, f, now) && FaultAt(faults, f) == Works then {f} else {};
            |Escalating(s, rest + [f], now, faults)| == |Escalating(s, rest, now, faults)| + |one|
  {
    var one := if Due(s, f, now) && FaultAt(faults, f) == Works then {f} else {};
    assert Escalating(s, rest + [f], now, faults) == Escalating(s, rest, now, faults) + one;
  }

  lemma SkippedNext(s: Store, rest: seq<int>, f: int)
    requires f in s.records && f !in rest
    ensures |Skipped(s, rest + [f])| == |Skipped(s, rest)| + (if s.records[f].status != Active then 1 else 0)
  {
    assert Skipped(s, rest + [f]) == Skipped(s, rest) + (if s.records[f].status != Active then {f} else {});
  }

  lemma FailingNext(s: Store, rest: seq<int>, f: int, now: int, faults: map<int, Fault>)
    requires f in s.records && f !in rest
    ensures var one := if Fails(s, f, now, FaultAt(faults, f)) then {f} else {};
            |Failing(s, rest + [f], now, faults)| == |Failing(s, rest, now, faults)| + |one|
  {
    var one := if Fails(s, f, now, FaultAt(faults, f)) then {f} else {};
    assert Failing(s, rest + [f], now, faults) == Failing(s, rest, now, faults) + one;
  }

  // How one more finding moves the counters.
  lemma StatsNext(s: Store, rest: seq<int>, f: int, now: int, faults: map<int, Fault>)
    requires Healthy(s) && Distinct(rest) && f !in rest && f in s.records && forall g :: g in rest ==> g in s.records
    ensures var before, after := Cycle(s, rest, now, faults).1, Cycle(s, rest + [f], now, faults).1;
            var fault := FaultAt(faults, f);
            && after.inspected == before.inspected + 1
            && after.breached == before.breached + (if Due(s, f, now) && fault == Works then 1 else 0)
            && after.skipped == before.skipped + (if s.records[f].status != Active then 1 else 0)
            && after.errors == before.errors + (if Fails(s, f, now, fault) then 1 else 0)
  {
    assert (rest + [f])[..|rest|] == rest;
    CycleIsPointwise(s, rest, now, faults);
    var before := Cycle(s, rest, now, faults).0;
    assert Treated(s, f, false, now, FaultAt(faults, f), before);
    if s.records[f].status == Active {
      CheckOfOne(before, f, now, FaultAt(faults, f));
    }
  }

  lemma {:induction false} CycleCounts(s: Store, ids: seq<int>, now: int, faults: map<int, Fault>)
    requires Healthy(s) && Distinct(ids) && forall f :: f in ids ==> f in s.records
    ensures Cycle(s, ids, now, faults).1
            == Stats(|ids|, |Escalating(s, ids, now, faults)|, |Skipped(s, ids)|, |Failing(s, ids, now, faults)|)
  {
    if ids == [] {
      assert Escalating(s, ids, now, faults) == {} && Skipped(s, ids) == {} && Failing(s, ids, now, faults) == {};
    } else {
      var rest, f := ids[..|ids| - 1], ids[|ids| - 1];
      assert ids == rest + [f] && f !in rest;
      CycleCounts(s, rest, now, faults);
      StatsNext(s, rest, f, now, faults);
      EscalatingNext(s, rest, f, now, faults);
      SkippedNext(s, rest, f);
      FailingNext(s, rest, f, now, faults);
    }
  }

  // ---------------------------------------------------------------- the promises of a cycle

  ghost predicate Faultless(s: Store, faults: map<int, Fault>)
  {
    forall f :: f in s.records && f in faults ==> faults[f] == Works
  }

  // The findings whose trail a cycle made longer.
  function Grown(s: Store, after: Store): (r: set<int>)
  {
    set f | f in s.records && EventsOf(after, f) != EventsOf(s, f)
  }

  lemma TreatedHealthy(s: Store, f: int, now: int, fault: Fault, after: Store)
    requires Healthy(s) && f in s.records && Treated(s, f, true, now, fault, after)
    ensures Sane(after.records[f]) && after.records[f].finding == f && !Due(after, f, now)
    ensures RecordAfter(after, f, now) == after.records[f]
    ensures EventsOf(after, f) != EventsOf(s, f) <==> Due(s, f, now) && fault != RecordWriteFails
    ensures EventsOf(after, f) != EventsOf(s, f) ==> EventsOf(after, f) == EventsOf(s, f) + Expected(after.records[f])
  {
    CheckSteps(s.records[f], now);
    assert |EventsOf(s, f) + Emitted(s, f, now, fault)| == |EventsOf(s, f)| + |Emitted(s, f, now, fault)|;
  }

  lemma CycleHealthy(s: Store, ids: seq<int>, now: int, faults: map<int, Fault>)
    requires Healthy(s) && Lists(ids, s.records.Keys)
    ensures var after := Cycle(s, ids, now, faults).0;
            && Healthy(after) && after.records.Keys == s.records.Keys
            && (forall f :: f in s.records ==>
                  && !Due(after, f, now) && RecordAfter(after, f, now) == after.records[f]
                  && (f in Grown(s, after) <==> Due(s, f, now) && FaultAt(faults, f) != RecordWriteFails)
                  && (f in Grown(s, after) ==> EventsOf(after, f) == EventsOf(s, f) + Expected(after.records[f])))
  {
    var after := Cycle(s, ids, now, faults).0;
    CycleIsPointwise(s, ids, now, faults);
    forall f | f in s.records
      ensures Sane(after.records[f]) && after.records[f].finding == f && !Due(after, f, now)
      ensures RecordAfter(after, f, now) == after.records[f]
      ensures f in Grown(s, after) <==> Due(s, f, now) && FaultAt(faults, f) != RecordWriteFails
      ensures f in Grown(s, after) ==> EventsOf(after, f) == EventsOf(s, f) + Expected(after.records[f])
    {
      assert Treated(s, f, f in ids, now, FaultAt(faults, f), after);
      TreatedHealthy(s, f, now, FaultAt(faults, f), after);
    }
  }

  // Without failing writes: nothing active is left overdue, each trail grows by at most the one event the
  // record expects, and the count reported is the number of trails that grew.
  lemma CleanCycle(s: Store, ids: seq<int>, now: int, faults: map<int, Fault>)
    requires Healthy(s) && Lists(ids, s.records.Keys) && Faultless(s, faults)
    ensures var (after, stats) := Cycle(s, ids, now, faults);
            && Healthy(after) && stats.errors == 0 && stats.breached == |Grown(s, after)|
            && (forall f :: f in after.records ==> !Due(after, f, now))
            && (forall f :: f in Grown(s, after) && f in after.records ==>
                  EventsOf(after, f) == EventsOf(s, f) + Expected(after.records[f]))
  {
    var after := Cycle(s, ids, now, faults).0;
    CycleHealthy(s, ids, now, faults);
    CycleCounts(s, ids, now, faults);
    assert Grown(s, after) == Escalating(s, ids, now, faults);
    assert Failing(s, ids, now, faults) == {};
  }

  // A second cycle at the same time changes nothing at all, whatever the database does then.
  lemma SecondCycleIdle(s: Store, ids: seq<int>, more: seq<int>, now: int, faults: map<int, Fault>,
      later: map<int, Fault>)
    requires Healthy(s) && Lists(ids, s.records.Keys) && Lists(more, s.records.Keys)
    ensures var after := Cycle(s, ids, now, faults).0;
            && after.records.Keys == s.records.Keys
            && var (again, stats) := Cycle(after, more, now, later);
               && again.records == after.records && Grown(after, again) == {}
               && stats.breached == 0 && stats.errors == 0
  {
    var after := Cycle(s, ids, now, faults).0;
    CycleHealthy(s, ids, now, faults);
    CycleHealthy(after, more, now, later);
    CycleCounts(after, more, now, later);
    CycleIsPointwise(after, more, now, later);
    var again := Cycle(after, more, now, later).0;
    forall f | f in after.records
      ensures f in again.records && again.records[f] == after.records[f]
    {
      assert Treated(after, f, f in more, now, FaultAt(later, f), again);
    }
    assert Escalating(after, more, now, later) == {} && Failing(after, more, now, later) == {};
  }

  // When a record's own row cannot be written the breach is kept but its event never is: this is the one
  // way a cycle can lose one, and no later check makes up for it.
  lemma EventLostIff(s: Store, ids: seq<int>, now: int, faults: map<int, Fault>, f: int)
    requires Healthy(s) && Lists(ids, s.records.Keys) && f in s.records && EventsOf(s, f) == Expected(s.records[f])
    ensures var after := Cycle(s, ids, now, faults).0;
            && f in after.records && Sane(after.records[f])
            && (EventsOf(after, f) != Expected(after.records[f])
                <==> Due(s, f, now) && FaultAt(faults, f) == RecordWriteFails)
            && (EventsOf(after, f) != Expected(after.records[f]) ==>
                forall later: int :: Check(after.records[f], later).1.None?)
  {
    CycleIsPointwise(s, ids, now, faults);
    assert Treated(s, f, f in ids, now, FaultAt(faults, f), Cycle(s, ids, now, faults).0);
    CheckSteps(s.records[f], now);
  }
}
