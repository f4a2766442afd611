/** The services that sequence the store's writes around a stage's own work. */
module ScanRunService {
  import opened Wrappers
  import opened ScanRuns
  import opened ScanRunMirror
  import ScanRunStore

  // What the work of a stage comes to: a result, perhaps one that counts as failed; an exception; or a
  // result on which the test for failure itself raised.
  datatype Outcome = Value(failedWith: Option<int>) | Exception(error: int) | Unjudged(error: int)

  datatype Report = Report(files: int, findings: seq<int>)

  // How the scan stage's own work went: what it reports, or what it had registered when it broke off.
  datatype Scanned = Done(report: Report) | Broken(registered: seq<int>, error: int)

  // When the project was prepared, and when the run and its scan stage began and ended.
  datatype Clock = Clock(preparedAt: int, now: int, scanAt: int, scannedAt: int, endedAt: int)

  datatype ContextError = UnknownRun | Foreign(findings: seq<int>)

  function EndingOf(o: Outcome): (ending: Ending)
    requires !o.Unjudged?
  {
    match o
    case Exception(error) => Raised(error)
    case Value(failedWith) => if failedWith.Some? then Raised(failedWith.value) else Returned
  }

  function Registered(scanned: Scanned): (findings: seq<int>)
  {
    if scanned.Done? then scanned.report.findings else scanned.registered
  }

  function OutcomeOf(scanned: Scanned): (o: Outcome)
  {
    if scanned.Done? then Value(None) else Exception(scanned.error)
  }

  // All stages of a new run are pending.
  function AfterRegister(s: Store, run: int, names: seq<StageName>): (r: Store)
  {
    if names == [] then s
    else AfterStage(AfterRegister(s, run, names[..|names| - 1]), PendingStage(Key(run, names[|names| - 1])))
  }

  lemma {:induction false} RegisteredStages(s: Store, run: int, names: seq<StageName>)
    ensures var after := AfterRegister(s, run, names);
            && after.runs == s.runs && after.executions == s.executions && after.lineage == s.lineage
            && forall key: Key :: if key.run == run && key.name in names
                             then key in after.stages && after.stages[key] == PendingStage(key)
                             else (key in after.stages <==> key in s.stages)
                                  && (key in s.stages ==> after.stages[key] == s.stages[key])
  {
    if names != [] {
      RegisteredStages(s, run, names[..|names| - 1]);
      assert names == names[..|names| - 1] + [names[|names| - 1]];
    }
  }

  function AfterFindings(s: Store, run: int, findings: seq<int>): (r: Store)
  {
    if findings == [] then s
    else AfterLineage(AfterFindings(s, run, findings[..|findings| - 1]), run, findings[|findings| - 1])
  }

  lemma {:induction false} FindingsProduced(s: Store, run: int, findings: seq<int>)
    ensures var after := AfterFindings(s, run, findings);
            && after.runs == s.runs && after.stages == s.stages && after.executions == s.executions
            && (forall f :: f in Produced(after.lineage, run) <==> f in Produced(s.lineage, run) || f in findings)
            && (forall r :: r != run ==> Produced(after.lineage, r) == Produced(s.lineage, r))
  {
    if findings != [] {
      FindingsProduced(s, run, findings[..|findings| - 1]);
      assert findings == findings[..|findings| - 1] + [findings[|findings| - 1]];
    }
  }

  function FirstRun(project: int, run: int, now: int): (r: ScanRun)
  {
    ScanRun(run, project, Running, now, None, None, None, None)
  }

  function FinalRun(project: int, run: int, clock: Clock, scanned: Scanned): (r: ScanRun)
  {
    var first := FirstRun(project, run, clock.now);
    match scanned
    case Broken(_, error) => first.(status := Failed, completedAt := Some(clock.endedAt), error := Some(error))
    case Done(report) =>
      first.(status := Completed, completedAt := Some(clock.endedAt), files := Some(report.files),
             findings := Some(|report.findings|))
  }

  // One recorded stage execution, whose work registers some findings for the run before it ends.
  function AfterRecorded(s: Store, key: Key, id: int, begunAt: int, produced: seq<int>, o: Outcome, endedAt: int)
    : (after: Store)
  {
    var worked := AfterFindings(AfterBegin(s, key, id, begunAt), key.run, produced);
    if o.Unjudged? then worked else AfterFinish(worked, key, id, EndingOf(o), endedAt)
  }

  // A call whose test for failure raises leaves its entry, and its stage, running.
  lemma UnjudgedStaysRunning(s: Store, key: Key, id: int, begunAt: int, produced: seq<int>, error: int, endedAt: int)
    ensures var after := AfterRecorded(s, key, id, begunAt, produced, Unjudged(error), endedAt);
            && after.executions == AfterBegin(s, key, id, begunAt).executions
            && after.stages == AfterBegin(s, key, id, begunAt).stages
            && key in after.stages && after.stages[key].status == Running
  {
    FindingsProduced(AfterBegin(s, key, id, begunAt), key.run, produced);
  }

  function AfterPrepared(s: Store, project: int, run: int, prepare: int, clock: Clock): (after: Store)
  {
    var registered := AfterRegister(AfterRun(s, FirstRun(project, run, clock.now)), run, STAGE_NAMES);
    var begun := AfterBegin(registered, Key(run, Prepare), prepare, clock.preparedAt);
    AfterFinish(begun, Key(run, Prepare), prepare, Returned, clock.preparedAt)
  }

  function AfterScanStage(s: Store, run: int, scan: int, clock: Clock, scanned: Scanned): (after: Store)
  {
    AfterRecorded(s, Key(run, Scan), scan, clock.scanAt, Registered(scanned), OutcomeOf(scanned), clock.scannedAt)
  }

  function AfterScan(s: Store, project: int, run: int, prepare: int, scan: int, clock: Clock, scanned: Scanned)
    : (after: Store)
  {
    var prepared := AfterPrepared(s, project, run, prepare, clock);
    AfterRun(AfterScanStage(prepared, run, scan, clock, scanned), FinalRun(project, run, clock, scanned))
  }

  // Nothing in the store is of this run yet, or has one of these execution ids.
  ghost predicate New(s: Store, run: int, prepare: int, scan: int)
  {
    && run !in s.runs && run !in s.executions && run !in s.lineage && prepare != scan
    && (forall key :: key in s.stages ==> key.run != run)
    && (forall r, i: nat :: !FoundAt(s.executions, prepare, r, i) && !FoundAt(s.executions, scan, r, i))
  }

  // Ending the entry just appended to a run's history touches no other entry.
  lemma EndedAlone(executions: map<int, seq<Execution>>, run: int, history: seq<Execution>, e: Execution,
      ending: Ending, at: int)
    requires forall r, i: nat :: FoundAt(executions, e.id, r, i) ==> r == run
    requires forall i :: 0 <= i < |history| ==> history[i].id != e.id
    ensures EndedEverywhere(executions[run := history + [e]], e.id, ending, at)
            == executions[run := history + [Ended(e, ending, at)]]
  {
    var before := executions[run := history + [e]];
    assert EndedIn(history + [e], e.id, ending, at) == history + [Ended(e, ending, at)];
    forall r | r in executions && r != run
      ensures EndedIn(executions[r], e.id, ending, at) == executions[r]
    {
      forall i: nat | i < |executions[r]|
        ensures executions[r][i].id != e.id
      {
        assert !FoundAt(executions, e.id, r, i);
      }
      NotIn(executions[r], e.id, ending, at);
    }
    assert EndedEverywhere(before, e.id, ending, at) == executions[run := history + [Ended(e, ending, at)]];
  }

  lemma EveryName(name: StageName)
    ensures name in STAGE_NAMES
  {
    assert STAGE_NAMES[0] == Prepare && STAGE_NAMES[1] == Scan && STAGE_NAMES[2] == Deduplicate
           && STAGE_NAMES[3] == Risk;
    assert STAGE_NAMES[4] == Sla && STAGE_NAMES[5] == Validate && STAGE_NAMES[6] == Prove && STAGE_NAMES[7] == Approval;
  }

  // All stages pending except PREPARE, which was done once before the run.
  ghost predicate PreparedStages(before: map<Key, Stage>, after: map<Key, Stage>, run: int, preparedAt: int)
  {
    && (forall key: Key :: key.run != run ==>
          (key in after <==> key in before) && (key in before ==> after[key] == before[key]))
    && (forall name: StageName :: Key(run, name) in after
          && after[Key(run, name)] == if name == Prepare
                                      then Stage(Key(run, Prepare), Completed, Some(preparedAt), Some(preparedAt),
                                          None, 1, Some(preparedAt))
                                      else PendingStage(Key(run, name)))
  }

  function Prepared(run: int, prepare: int, preparedAt: int): (r: Execution)
  {
    Execution(prepare, Key(run, Prepare), Completed, preparedAt, Some(preparedAt), None)
  }

  // The store once the run is made and PREPARE is on record.
  ghost predicate IsPrepared(s: Store, after: Store, project: int, run: int, prepare: int, preparedAt: int, now: int)
  {
    && after.runs == s.runs[run := ScanRun(run, project, Running, now, None, None, None, None)]
    && after.executions == s.executions[run := [Prepared(run, prepare, preparedAt)]] && after.lineage == s.lineage
    && PreparedStages(s.stages, after.stages, run, preparedAt)
  }

  lemma AllRegistered(s: Store, run: int)
    ensures var after := AfterRegister(s, run, STAGE_NAMES);
            && after.runs == s.runs && after.executions == s.executions && after.lineage == s.lineage
            && (forall key: Key :: key.run != run ==>
                  (key in after.stages <==> key in s.stages)
                  && (key in s.stages ==> after.stages[key] == s.stages[key]))
            && forall name: StageName :: Key(run, name) in after.stages
                                         && after.stages[Key(run, name)] == PendingStage(Key(run, name))
  {
    RegisteredStages(s, run, STAGE_NAMES);
    forall name: StageName
      ensures name in STAGE_NAMES
    {
      EveryName(name);
    }
  }

  lemma PreparedStore(s: Store, project: int, run: int, prepare: int, scan: int, clock: Clock)
    requires New(s, run, prepare, scan)
    ensures IsPrepared(s, AfterPrepared(s, project, run, prepare, clock), project, run, prepare, clock.preparedAt,
            clock.now)
  {
    var preparedAt := clock.preparedAt;
    var first := AfterRun(s, FirstRun(project, run, clock.now));
    AllRegistered(first, run);
    var e := Started(Key(run, Prepare), prepare, preparedAt);
    assert [] + [e] == [e] && [] + [Ended(e, Returned, preparedAt)] == [Ended(e, Returned, preparedAt)];
    EndedAlone(s.executions, run, [], e, Returned, preparedAt);
  }

  // The SCAN stage of a run on which only PREPARE was executed.
  lemma ScanStageStore(s: Store, run: int, scan: int, clock: Clock, scanned: Scanned, done: Execution)
    requires run in s.executions && s.executions[run] == [done] && done.id != scan
    requires forall r, i: nat :: !FoundAt(s.executions, scan, r, i)
    requires CountAt(s.stages, Key(run, Scan)) == 0
    ensures var after := AfterScanStage(s, run, scan, clock, scanned);
            && after.runs == s.runs
            && after.executions == s.executions[run := [done, ScanExecution(run, scan, clock, scanned)]]
            && after.stages == s.stages[Key(run, Scan) := ScanStage(run, clock, scanned)]
            && (forall f :: f in Produced(after.lineage, run) <==>
                f in Produced(s.lineage, run) || f in Registered(scanned))
            && (forall r :: r != run ==> Produced(after.lineage, r) == Produced(s.lineage, r))
  {
    var e := Started(Key(run, Scan), scan, clock.scanAt);
    var ending := EndingOf(OutcomeOf(scanned));
    var begun := AfterBegin(s, Key(run, Scan), scan, clock.scanAt);
    EndedAlone(s.executions, run, [done], e, ending, clock.scannedAt);
    assert [done] + [Ended(e, ending, clock.scannedAt)] == [done, ScanExecution(run, scan, clock, scanned)];
    FindingsProduced(begun, run, Registered(scanned));
    assert AfterScanStage(s, run, scan, clock, scanned).stages
        == s.stages[Key(run, Scan) := ScanStage(run, clock, scanned)];
  }

  // How the scan stage ended, and with which error.
  function ScanExecution(run: int, scan: int, clock: Clock, scanned: Scanned): (e: Execution)
  {
    match scanned
    case Done(_) => Execution(scan, Key(run, Scan), Completed, clock.scanAt, Some(clock.scannedAt), None)
    case Broken(_, error) => Execution(scan, Key(run, Scan), Failed, clock.scanAt, Some(clock.scannedAt), Some(error))
  }

  function ScanStage(run: int, clock: Clock, scanned: Scanned): (stage: Stage)
  {
    var e := ScanExecution(run, 0, clock, scanned);
    Stage(e.key, e.status, Some(clock.scanAt), Some(clock.scannedAt), e.error, 1, Some(clock.scanAt))
  }

  // The run as it ends: completed with the report's counts, or failed with the error.
  function EndedRun(project: int, run: int, clock: Clock, scanned: Scanned): (r: ScanRun)
  {
    match scanned
    case Done(report) => ScanRun(run, project, Completed, clock.now, Some(clock.endedAt), Some(report.files),
                                 Some(|report.findings|), None)
    case Broken(_, error) => ScanRun(run, project, Failed, clock.now, Some(clock.endedAt), None, None, Some(error))
  }

  // Of the run's stages PREPARE is done, SCAN as it ended, every other one pending. Those of other runs stay.
  ghost predicate ScannedStages(before: map<Key, Stage>, after: map<Key, Stage>, run: int, clock: Clock,
      scanned: Scanned)
  {
    && (forall key: Key :: key.run != run ==>
          (key in after <==> key in before) && (key in before ==> after[key] == before[key]))
    && forall name: StageName :: Key(run, name) in after
         && after[Key(run, name)] ==
            match name
            case Prepare => Stage(Key(run, Prepare), Completed, Some(clock.preparedAt), Some(clock.preparedAt), None, 1,
                                  Some(clock.preparedAt))
            case Scan => ScanStage(run, clock, scanned)
            case _ => Stage(Key(run, name), Pending, None, None, None, 0, None)
  }

  // What a scan leaves on record of its run: its stages, one execution of each of the two that ran, the findings
  // registered, all of the report or those before it broke off, as its lineage, and the run as it ended. Other
  // runs are as they were.
  ghost predicate Recorded(s: Store, after: Store, project: int, run: int, prepare: int, scan: int, clock: Clock,
      scanned: Scanned)
  {
    && after.runs == s.runs[run := EndedRun(project, run, clock, scanned)]
    && after.executions
       == s.executions[run := [Prepared(run, prepare, clock.preparedAt), ScanExecution(run, scan, clock, scanned)]]
    && ScannedStages(s.stages, after.stages, run, clock, scanned)
    && (forall f :: f in Produced(after.lineage, run) <==>
          f in if scanned.Done? then scanned.report.findings else scanned.registered)
    && (forall r :: r != run ==> Produced(after.lineage, r) == Produced(s.lineage, r))
  }

  lemma Overwritten(executions: map<int, seq<Execution>>, run: int, first: seq<Execution>, second: seq<Execution>)
    ensures executions[run := first][run := second] == executions[run := second]
  {
  }

  lemma StagesScanned(before: map<Key, Stage>, p: map<Key, Stage>, run: int, clock: Clock, scanned: Scanned)
    requires PreparedStages(before, p, run, clock.preparedAt)
    ensures ScannedStages(before, p[Key(run, Scan) := ScanStage(run, clock, scanned)], run, clock, scanned)
  {
  }

  lemma ScanAfterPrepared(s: Store, p: Store, project: int, run: int, prepare: int, scan: int, clock: Clock,
      scanned: Scanned)
    requires run !in s.lineage && prepare != scan && forall r, i: nat :: !FoundAt(s.executions, scan, r, i)
    requires IsPrepared(s, p, project, run, prepare, clock.preparedAt, clock.now)
    ensures Recorded(s, AfterRun(AfterScanStage(p, run, scan, clock, scanned), FinalRun(project, run, clock, scanned)),
                     project, run, prepare, scan, clock, scanned)
  {
    assert p.stages[Key(run, Scan)] == PendingStage(Key(run, Scan));
    var done := Prepared(run, prepare, clock.preparedAt);
    NotFoundElsewhere(s.executions, p.executions, run, done, scan);
    ScanStageStore(p, run, scan, clock, scanned, done);
    StagesScanned(s.stages, p.stages, run, clock, scanned);
    var both := [done, ScanExecution(run, scan, clock, scanned)];
    Overwritten(s.executions, run, [done], both);
  }

  lemma NotFoundElsewhere(before: map<int, seq<Execution>>, after: map<int, seq<Execution>>, run: int, e: Execution,
      id: int)
    requires after == before[run := [e]] && e.id != id && forall r, i: nat :: !FoundAt(before, id, r, i)
    ensures forall r, i: nat :: !FoundAt(after, id, r, i)
  {
    forall r, i: nat
      ensures !FoundAt(after, id, r, i)
    {
      assert !FoundAt(before, id, r, i);
    }
  }

  lemma ScanRecorded(s: Store, project: int, run: int, prepare: int, scan: int, clock: Clock, scanned: Scanned)
    requires New(s, run, prepare, scan)
    ensures Recorded(s, AfterScan(s, project, run, prepare, scan, clock, scanned),
                     project, run, prepare, scan, clock, scanned)
  {
    PreparedStore(s, project, run, prepare, scan, clock);
    ScanAfterPrepared(s, AfterPrepared(s, project, run, prepare, clock), project, run, prepare, scan, clock, scanned);
  }

  // What recording one execution leaves: its entry and its stage completed without an error exactly if the work
  // came to a result not counted as failed, failed with the error of an exception or of such a result, and still
  // running if the test for failure raised.
  ghost predicate Left(s: Store, after: Store, key: Key, id: int, begunAt: int, o: Outcome, endedAt: int)
  {
    var (status, error, completedAt) := match o
      case Value(None) => (Completed, None, Some(endedAt))
      case Value(Some(message)) => (Failed, Some(message), Some(endedAt))
      case Exception(e) => (Failed, Some(e), Some(endedAt))
      case Unjudged(_) => (Running, None, None);
    && after.runs == s.runs
    && after.stages == s.stages[key := Stage(key, status, Some(begunAt), completedAt, error,
                                             CountAt(s.stages, key) + 1, Some(begunAt))]
    && after.executions == s.executions[key.run := History(s.executions, key.run)
                                                   + [Execution(id, key, status, begunAt, completedAt, error)]]
  }

  lemma ExecutionLeft(s: Store, key: Key, id: int, begunAt: int, produced: seq<int>, o: Outcome, endedAt: int)
    requires forall r, i: nat :: !FoundAt(s.executions, id, r, i)
    ensures Left(s, AfterRecorded(s, key, id, begunAt, produced, o, endedAt), key, id, begunAt, o, endedAt)
  {
    var begun, history := AfterBegin(s, key, id, begunAt), History(s.executions, key.run);
    FindingsProduced(begun, key.run, produced);
    if !o.Unjudged? {
      forall i | 0 <= i < |history|
        ensures history[i].id != id
      {
        assert !FoundAt(s.executions, id, key.run, i);
      }
      EndedAlone(s.executions, key.run, history, Started(key, id, begunAt), EndingOf(o), endedAt);
    }
  }

  lemma NotInMemory(s: Store, rows: Rows, id: int)
    requires Mirrored(s, rows) && id !in rows.executions
    ensures forall r, i: nat :: !FoundAt(s.executions, id, r, i)
  {
  }

  class ScanRunService {
    const store: ScanRunStore.ScanRunStore

    constructor (store: ScanRunStore.ScanRunStore)
      ensures this.store == store
    {
      this.store := store;
    }

    // A stage action may name a run only if that run exists and produced every finding acted on.
    method ValidateStageContext(run: int, findings: seq<int>) returns (refused: Option<ContextError>)
      ensures refused.None? <==> run in store.runs && forall f :: f in findings ==> f in Produced(store.lineage, run)
      ensures refused == Some(UnknownRun) <==> run !in store.runs
      ensures refused.Some? && refused.value.Foreign? ==>
                forall f :: f in refused.value.findings <==> f in findings && f !in Produced(store.lineage, run)
    {
      if run !in store.runs {
        return Some(UnknownRun);
      }
      var produced := Produced(store.lineage, run);
      var foreign: seq<int> := [];
      ghost var done: seq<int> := [];
      for i := 0 to |findings|
        invariant done == findings[..i]
        invariant forall f :: f in foreign <==> f in done && f !in produced
      {
        if findings[i] !in produced {
          foreign := foreign + [findings[i]];
        }
        done := done + [findings[i]];
      }
      assert done == findings;
      if foreign != [] {
        var f := foreign[0];
        assert f in foreign;
        return Some(Foreign(foreign));
      }
      refused := None;
    }

    method RegisterStages(run: int)
      requires store.Valid()
      modifies store
      ensures store.Valid() && store.Memory() == AfterRegister(old(store.Memory()), run, STAGE_NAMES)
      ensures store.rows.executions == old(store.rows.executions)
    {
      ghost var done: seq<StageName> := [];
      for i := 0 to |STAGE_NAMES|
        invariant store.Valid() && store.rows.executions == old(store.rows.executions)
        invariant done == STAGE_NAMES[..i] && store.Memory() == AfterRegister(old(store.Memory()), run, done)
      {
        assert (done + [STAGE_NAMES[i]])[..|done + [STAGE_NAMES[i]]| - 1] == done;
        store.UpsertStage(PendingStage(Key(run, STAGE_NAMES[i])));
        done := done + [STAGE_NAMES[i]];
      }
      assert done == STAGE_NAMES;
    }

    method RecordFindings(run: int, findings: seq<int>)
      requires store.Valid()
      modifies store
      ensures store.Valid() && store.Memory() == AfterFindings(old(store.Memory()), run, findings)
      ensures store.rows.executions == old(store.rows.executions)
    {
      ghost var done: seq<int> := [];
      for i := 0 to |findings|
        invariant store.Valid() && store.rows.executions == old(store.rows.executions)
        invariant done == findings[..i] && store.Memory() == AfterFindings(old(store.Memory()), run, done)
      {
        assert (done + [findings[i]])[..|done + [findings[i]]| - 1] == done;
        store.AddFindingLineage(run, findings[i]);
        done := done + [findings[i]];
      }
      assert done == findings;
    }

    // The stage's work registers findings for the run and comes to an outcome; raised says that the call
    // passes an exception on.
    method RecordStageExecution(key: Key, id: int, begunAt: int, produced: seq<int>, outcome: Outcome, endedAt: int)
      returns (raised: bool)
      requires store.Valid() && id !in store.rows.executions
      modifies store
      ensures store.Valid() && raised == !outcome.Value?
      ensures store.Memory() == AfterRecorded(old(store.Memory()), key, id, begunAt, produced, outcome, endedAt)
      ensures Left(old(store.Memory()), store.Memory(), key, id, begunAt, outcome, endedAt)
    {
      ghost var before := store.Memory();
      NotInMemory(before, store.rows, id);
      ExecutionLeft(before, key, id, begunAt, produced, outcome, endedAt);
      store.BeginStageExecution(key, id, begunAt);
      RecordFindings(key.run, produced);
      match outcome {
        case Exception(error) =>
          store.FinishStageExecution(key, id, Raised(error), endedAt);
          return true;
        case Unjudged(error) =>
          return true;
        case Value(failedWith) =>
          if failedWith.Some? {
            store.FinishStageExecution(key, id, Raised(failedWith.value), endedAt);
            return false;
          }
          store.FinishStageExecution(key, id, Returned, endedAt);
          raised := false;
      }
    }

    // One scan of a project: its run, the stages of the run, and what the scan found or why it failed.
    method ExecuteScan(project: int, run: int, prepare: int, scan: int, clock: Clock, scanned: Scanned)
      returns (record: ScanRun, raised: bool)
      requires store.Valid() && prepare != scan
      requires prepare !in store.rows.executions && scan !in store.rows.executions
      modifies store
      ensures store.Valid() && raised == scanned.Broken?
      ensures store.Memory() == AfterScan(old(store.Memory()), project, run, prepare, scan, clock, scanned)
      ensures record == EndedRun(project, run, clock, scanned)
      ensures New(old(store.Memory()), run, prepare, scan) ==>
                Recorded(old(store.Memory()), store.Memory(), project, run, prepare, scan, clock, scanned)
    {
      if New(store.Memory(), run, prepare, scan) {
        ScanRecorded(store.Memory(), project, run, prepare, scan, clock, scanned);
      }
      var first := FirstRun(project, run, clock.now);
      store.CreateRun(first);
      RegisterStages(run);
      store.BeginStageExecution(Key(run, Prepare), prepare, clock.preparedAt);
      store.FinishStageExecution(Key(run, Prepare), prepare, Returned, clock.preparedAt);
      raised := RecordStageExecution(Key(run, Scan), scan, clock.scanAt, Registered(scanned), OutcomeOf(scanned),
          clock.scannedAt);
      match scanned {
        case Broken(registered, error) =>
          record := first.(status := Failed, completedAt := Some(clock.endedAt), error := Some(error));
        case Done(report) =>
          record := first.(status := Completed, completedAt := Some(clock.endedAt), files := Some(report.files),
                           findings := Some(|report.findings|));
      }
      store.CreateRun(record);
    }
  }
}
