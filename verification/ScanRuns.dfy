/**
 Scan runs: the state of each stage of a run, the append-only history of its executions, and which
 findings the run produced. Executions of stages overlap: each is one begin and one finish of the
 store, with anything in between.
 */
module ScanRuns {
  import opened Wrappers

  datatype StageName = Prepare | Scan | Deduplicate | Risk | Sla | Validate | Prove | Approval

  datatype Status = Pending | Running | Completed | Failed

  datatype ScanRun = ScanRun(id: int, project: int, status: Status, startedAt: int, completedAt: Option<int>,
                             files: Option<int>, findings: Option<int>, error: Option<int>)

  // A stage of a run. In the store each run has a dict of its stages.
  datatype Key = Key(run: int, name: StageName)

  datatype Stage = Stage(key: Key, status: Status, startedAt: Option<int>, completedAt: Option<int>,
                         error: Option<int>, count: nat, lastAt: Option<int>)

  datatype Execution = Execution(id: int, key: Key, status: Status, startedAt: int, completedAt: Option<int>,
                                 error: Option<int>)

  // How an execution ends: its function returned, or failed with an error.
  datatype Ending = Returned | Raised(error: int)

  datatype Store = Store(runs: map<int, ScanRun>, stages: map<Key, Stage>, executions: map<int, seq<Execution>>,
                         lineage: map<int, seq<int>>)

  const EMPTY := Store(map[], map[], map[], map[])

  const STAGE_NAMES: seq<StageName> := [Prepare, Scan, Deduplicate, Risk, Sla, Validate, Prove, Approval]

  function History(executions: map<int, seq<Execution>>, run: int): (r: seq<Execution>)
  {
    if run in executions then executions[run] else []
  }

  function Produced(lineage: map<int, seq<int>>, run: int): (r: seq<int>)
  {
    if run in lineage then lineage[run] else []
  }

  // ---------------------------------------------------------------- the store's writes

  function AfterRun(s: Store, r: ScanRun): (result: Store)
  {
    s.(runs := s.runs[r.id := r])
  }

  function AfterStage(s: Store, stage: Stage): (r: Store)
  {
    s.(stages := s.stages[stage.key := stage])
  }

  function PendingStage(key: Key): (r: Stage)
  {
    Stage(key, Pending, None, None, None, 0, None)
  }

  function Started(key: Key, id: int, at: int): (r: Execution)
  {
    Execution(id, key, Running, at, None, None)
  }

  function CountAt(stages: map<Key, Stage>, key: Key): (r: nat)
  {
    if key in stages then stages[key].count else 0
  }

  function AfterBegin(s: Store, key: Key, id: int, at: int): (r: Store)
  {
    var stage := Stage(key, Running, Some(at), None, None, CountAt(s.stages, key) + 1, Some(at));
    s.(executions := s.executions[key.run := History(s.executions, key.run) + [Started(key, id, at)]],
       stages := s.stages[key := stage])
  }

  function StatusOf(ending: Ending): (r: Status)
  {
    if ending.Returned? then Completed else Failed
  }

  function ErrorOf(ending: Ending): (r: Option<int>)
  {
    if ending.Returned? then None else Some(ending.error)
  }

  function Ended(e: Execution, ending: Ending, at: int): (r: Execution)
  {
    e.(status := StatusOf(ending), completedAt := Some(at), error := ErrorOf(ending))
  }

  function EndedIn(history: seq<Execution>, id: int, ending: Ending, at: int): (r: seq<Execution>)
    ensures |r| == |history|
  {
    seq(|history|, i requires 0 <= i < |history| =>
      if history[i].id == id then Ended(history[i], ending, at) else history[i])
  }

  // The entry with this id, wherever it is, is ended; without one nothing changes.
  function EndedEverywhere(executions: map<int, seq<Execution>>, id: int, ending: Ending,
      at: int): (r: map<int, seq<Execution>>)
  {
    map r | r in executions :: EndedIn(executions[r], id, ending, at)
  }

  function EndedStage(stages: map<Key, Stage>, key: Key, ending: Ending, at: int): (r: Stage)
  {
    var startedAt := if key in stages then stages[key].startedAt else None;
    var lastAt := if key in stages then stages[key].lastAt else None;
    Stage(key, StatusOf(ending), startedAt, Some(at), ErrorOf(ending), CountAt(stages, key), lastAt)
  }

  function AfterFinish(s: Store, key: Key, id: int, ending: Ending, at: int): (r: Store)
  {
    s.(executions := EndedEverywhere(s.executions, id, ending, at),
       stages := s.stages[key := EndedStage(s.stages, key, ending, at)])
  }

  function AfterLineage(s: Store, run: int, finding: int): (r: Store)
  {
    var ids := Produced(s.lineage, run);
    s.(lineage := s.lineage[run := if finding in ids then ids else ids + [finding]])
  }

  function RunsOf(runs: map<int, ScanRun>, project: int): (r: set<int>)
  {
    set r | r in runs && runs[r].project == project
  }

  function KeysOf(stages: map<Key, Stage>, gone: set<int>): (r: set<Key>)
  {
    set k | k in stages && k.run in gone
  }

  function AfterDelete(s: Store, project: int): (r: Store)
  {
    var gone := RunsOf(s.runs, project);
    Store(s.runs - gone, s.stages - KeysOf(s.stages, gone), s.executions - gone, s.lineage - gone)
  }

  predicate OfProject(s: Store, run: int, project: int)
  {
    run in s.runs && s.runs[run].project == project
  }

  // Deleting a project's runs leaves none of them in any part of the store and everything else as it was.
  lemma DeletedExactly(s: Store, project: int)
    ensures var after := AfterDelete(s, project);
            && (forall r :: OfProject(s, r, project) ==>
                  r !in after.runs && Produced(after.lineage, r) == [] && History(after.executions, r) == []
                  && forall k :: k in after.stages ==> k.run != r)
            && (forall r :: !OfProject(s, r, project) ==>
                  && (r in after.runs <==> r in s.runs) && (r in s.runs ==> after.runs[r] == s.runs[r])
                  && History(after.executions, r) == History(s.executions, r)
                  && Produced(after.lineage, r) == Produced(s.lineage, r))
            && (forall k :: k in s.stages && !OfProject(s, k.run, project) ==>
                  k in after.stages && after.stages[k] == s.stages[k])
            && AfterDelete(after, project) == after
  {
    var after := AfterDelete(s, project);
    assert RunsOf(after.runs, project) == {};
    assert KeysOf(after.stages, {}) == {};
    assert after.runs - {} == after.runs && after.stages - {} == after.stages;
    assert after.executions - {} == after.executions && after.lineage - {} == after.lineage;
  }

  // ---------------------------------------------------------------- calls that overlap

  // The store, every call made so far with the stage it is for, and the calls not finished yet.
  datatype State = State(store: Store, calls: map<int, Key>, open: set<int>)

  datatype Move =
    | OpenRun(record: ScanRun)
    | Register(key: Key)
    | UpdateRun(record: ScanRun)
    | Begin(id: int, key: Key, at: int)
    | Finish(id: int, ending: Ending, at: int)
    | AddLineage(run: int, finding: int)
    | Delete(project: int)

  const START := State(EMPTY, map[], {})

  // A stage is registered as pending only while its run is new; an execution id is never given out twice.
  predicate Enabled(s: State, m: Move)
  {
    match m
    case Register(key) => key !in s.store.stages && History(s.store.executions, key.run) == []
    case Begin(id, key, at) => id !in s.calls
    case Finish(id, ending, at) => id in s.open && id in s.calls
    case _ => true
  }

  function After(s: State, m: Move): (r: State)
    requires Enabled(s, m)
  {
    match m
    case OpenRun(r) => s.(store := AfterRun(s.store, r))
    case UpdateRun(r) => s.(store := AfterRun(s.store, r))
    case Register(key) => s.(store := AfterStage(s.store, PendingStage(key)))
    case Begin(id, key, at) => State(AfterBegin(s.store, key, id, at), s.calls[id := key], s.open + {id})
    case Finish(id, ending, at) => State(AfterFinish(s.store, s.calls[id], id, ending, at), s.calls, s.open - {id})
    case AddLineage(r, f) => s.(store := AfterLineage(s.store, r, f))
    case Delete(project) => s.(store := AfterDelete(s.store, project))
  }

  ghost predicate Trace(states: seq<State>, moves: seq<Move>)
  {
    && |states| == |moves| + 1 && states[0] == START
    && forall i {:trigger moves[i]} :: 0 <= i < |moves| ==>
        Enabled(states[i], moves[i]) && states[i + 1] == After(states[i], moves[i])
  }

  // ---------------------------------------------------------------- what the history says

  function CountOf(history: seq<Execution>, key: Key): (r: nat)
  {
    if history == [] then 0
    else CountOf(history[..|history| - 1], key) + (if history[|history| - 1].key == key then 1 else 0)
  }

  function LastOf(history: seq<Execution>, key: Key): (r: Option<Execution>)
  {
    if history == [] then None
    else if history[|history| - 1].key == key then Some(history[|history| - 1])
    else LastOf(history[..|history| - 1], key)
  }

  lemma CountOfMore(history: seq<Execution>, e: Execution, key: Key)
    ensures CountOf(history + [e], key) == CountOf(history, key) + (if e.key == key then 1 else 0)
    ensures LastOf(history + [e], key) == if e.key == key then Some(e) else LastOf(history, key)
  {
    assert (history + [e])[..|history|] == history;
  }

  lemma {:induction false} CountOfEnded(history: seq<Execution>, id: int, ending: Ending, at: int, key: Key)
    ensures CountOf(EndedIn(history, id, ending, at), key) == CountOf(history, key)
    ensures var last := LastOf(history, key);
            LastOf(EndedIn(history, id, ending, at), key)
            == if last.Some? && last.value.id == id then Some(Ended(last.value, ending, at)) else last
  {
    if history != [] {
      var n := |history| - 1;
      CountOfEnded(history[..n], id, ending, at, key);
      assert EndedIn(history, id, ending, at)[..n] == EndedIn(history[..n], id, ending, at);
    }
  }

  lemma {:induction false} LastOfIn(history: seq<Execution>, key: Key)
    ensures var last := LastOf(history, key);
            && (last.Some? <==> CountOf(history, key) > 0)
            && (last.Some? ==> last.value.key == key && last.value in history)
  {
    if history != [] {
      LastOfIn(history[..|history| - 1], key);
    }
  }

  // ---------------------------------------------------------------- the invariants

  // An entry is of its call's stage, and running exactly while its call is open.
  ghost predicate EntryFits(e: Execution, run: int, calls: map<int, Key>, open: set<int>)
  {
    && e.id in calls && calls[e.id] == e.key && e.key.run == run
    && (e.id in open ==> e.status == Running && e.completedAt.None? && e.error.None?)
    && (e.id !in open ==> (e.status == Completed || e.status == Failed) && e.completedAt.Some?)
  }

  ghost predicate HistoryFits(history: seq<Execution>, run: int, calls: map<int, Key>, open: set<int>)
  {
    && (forall i :: 0 <= i < |history| ==> EntryFits(history[i], run, calls, open))
    && (forall i, j :: 0 <= i < j < |history| ==> history[i].id != history[j].id)
  }

  ghost predicate HistoriesFit(s: State)
  {
    && (forall id :: id in s.open ==> id in s.calls)
    && forall r :: r in s.store.executions ==> HistoryFits(s.store.executions[r], r, s.calls, s.open)
  }

  // The count of a stage is the number of its entries, and it is pending just when it has none.
  ghost predicate StageFits(stages: map<Key, Stage>, key: Key, history: seq<Execution>)
  {
    && CountAt(stages, key) == CountOf(history, key)
    && (key in stages ==> stages[key].key == key && (stages[key].status == Pending <==> stages[key].count == 0))
  }

  ghost predicate StagesFit(s: Store)
  {
    forall key: Key :: StageFits(s.stages, key, History(s.executions, key.run))
  }

  ghost predicate Has(history: seq<Execution>, id: int)
  {
    exists i :: 0 <= i < |history| && history[i].id == id
  }

  ghost predicate OpensFit(s: State)
  {
    forall id :: id in s.open && id in s.calls ==> Has(History(s.store.executions, s.calls[id].run), id)
  }

  // What holds whenever no run is deleted under an open call.
  ghost predicate Inv(s: State)
  {
    HistoriesFit(s) && StagesFit(s.store) && OpensFit(s)
  }

  // A deletion that waits for the calls open on the project's runs.
  ghost predicate Waits(s: State, m: Move)
  {
    m.Delete? ==> forall id :: id in s.open && id in s.calls ==> s.calls[id].run !in RunsOf(s.store.runs, m.project)
  }

  lemma BegunHistoryFits(history: seq<Execution>, e: Execution, calls: map<int, Key>, open: set<int>)
    requires HistoryFits(history, e.key.run, calls, open) && e.id !in calls && e.status == Running
    requires e.completedAt.None? && e.error.None?
    ensures HistoryFits(history + [e], e.key.run, calls[e.id := e.key], open + {e.id})
  {
    forall i | 0 <= i < |history|
      ensures EntryFits(history[i], e.key.run, calls[e.id := e.key], open + {e.id})
    {
      assert EntryFits(history[i], e.key.run, calls, open);
    }
  }

  lemma OtherHistoryFits(history: seq<Execution>, run: int, calls: map<int, Key>, open: set<int>, id: int, key: Key)
    requires HistoryFits(history, run, calls, open) && id !in calls
    ensures HistoryFits(history, run, calls[id := key], open + {id})
  {
    forall i | 0 <= i < |history|
      ensures EntryFits(history[i], run, calls[id := key], open + {id})
    {
      assert EntryFits(history[i], run, calls, open);
    }
  }

  lemma BeginKeepsHistories(s: State, m: Move)
    requires HistoriesFit(s) && m.Begin? && Enabled(s, m)
    ensures HistoriesFit(After(s, m))
  {
    var after := After(s, m);
    var e := Started(m.key, m.id, m.at);
    assert m.key.run in s.store.executions ==> HistoryFits(s.store.executions[m.key.run], m.key.run, s.calls, s.open);
    BegunHistoryFits(History(s.store.executions, m.key.run), e, s.calls, s.open);
    forall r | r in after.store.executions
      ensures HistoryFits(after.store.executions[r], r, after.calls, after.open)
    {
      if r != m.key.run {
        OtherHistoryFits(s.store.executions[r], r, s.calls, s.open, m.id, m.key);
      }
    }
  }

  lemma BeginKeepsStages(s: State, m: Move)
    requires StagesFit(s.store) && m.Begin? && Enabled(s, m)
    ensures StagesFit(After(s, m).store)
  {
    var after := After(s, m).store;
    forall key: Key
      ensures StageFits(after.stages, key, History(after.executions, key.run))
    {
      assert StageFits(s.store.stages, key, History(s.store.executions, key.run));
      CountOfMore(History(s.store.executions, m.key.run), Started(m.key, m.id, m.at), key);
    }
  }

  lemma BeginKeepsOpens(s: State, m: Move)
    requires OpensFit(s) && m.Begin? && Enabled(s, m)
    ensures OpensFit(After(s, m))
  {
    var after := After(s, m);
    var history := History(s.store.executions, m.key.run);
    assert (history + [Started(m.key, m.id, m.at)])[|history|].id == m.id;
    forall id | id in s.open && id in s.calls
      ensures Has(History(after.store.executions, s.calls[id].run), id)
    {
      var before := History(s.store.executions, s.calls[id].run);
      assert Has(before, id);
      var i :| 0 <= i < |before| && before[i].id == id;
      assert History(after.store.executions, s.calls[id].run)[i] == before[i];
    }
  }

  lemma EndedHistoryFits(history: seq<Execution>, run: int, calls: map<int, Key>, open: set<int>, id: int,
      ending: Ending, at: int)
    requires HistoryFits(history, run, calls, open)
    ensures HistoryFits(EndedIn(history, id, ending, at), run, calls, open - {id})
  {
    var ended := EndedIn(history, id, ending, at);
    forall i | 0 <= i < |ended|
      ensures EntryFits(ended[i], run, calls, open - {id})
    {
      assert EntryFits(history[i], run, calls, open);
    }
  }

  lemma FinishKeepsHistories(s: State, m: Move)
    requires HistoriesFit(s) && m.Finish? && Enabled(s, m)
    ensures HistoriesFit(After(s, m))
  {
    forall r | r in s.store.executions
      ensures HistoryFits(After(s, m).store.executions[r], r, s.calls, s.open - {m.id})
    {
      EndedHistoryFits(s.store.executions[r], r, s.calls, s.open, m.id, m.ending, m.at);
    }
  }

  lemma EndedHistory(executions: map<int, seq<Execution>>, run: int, id: int, ending: Ending, at: int)
    ensures History(EndedEverywhere(executions, id, ending, at), run)
            == EndedIn(History(executions, run), id, ending, at)
  {
  }

  lemma {:induction false} HasCounts(history: seq<Execution>, run: int, calls: map<int, Key>, open: set<int>, id: int)
    requires Has(history, id) && HistoryFits(history, run, calls, open)
    ensures id in calls && CountOf(history, calls[id]) > 0
  {
    var n := |history| - 1;
    var i :| 0 <= i < |history| && history[i].id == id;
    assert EntryFits(history[i], run, calls, open);
    if i < n {
      assert history[..n][i] == history[i];
      assert HistoryFits(history[..n], run, calls, open);
      HasCounts(history[..n], run, calls, open, id);
    }
  }

  lemma FinishKeepsStages(s: State, m: Move)
    requires Inv(s) && m.Finish? && Enabled(s, m)
    ensures StagesFit(After(s, m).store)
  {
    var after := After(s, m).store;
    var key0 := s.calls[m.id];
    assert Has(History(s.store.executions, key0.run), m.id);
    HasCounts(History(s.store.executions, key0.run), key0.run, s.calls, s.open, m.id);
    forall key: Key
      ensures StageFits(after.stages, key, History(after.executions, key.run))
    {
      assert StageFits(s.store.stages, key, History(s.store.executions, key.run));
      EndedHistory(s.store.executions, key.run, m.id, m.ending, m.at);
      CountOfEnded(History(s.store.executions, key.run), m.id, m.ending, m.at, key);
    }
  }

  lemma FinishKeepsOpens(s: State, m: Move)
    requires OpensFit(s) && m.Finish? && Enabled(s, m)
    ensures OpensFit(After(s, m))
  {
    var after := After(s, m);
    forall id | id in after.open && id in s.calls
      ensures Has(History(after.store.executions, s.calls[id].run), id)
    {
      var before := History(s.store.executions, s.calls[id].run);
      EndedHistory(s.store.executions, s.calls[id].run, m.id, m.ending, m.at);
      assert Has(before, id);
      var i :| 0 <= i < |before| && before[i].id == id;
      assert EndedIn(before, m.id, m.ending, m.at)[i].id == id;
    }
  }

  lemma DeleteKeeps(s: State, m: Move)
    requires Inv(s) && m.Delete? && Waits(s, m)
    ensures Inv(After(s, m))
  {
    var after := After(s, m);
    forall key: Key
      ensures StageFits(after.store.stages, key, History(after.store.executions, key.run))
    {
      assert StageFits(s.store.stages, key, History(s.store.executions, key.run));
    }
    assert HistoriesFit(after);
    forall id | id in s.open && id in s.calls
      ensures Has(History(after.store.executions, s.calls[id].run), id)
    {
      assert Has(History(s.store.executions, s.calls[id].run), id);
    }
  }

  lemma RegisterKeeps(s: State, m: Move)
    requires Inv(s) && m.Register? && Enabled(s, m)
    ensures Inv(After(s, m))
  {
    var after := After(s, m);
    forall key: Key
      ensures StageFits(after.store.stages, key, History(after.store.executions, key.run))
    {
      assert StageFits(s.store.stages, key, History(s.store.executions, key.run));
    }
  }

  lemma StepKeeps(s: State, m: Move)
    requires Inv(s) && Enabled(s, m) && Waits(s, m)
    ensures Inv(After(s, m))
  {
    match m
    case Begin(id, key, at) =>
      BeginKeepsHistories(s, m);
      BeginKeepsStages(s, m);
      BeginKeepsOpens(s, m);
    case Finish(id, ending, at) =>
      FinishKeepsHistories(s, m);
      FinishKeepsStages(s, m);
      FinishKeepsOpens(s, m);
    case Register(key) => RegisterKeeps(s, m);
    case Delete(project) => DeleteKeeps(s, m);
    case _ =>
  }

  lemma StartKeeps()
    ensures Inv(START)
  {
    forall key: Key
      ensures StageFits(START.store.stages, key, History(START.store.executions, key.run))
    {
      assert History(START.store.executions, key.run) == [];
    }
  }

  ghost predicate AllWait(states: seq<State>, moves: seq<Move>, n: nat)
    requires n <= |moves| <= |states|
  {
    forall k {:trigger moves[k]} :: 0 <= k < n ==> Waits(states[k], moves[k])
  }

  // However the calls interleave: each stage's count is the number of its entries, it is pending just when
  // there are none, and exactly the entries of open calls are running.
  lemma {:induction false} Accounting(states: seq<State>, moves: seq<Move>, n: nat)
    requires Trace(states, moves) && n <= |moves| && AllWait(states, moves, n)
    ensures Inv(states[n])
  {
    if n == 0 {
      StartKeeps();
    } else {
      Accounting(states, moves, n - 1);
      StepKeeps(states[n - 1], moves[n - 1]);
    }
  }
}
