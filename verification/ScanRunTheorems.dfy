/** What the execution history of a run tells, however the calls that write it overlap. */
module ScanRunTheorems {
  import opened Wrappers
  import opened ScanRuns

  // ---------------------------------------------------------------- the history only grows

  // Entries stay where they are and what they are of; only a running one may still change.
  ghost predicate Grows(before: seq<Execution>, after: seq<Execution>)
  {
    && |before| <= |after|
    && forall k :: 0 <= k < |before| ==>
         && after[k].id == before[k].id && after[k].key == before[k].key && after[k].startedAt == before[k].startedAt
         && (before[k].status != Running ==> after[k] == before[k])
  }

  ghost predicate Spares(s: State, m: Move, run: int)
  {
    m.Delete? ==> !OfProject(s.store, run, m.project)
  }

  lemma StepKeepsHistories(s: State, m: Move)
    requires HistoriesFit(s) && Enabled(s, m)
    ensures HistoriesFit(After(s, m))
  {
    match m
    case Begin(id, key, at) => BeginKeepsHistories(s, m);
    case Finish(id, ending, at) => FinishKeepsHistories(s, m);
    case _ =>
  }

  // Deletions or not, every history is sound on its own.
  lemma {:induction false} HistoriesAlwaysFit(states: seq<State>, moves: seq<Move>, n: nat)
    requires Trace(states, moves) && n <= |moves|
    ensures HistoriesFit(states[n])
  {
    if n > 0 {
      HistoriesAlwaysFit(states, moves, n - 1);
      StepKeepsHistories(states[n - 1], moves[n - 1]);
    }
  }

  lemma StepGrows(s: State, m: Move, run: int)
    requires HistoriesFit(s) && Enabled(s, m) && Spares(s, m, run)
    ensures Grows(History(s.store.executions, run), History(After(s, m).store.executions, run))
  {
    var before := History(s.store.executions, run);
    if m.Finish? {
      EndedHistory(s.store.executions, run, m.id, m.ending, m.at);
      forall k | 0 <= k < |before| && before[k].status != Running
        ensures before[k].id != m.id
      {
        assert EntryFits(before[k], run, s.calls, s.open);
      }
    }
  }

  lemma TraceGrows(states: seq<State>, moves: seq<Move>, k: nat, run: int)
    requires Trace(states, moves) && k < |moves| && Spares(states[k], moves[k], run)
    ensures Grows(History(states[k].store.executions, run), History(states[k + 1].store.executions, run))
  {
    HistoriesAlwaysFit(states, moves, k);
    StepGrows(states[k], moves[k], run);
  }

  lemma GrowsTwice(a: seq<Execution>, b: seq<Execution>, c: seq<Execution>)
    requires Grows(a, b) && Grows(b, c)
    ensures Grows(a, c)
  {
  }

  // No deletion of the run from one moment to another.
  ghost predicate Spared(states: seq<State>, moves: seq<Move>, i: nat, j: nat, run: int)
    requires j <= |moves| < |states|
  {
    forall k {:trigger moves[k]} :: i <= k < j ==> Spares(states[k], moves[k], run)
  }

  // Over any part of a run's life the history is only appended to, and finished entries never change.
  lemma {:induction false} HistoryOnlyGrows(states: seq<State>, moves: seq<Move>, i: nat, j: nat, run: int)
    requires Trace(states, moves) && i <= j <= |moves| && Spared(states, moves, i, j, run)
    ensures Grows(History(states[i].store.executions, run), History(states[j].store.executions, run))
    decreases j
  {
    if i == j {
    } else {
      var start, before, end := History(states[i].store.executions, run), History(states[j - 1].store.executions, run),
                                History(states[j].store.executions, run);
      assert Grows(start, before) by {
        HistoryOnlyGrows(states, moves, i, j - 1, run);
      }
      assert Grows(before, end) by {
        TraceGrows(states, moves, j - 1, run);
      }
      GrowsTwice(start, before, end);
    }
  }

  // ---------------------------------------------------------------- one call, one entry

  // The only entry of a call.
  ghost predicate OnlyEntry(history: seq<Execution>, k: nat, e: Execution)
  {
    k < |history| && history[k] == e && forall i :: 0 <= i < |history| && i != k ==> history[i].id != e.id
  }

  lemma EntryIsOnly(s: State, run: int, k: nat)
    requires HistoriesFit(s) && k < |History(s.store.executions, run)|
    ensures OnlyEntry(History(s.store.executions, run), k, History(s.store.executions, run)[k])
  {
  }

  // A call that has begun keeps its place in the history; until it finishes its entry is as it began.
  lemma {:induction false} BegunEntry(states: seq<State>, moves: seq<Move>, b: nat, n: nat) returns (k: nat)
    requires Trace(states, moves) && b < n <= |moves| && moves[b].Begin?
    requires Spared(states, moves, b, n, moves[b].key.run)
    requires forall i :: b < i < n ==> !(moves[i].Finish? && moves[i].id == moves[b].id)
    ensures var m := moves[b];
            && OnlyEntry(History(states[n].store.executions, m.key.run), k, Started(m.key, m.id, m.at))
            && m.id in states[n].open && m.id in states[n].calls && states[n].calls[m.id] == m.key
    decreases n
  {
    var m := moves[b];
    if n == b + 1 {
      k := |History(states[b].store.executions, m.key.run)|;
    } else {
      k := BegunEntry(states, moves, b, n - 1);
      HistoriesAlwaysFit(states, moves, n - 1);
      var s, next := states[n - 1], moves[n - 1];
      StepGrows(s, next, m.key.run);
      if next.Finish? {
        EndedHistory(s.store.executions, m.key.run, next.id, next.ending, next.at);
      }
    }
    HistoriesAlwaysFit(states, moves, n);
    EntryIsOnly(states[n], m.key.run, k);
  }

  // A call that returned or raised has exactly one entry, for good: completed without an error exactly if it
  // returned, failed with the error it raised otherwise, and finished when it ended.
  lemma {:induction false} CallLeavesOneEntry(states: seq<State>, moves: seq<Move>, b: nat, f: nat, n: nat)
    requires Trace(states, moves) && b < f < n <= |moves| && moves[b].Begin?
    requires moves[f].Finish? && moves[f].id == moves[b].id
    requires forall i :: b < i < f ==> !(moves[i].Finish? && moves[i].id == moves[b].id)
    requires Spared(states, moves, b, n, moves[b].key.run)
    ensures var m, end := moves[b], moves[f];
            var e := match end.ending
                     case Returned => Execution(m.id, m.key, Completed, m.at, Some(end.at), None)
                     case Raised(error) => Execution(m.id, m.key, Failed, m.at, Some(end.at), Some(error));
            exists k: nat :: OnlyEntry(History(states[n].store.executions, m.key.run), k, e)
  {
    var m, end := moves[b], moves[f];
    var k := BegunEntry(states, moves, b, f);
    EndedHistory(states[f].store.executions, m.key.run, end.id, end.ending, end.at);
    assert History(states[f + 1].store.executions, m.key.run)[k]
           == Ended(Started(m.key, m.id, m.at), end.ending, end.at);
    HistoryOnlyGrows(states, moves, f + 1, n, m.key.run);
    HistoriesAlwaysFit(states, moves, n);
    EntryIsOnly(states[n], m.key.run, k);
  }

  // A call finishes at most once.
  lemma {:induction false} FinishedForGood(states: seq<State>, moves: seq<Move>, f: nat, n: nat)
    requires Trace(states, moves) && f < n <= |moves| && moves[f].Finish?
    ensures moves[f].id in states[n].calls && moves[f].id !in states[n].open
    decreases n
  {
    var m := moves[n - 1];
    if f < n - 1 {
      FinishedForGood(states, moves, f, n - 1);
    }
  }

  // ---------------------------------------------------------------- the stage and its last execution

  // The stage record is that of this execution.
  ghost predicate Shows(stage: Stage, e: Execution)
  {
    && stage.status == e.status && stage.startedAt == Some(e.startedAt) && stage.completedAt == e.completedAt
    && stage.error == e.error && stage.lastAt == Some(e.startedAt)
  }

  // An execution begins only when the last one of its stage has finished.
  ghost predicate Serial(s: State, m: Move)
  {
    m.Begin? ==> forall id :: id in s.open && id in s.calls ==> s.calls[id] != m.key
  }

  ghost predicate LastShown(s: State, key: Key)
  {
    var last := LastOf(History(s.store.executions, key.run), key);
    last.Some? ==> key in s.store.stages && Shows(s.store.stages[key], last.value)
  }

  ghost predicate OpenIsLast(s: State, id: int)
    requires id in s.calls
  {
    var last := LastOf(History(s.store.executions, s.calls[id].run), s.calls[id]);
    last.Some? && last.value.id == id
  }

  ghost predicate SerialFits(s: State)
  {
    && (forall key: Key :: LastShown(s, key))
    && (forall id :: id in s.open && id in s.calls ==> OpenIsLast(s, id))
  }

  lemma SerialBegin(s: State, m: Move)
    requires Inv(s) && SerialFits(s) && m.Begin? && Enabled(s, m) && Serial(s, m)
    ensures SerialFits(After(s, m))
  {
    var after := After(s, m);
    var history := History(s.store.executions, m.key.run);
    var e := Started(m.key, m.id, m.at);
    forall key: Key
      ensures LastShown(after, key)
    {
      assert LastShown(s, key);
      CountOfMore(history, e, key);
    }
    forall id | id in after.open && id in after.calls
      ensures OpenIsLast(after, id)
    {
      CountOfMore(history, e, after.calls[id]);
      if id != m.id {
        assert OpenIsLast(s, id);
      }
    }
  }

  lemma SerialFinish(s: State, m: Move)
    requires Inv(s) && SerialFits(s) && m.Finish? && Enabled(s, m)
    ensures SerialFits(After(s, m))
  {
    var after := After(s, m);
    assert OpenIsLast(s, m.id);
    forall key: Key
      ensures LastShown(after, key)
    {
      assert LastShown(s, key);
      var history := History(s.store.executions, key.run);
      EndedHistory(s.store.executions, key.run, m.id, m.ending, m.at);
      CountOfEnded(history, m.id, m.ending, m.at, key);
      LastOfIn(history, key);
      LastHasKey(s, key);
    }
    forall id | id in after.open && id in after.calls
      ensures OpenIsLast(after, id)
    {
      assert OpenIsLast(s, id);
      var history := History(s.store.executions, s.calls[id].run);
      EndedHistory(s.store.executions, s.calls[id].run, m.id, m.ending, m.at);
      CountOfEnded(history, m.id, m.ending, m.at, s.calls[id]);
    }
  }

  // An entry of a stage is of the call its id belongs to.
  lemma LastHasKey(s: State, key: Key)
    requires HistoriesFit(s)
    ensures var last := LastOf(History(s.store.executions, key.run), key);
            last.Some? ==> last.value.id in s.calls && s.calls[last.value.id] == key
  {
    var history := History(s.store.executions, key.run);
    LastOfIn(history, key);
    if LastOf(history, key).Some? {
      var i :| 0 <= i < |history| && history[i] == LastOf(history, key).value;
      assert EntryFits(history[i], key.run, s.calls, s.open);
    }
  }

  lemma SerialOther(s: State, m: Move)
    requires Inv(s) && SerialFits(s) && Enabled(s, m) && Waits(s, m) && !m.Begin? && !m.Finish?
    ensures SerialFits(After(s, m))
  {
    var after := After(s, m);
    forall key: Key
      ensures LastShown(after, key)
    {
      assert LastShown(s, key);
    }
    forall id | id in after.open && id in after.calls
      ensures OpenIsLast(after, id)
    {
      assert OpenIsLast(s, id);
    }
  }

  // When no two executions of one stage overlap, every stage record is that of its last execution.
  lemma {:induction false} StageShowsLastExecution(states: seq<State>, moves: seq<Move>, n: nat)
    requires Trace(states, moves) && n <= |moves| && AllWait(states, moves, n)
    requires forall k {:trigger moves[k]} :: 0 <= k < n ==> Serial(states[k], moves[k])
    ensures Inv(states[n]) && SerialFits(states[n])
  {
    if n == 0 {
      StartKeeps();
      assert forall key: Key :: History(states[0].store.executions, key.run) == [];
    } else {
      StageShowsLastExecution(states, moves, n - 1);
      StepKeeps(states[n - 1], moves[n - 1]);
      if moves[n - 1].Begin? {
        SerialBegin(states[n - 1], moves[n - 1]);
      } else if moves[n - 1].Finish? {
        SerialFinish(states[n - 1], moves[n - 1]);
      } else {
        SerialOther(states[n - 1], moves[n - 1]);
      }
    }
  }

  ghost predicate NoneOpen(s: State, key: Key)
  {
    forall id :: id in s.open && id in s.calls ==> s.calls[id] != key
  }

  ghost predicate AllSerial(states: seq<State>, moves: seq<Move>, n: nat)
    requires n <= |moves| <= |states|
  {
    forall k {:trigger moves[k]} :: 0 <= k < n ==> Serial(states[k], moves[k])
  }

  // The stage record a call leaves when it ends.
  ghost predicate ShowsCall(stage: Stage, begin: Move, end: Move)
    requires begin.Begin? && end.Finish?
  {
    && stage.key == begin.key && stage.startedAt == Some(begin.at) && stage.lastAt == Some(begin.at)
    && stage.completedAt == Some(end.at)
    && match end.ending
       case Returned => stage.status == Completed && stage.error.None?
       case Raised(error) => stage.status == Failed && stage.error == Some(error)
  }

  lemma CallJustEnded(states: seq<State>, moves: seq<Move>, b: nat, f: nat)
    requires Trace(states, moves) && b < f < |moves| && AllWait(states, moves, f) && AllSerial(states, moves, f)
    requires moves[b].Begin? && moves[f].Finish? && moves[f].id == moves[b].id
    requires forall i :: b < i < f ==> !(moves[i].Finish? && moves[i].id == moves[b].id)
    requires Spared(states, moves, b, f, moves[b].key.run)
    ensures var key := moves[b].key;
            && key in states[f + 1].store.stages && ShowsCall(states[f + 1].store.stages[key], moves[b], moves[f])
            && NoneOpen(states[f + 1], key)
  {
    var m, s := moves[b], states[f];
    var k := BegunEntry(states, moves, b, f);
    StageShowsLastExecution(states, moves, f);
    assert LastShown(s, m.key) && OpenIsLast(s, m.id);
    LastOfIn(History(s.store.executions, m.key.run), m.key);
    forall id | id in s.open && id in s.calls && s.calls[id] == m.key
      ensures id == m.id
    {
      assert OpenIsLast(s, id);
    }
    assert states[f + 1] == After(s, moves[f]);
  }

  // The stage says how its last call ended, until the next one begins: failed with its error exactly if it raised.
  lemma {:induction false} StageTellsEnding(states: seq<State>, moves: seq<Move>, b: nat, f: nat, n: nat)
    requires Trace(states, moves) && b < f < n <= |moves| && AllWait(states, moves, n) && AllSerial(states, moves, n)
    requires moves[b].Begin? && moves[f].Finish? && moves[f].id == moves[b].id
    requires forall i :: b < i < f ==> !(moves[i].Finish? && moves[i].id == moves[b].id)
    requires forall i :: f < i < n ==> !(moves[i].Begin? && moves[i].key == moves[b].key)
    requires Spared(states, moves, b, n, moves[b].key.run)
    ensures var key := moves[b].key;
            && key in states[n].store.stages && ShowsCall(states[n].store.stages[key], moves[b], moves[f])
            && NoneOpen(states[n], key)
    decreases n
  {
    if n == f + 1 {
      CallJustEnded(states, moves, b, f);
    } else {
      StageTellsEnding(states, moves, b, f, n - 1);
      var s, m := states[n - 1], moves[n - 1];
      assert states[n] == After(s, m) && Spares(s, m, moves[b].key.run);
      StageStays(s, m, moves[b].key);
    }
  }

  lemma StageStays(s: State, m: Move, key: Key)
    requires Enabled(s, m) && key in s.store.stages && NoneOpen(s, key) && Spares(s, m, key.run)
    requires !(m.Begin? && m.key == key)
    ensures key in After(s, m).store.stages && After(s, m).store.stages[key] == s.store.stages[key]
    ensures NoneOpen(After(s, m), key)
  {
  }

  // When executions do overlap, a finish leaves the stage with the status of its last execution just when
  // it is that execution which finishes, or the last one has ended the same way.
  lemma FinishShowsLastIff(s: State, m: Move)
    requires Inv(s) && m.Finish? && Enabled(s, m)
    ensures var key := s.calls[m.id];
            var before := LastOf(History(s.store.executions, key.run), key);
            var after := After(s, m).store;
            var last := LastOf(History(after.executions, key.run), key);
            && before.Some? && last.Some? && key in after.stages
            && (after.stages[key].status == last.value.status
                <==> before.value.id == m.id
                     || before.value.status == if m.ending.Returned? then Completed else Failed)
  {
    var key := s.calls[m.id];
    var history := History(s.store.executions, key.run);
    assert Has(history, m.id);
    assert key.run in s.store.executions;
    HasCounts(history, key.run, s.calls, s.open, m.id);
    LastOfIn(history, key);
    EndedHistory(s.store.executions, key.run, m.id, m.ending, m.at);
    CountOfEnded(history, m.id, m.ending, m.at, key);
  }

  // Two overlapping calls of one stage: the stage is reported completed while its last execution runs.
  lemma CompletedWhileRunning(key: Key, at: int)
    ensures var moves := [Begin(1, key, at), Begin(2, key, at + 1), Finish(1, Returned, at + 2)];
            exists states: seq<State> ::
              && Trace(states, moves) && key in states[3].store.stages
              && states[3].store.stages[key].status == Completed
              && LastOf(History(states[3].store.executions, key.run), key) == Some(Started(key, 2, at + 1))
  {
    var moves := [Begin(1, key, at), Begin(2, key, at + 1), Finish(1, Returned, at + 2)];
    var s1 := After(START, moves[0]);
    var s2 := After(s1, moves[1]);
    var s3 := After(s2, moves[2]);
    var states := [START, s1, s2, s3];
    assert Trace(states, moves);
    var one, two := Started(key, 1, at), Started(key, 2, at + 1);
    assert History(s2.store.executions, key.run) == [one, two];
    EndedHistory(s2.store.executions, key.run, 1, Returned, at + 2);
    assert History(s3.store.executions, key.run)[1] == two;
  }

  // ---------------------------------------------------------------- runs and their findings

  ghost predicate Records(m: Move, r: ScanRun)
  {
    m == OpenRun(r) || m == UpdateRun(r)
  }

  // Neither recorded anew nor deleted from one moment to another.
  ghost predicate Standing(states: seq<State>, moves: seq<Move>, i: nat, n: nat, run: int)
    requires n <= |moves| < |states|
  {
    forall k {:trigger moves[k]} :: i <= k < n ==>
      Spares(states[k], moves[k], run)
      && !((moves[k].OpenRun? || moves[k].UpdateRun?) && moves[k].record.id == run)
  }

  // The store holds of each run what was recorded last, unless it was deleted since.
  lemma {:induction false} RunIsLatest(states: seq<State>, moves: seq<Move>, n: nat, r: ScanRun)
    requires Trace(states, moves) && n <= |moves|
    ensures r.id in states[n].store.runs && states[n].store.runs[r.id] == r <==>
            exists i {:trigger moves[i]} :: 0 <= i < n && Records(moves[i], r)
                                              && Standing(states, moves, i + 1, n, r.id)
    decreases n
  {
    if n > 0 {
      RunIsLatest(states, moves, n - 1, r);
      var s, m := states[n - 1], moves[n - 1];
      assert states[n] == After(s, m);
      var stays := Spares(s, m, r.id) && !((m.OpenRun? || m.UpdateRun?) && m.record.id == r.id);
      RunStep(s, m, r);
      forall i {:trigger moves[i]} | 0 <= i < n - 1
        ensures Standing(states, moves, i + 1, n, r.id) <==> stays && Standing(states, moves, i + 1, n - 1, r.id)
      {
        assert moves[n - 1] == m;
      }
      assert Standing(states, moves, n, n, r.id) && (Records(moves[n - 1], r) ==> Records(m, r));
    }
  }

  lemma RunStep(s: State, m: Move, r: ScanRun)
    requires Enabled(s, m)
    ensures r.id in After(s, m).store.runs && After(s, m).store.runs[r.id] == r <==>
            Records(m, r)
            || (Spares(s, m, r.id) && !((m.OpenRun? || m.UpdateRun?) && m.record.id == r.id)
                && r.id in s.store.runs && s.store.runs[r.id] == r)
  {
  }

  // The findings of a run are exactly those added since its last deletion.
  lemma {:induction false} FindingsAreThoseAdded(states: seq<State>, moves: seq<Move>, n: nat, run: int, f: int)
    requires Trace(states, moves) && n <= |moves|
    ensures f in Produced(states[n].store.lineage, run) <==>
            exists i {:trigger moves[i]} :: 0 <= i < n && moves[i] == AddLineage(run, f)
                                              && Spared(states, moves, i, n, run)
    decreases n
  {
    if n > 0 {
      FindingsAreThoseAdded(states, moves, n - 1, run, f);
      var s, m := states[n - 1], moves[n - 1];
      assert states[n] == After(s, m);
      LineageStep(s, m, run, f);
      forall i | 0 <= i < n - 1
        ensures Spared(states, moves, i, n, run) <==> Spares(s, m, run) && Spared(states, moves, i, n - 1, run)
      {
        assert moves[n - 1] == m;
      }
      if m == AddLineage(run, f) {
        assert moves[n - 1] == AddLineage(run, f) && Spared(states, moves, n - 1, n, run);
      }
    }
  }

  lemma LineageStep(s: State, m: Move, run: int, f: int)
    requires Enabled(s, m)
    ensures f in Produced(After(s, m).store.lineage, run) <==>
            m == AddLineage(run, f) || (Spares(s, m, run) && f in Produced(s.store.lineage, run))
  {
  }

  // ---------------------------------------------------------------- deletion under an open call

  // Once its run is deleted, a call that finishes leaves a stage behind that says completed or failed and
  // counts nothing: the stage is sound after a finish just when it has been executed since.
  lemma FinishFitsIff(s: State, m: Move)
    requires HistoriesFit(s) && m.Finish? && Enabled(s, m)
    requires var key := s.calls[m.id]; StageFits(s.store.stages, key, History(s.store.executions, key.run))
    ensures var key := s.calls[m.id];
            var after := After(s, m).store;
            StageFits(after.stages, key, History(after.executions, key.run)) <==>
            LastOf(History(s.store.executions, key.run), key).Some?
  {
    var key := s.calls[m.id];
    var history := History(s.store.executions, key.run);
    LastOfIn(history, key);
    EndedHistory(s.store.executions, key.run, m.id, m.ending, m.at);
    CountOfEnded(history, m.id, m.ending, m.at, key);
  }

  lemma OrphanStage(r: ScanRun, name: StageName, at: int)
    ensures var key := Key(r.id, name);
            var moves := [OpenRun(r), Begin(1, key, at), Delete(r.project), Finish(1, Returned, at)];
            exists states: seq<State> ::
              && Trace(states, moves) && r.id !in states[4].store.runs && key in states[4].store.stages
              && states[4].store.stages[key].status == Completed && states[4].store.stages[key].count == 0
              && History(states[4].store.executions, r.id) == []
  {
    var key := Key(r.id, name);
    var moves := [OpenRun(r), Begin(1, key, at), Delete(r.project), Finish(1, Returned, at)];
    var s1 := After(START, moves[0]);
    var s2 := After(s1, moves[1]);
    var s3 := After(s2, moves[2]);
    var s4 := After(s3, moves[3]);
    assert r.id in RunsOf(s2.store.runs, r.project);
    assert r.id !in s3.store.executions && key !in s3.store.stages;
    var states := [START, s1, s2, s3, s4];
    assert Trace(states, moves);
  }
}
