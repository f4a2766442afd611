/**
 The scan run store as its dicts are updated in place, with the rows each write also goes to, and the
 services that sequence its writes.
 */
module ScanRunStore {
  import opened Wrappers
  import opened ScanRuns
  import opened ScanRunMirror

  class ScanRunStore {
    var runs: map<int, ScanRun>
    var stages: map<Key, Stage>
    var executions: map<int, seq<Execution>>
    var lineage: map<int, seq<int>>
    var rows: Rows

    constructor ()
      ensures Valid() && Memory() == EMPTY && rows == NO_ROWS
    {
      runs, stages, executions, lineage := map[], map[], map[], map[];
      rows := NO_ROWS;
    }

    ghost function Memory(): (r: Store)
      reads this
    {
      Store(runs, stages, executions, lineage)
    }

    // The rows are the mirror of the memory, which they determine and which determines them.
    ghost predicate Valid()
      reads this
    {
      Mirrored(Memory(), rows)
    }

    method CreateRun(r: ScanRun)
      requires Valid()
      modifies this
      ensures Valid() && Memory() == AfterRun(old(Memory()), r) && rows.executions == old(rows.executions)
    {
      runs := runs[r.id := r];
      rows := rows.(runs := rows.runs[r.id := r]);
    }

    method UpsertStage(stage: Stage)
      requires Valid()
      modifies this
      ensures Valid() && Memory() == AfterStage(old(Memory()), stage) && rows.executions == old(rows.executions)
    {
      stages := stages[stage.key := stage];
      rows := rows.(stages := rows.stages[stage.key := stage]);
    }

    method AddFindingLineage(run: int, finding: int)
      requires Valid()
      modifies this
      ensures Valid() && Memory() == AfterLineage(old(Memory()), run, finding)
              && rows.executions == old(rows.executions)
    {
      LineageKeeps(lineage, rows.lineage, run, finding);
      var ids := if run in lineage then lineage[run] else [];
      if finding !in ids {
        ids := ids + [finding];
      }
      lineage := lineage[run := ids];
      if (run, finding) !in rows.lineage {
        rows := rows.(lineage := rows.lineage + {(run, finding)});
      } else {
        assert rows.lineage == rows.lineage + {(run, finding)};
      }
    }

    method BeginStageExecution(key: Key, id: int, at: int)
      requires Valid() && id !in rows.executions
      modifies this
      ensures Valid() && Memory() == AfterBegin(old(Memory()), key, id, at)
      ensures rows.executions == old(rows.executions)[id := Started(key, id, at)]
    {
      var execution := Execution(id, key, Running, at, None, None);
      BegunMirrored(executions, rows.executions, execution);
      var history := if key.run in executions then executions[key.run] else [];
      executions := executions[key.run := history + [execution]];
      rows := rows.(executions := rows.executions[id := execution]);
      var count := if key in stages then stages[key].count else 0;
      UpsertStage(Stage(key, Running, Some(at), None, None, count + 1, Some(at)));
    }

    // The entry with this id, looked for run by run, is replaced where it stands.
    method UpdateExecution(id: int, ending: Ending, at: int)
      requires Valid()
      modifies this
      ensures Valid() && Memory() == old(Memory()).(executions := EndedEverywhere(old(executions), id, ending, at))
      ensures forall r, i: nat :: FoundAt(old(executions), id, r, i) ==>
                r in executions && i < |executions[r]| && executions[r][i].completedAt == Some(at)
                && executions[r][i].status == (if ending.Returned? then Completed else Failed)
                && executions[r][i].error == (if ending.Returned? then None else Some(ending.error))
      ensures rows.executions.Keys == old(rows.executions).Keys
    {
      var todo := executions.Keys;
      while todo != {}
        invariant todo <= executions.Keys
        invariant Memory() == old(Memory()) && rows == old(rows)
        invariant forall r, i: nat :: FoundAt(executions, id, r, i) ==> r in todo
        decreases |todo|
      {
        var run := Choose(todo);
        var history := executions[run];
        for i := 0 to |history|
          invariant Memory() == old(Memory()) && rows == old(rows)
          invariant forall j :: 0 <= j < i ==> history[j].id != id
        {
          if history[i].id == id {
            var updated := history[i].(status := StatusOf(ending), completedAt := Some(at), error := ErrorOf(ending));
            assert FoundAt(executions, id, run, i);
            ReplacedInPlace(executions, run, i, ending, at);
            ReplacedMirrored(executions, rows.executions, run, i, updated);
            executions := executions[run := history[i := updated]];
            rows := rows.(executions := rows.executions[id := updated]);
            return;
          }
        }
        todo := todo - {run};
      }
      NothingToEnd(executions, id, ending, at);
    }

    // Completing and failing an execution differ in the status and error they record.
    method FinishStageExecution(key: Key, id: int, ending: Ending, at: int)
      requires Valid()
      modifies this
      ensures Valid() && Memory() == AfterFinish(old(Memory()), key, id, ending, at)
      ensures key in stages && stages[key].status == (if ending.Returned? then Completed else Failed)
      ensures stages[key].error == (if ending.Returned? then None else Some(ending.error))
      ensures stages[key].completedAt == Some(at)
      ensures key in old(stages) ==>
                var was := old(stages)[key];
                stages[key] == was.(key := key, status := stages[key].status, completedAt := Some(at),
                                    error := stages[key].error)
      ensures rows.executions.Keys == old(rows.executions).Keys
    {
      UpdateExecution(id, ending, at);
      var startedAt, count, lastAt := None, 0, None;
      if key in stages {
        startedAt, count, lastAt := stages[key].startedAt, stages[key].count, stages[key].lastAt;
      }
      UpsertStage(Stage(key, StatusOf(ending), startedAt, Some(at), ErrorOf(ending), count, lastAt));
    }

    method ExecutionsForRun(run: int) returns (history: seq<Execution>)
      ensures history == ByStart(History(executions, run))
    {
      history := ByStart(if run in executions then executions[run] else []);
    }

    method DeleteProjectRuns(project: int)
      requires Valid()
      modifies this
      ensures Valid() && Memory() == AfterDelete(old(Memory()), project)
    {
      DeletedMirrored(Memory(), rows, project);
      var gone := RunsOf(runs, project);
      runs := runs - gone;
      stages := stages - KeysOf(stages, gone);
      executions := executions - gone;
      lineage := lineage - gone;
      if gone == {} {
        NoRowsGone(rows);
        return;
      }
      rows := RowsWithout(rows, gone);
    }

    // The executions as the rows give them, run by run, in whatever order the table is read.
    static method LoadExecutions(table: map<int, Execution>) returns (loaded: map<int, seq<Execution>>)
      requires forall id :: id in table ==> table[id].id == id
      ensures ExecutionsMirrored(loaded, table)
    {
      loaded := map[];
      var todo := table.Keys;
      assert table - todo == map[];
      while todo != {}
        invariant todo <= table.Keys && ExecutionsMirrored(loaded, table - todo)
        decreases |todo|
      {
        var id := Choose(todo);
        var e := table[id];
        BegunMirrored(loaded, table - todo, e);
        assert table - (todo - {id}) == (table - todo)[id := e];
        var history := if e.key.run in loaded then loaded[e.key.run] else [];
        loaded := loaded[e.key.run := history + [e]];
        todo := todo - {id};
      }
      assert table - {} == table;
    }

    static method LoadLineage(table: set<(int, int)>) returns (loaded: map<int, seq<int>>)
      ensures LineageMirrored(loaded, table)
    {
      loaded := map[];
      var todo := table;
      while todo != {}
        invariant todo <= table && LineageMirrored(loaded, table - todo)
        decreases |todo|
      {
        var row := Choose(todo);
        LineageKeeps(loaded, table - todo, row.0, row.1);
        assert row.1 in Produced(loaded, row.0) <==> (row.0, row.1) in table - todo;
        assert table - (todo - {row}) == table - todo + {(row.0, row.1)};
        var ids := if row.0 in loaded then loaded[row.0] else [];
        loaded := loaded[row.0 := ids + [row.1]];
        todo := todo - {row};
      }
      assert table - {} == table;
    }

    // A restart: memory is emptied and filled again from the rows, each history sorted by start time.
    method SetFactory()
      requires Valid()
      modifies this
      ensures Valid() && rows == old(rows) && runs == old(runs) && stages == old(stages)
      ensures forall r, f :: f in Produced(lineage, r) <==> f in Produced(old(lineage), r)
      ensures forall r :: StartsDiffer(History(old(executions), r)) ==>
                ByStart(History(executions, r)) == ByStart(History(old(executions), r))
    {
      ghost var before, produced := executions, lineage;
      var loaded := LoadExecutions(rows.executions);
      var ids := LoadLineage(rows.lineage);
      SortedMirrored(loaded, rows.executions);
      runs, stages, executions, lineage := rows.runs, rows.stages, Sorted(loaded), ids;
      forall r, f
        ensures f in Produced(lineage, r) <==> f in Produced(produced, r)
      {
        assert f in Produced(lineage, r) <==> (r, f) in rows.lineage;
        assert f in Produced(produced, r) <==> (r, f) in rows.lineage;
      }
      forall r | StartsDiffer(History(before, r))
        ensures ByStart(History(executions, r)) == ByStart(History(before, r))
      {
        SameRowsSameHistory(before, executions, rows.executions, r);
      }
    }
  }

  lemma NoRowsGone(rows: Rows)
    ensures RowsWithout(rows, {}) == rows
  {
    var left := RowsWithout(rows, {});
    assert left.runs == rows.runs && left.stages == rows.stages;
    assert left.executions == rows.executions && left.lineage == rows.lineage;
  }
}
