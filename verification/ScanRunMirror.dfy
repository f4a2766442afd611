/**
 The database rows that mirror a scan run store, and why they are enough to rebuild it: whatever order
 the tables are read in, sorting by start time restores the same history.
 */
module ScanRunMirror {
  import opened ScanRuns

  // The rows of the database, each table by its primary key.
  datatype Rows = Rows(runs: map<int, ScanRun>, stages: map<Key, Stage>, executions: map<int, Execution>,
                       lineage: set<(int, int)>)

  const NO_ROWS := Rows(map[], map[], map[], {})

  // Where an execution id is found.
  ghost predicate FoundAt(executions: map<int, seq<Execution>>, id: int, run: int, i: nat)
  {
    run in executions && i < |executions[run]| && executions[run][i].id == id
  }

  ghost predicate Found(executions: map<int, seq<Execution>>, id: int, run: int)
  {
    exists i: nat :: FoundAt(executions, id, run, i)
  }

  ghost predicate UniqueIds(executions: map<int, seq<Execution>>)
  {
    forall id, r, i: nat, q, j: nat :: FoundAt(executions, id, r, i) && FoundAt(executions, id, q, j) ==>
        r == q && i == j
  }

  // Each entry has its row, each row its entry.
  ghost predicate ExecutionsMirrored(executions: map<int, seq<Execution>>, table: map<int, Execution>)
  {
    && UniqueIds(executions)
    && (forall id, r, i: nat :: FoundAt(executions, id, r, i) ==>
          id in table && table[id] == executions[r][i] && executions[r][i].key.run == r)
    && (forall id :: id in table ==> table[id].id == id && Found(executions, id, table[id].key.run))
  }

  ghost predicate Distinct(ids: seq<int>)
  {
    forall i, j :: 0 <= i < j < |ids| ==> ids[i] != ids[j]
  }

  ghost predicate LineageMirrored(lineage: map<int, seq<int>>, table: set<(int, int)>)
  {
    && (forall r :: r in lineage ==> Distinct(lineage[r]))
    && (forall r, f :: f in Produced(lineage, r) <==> (r, f) in table)
  }

  ghost predicate Mirrored(s: Store, rows: Rows)
  {
    && rows.runs == s.runs && rows.stages == s.stages
    && ExecutionsMirrored(s.executions, rows.executions) && LineageMirrored(s.lineage, rows.lineage)
  }

  function RowsWithout(rows: Rows, gone: set<int>): (r: Rows)
  {
    Rows(rows.runs - gone,
         rows.stages - KeysOf(rows.stages, gone),
         rows.executions - (set id | id in rows.executions && rows.executions[id].key.run in gone),
         set p | p in rows.lineage && p.0 !in gone)
  }

  // ---------------------------------------------------------------- each write keeps the mirror

  lemma BegunMirrored(executions: map<int, seq<Execution>>, table: map<int, Execution>, e: Execution)
    requires ExecutionsMirrored(executions, table) && e.id !in table
    ensures ExecutionsMirrored(executions[e.key.run := History(executions, e.key.run) + [e]], table[e.id := e])
  {
    var history := History(executions, e.key.run);
    var after := executions[e.key.run := history + [e]];
    forall id, r, i: nat | FoundAt(after, id, r, i)
      ensures if r == e.key.run && i == |history| then id == e.id else FoundAt(executions, id, r, i)
    {
    }
    assert FoundAt(after, e.id, e.key.run, |history|);
    forall id | id in table
      ensures Found(after, id, table[id].key.run)
    {
      var i: nat :| FoundAt(executions, id, table[id].key.run, i);
      assert FoundAt(after, id, table[id].key.run, i);
    }
  }

  lemma NotIn(history: seq<Execution>, id: int, ending: Ending, at: int)
    requires forall i :: 0 <= i < |history| ==> history[i].id != id
    ensures EndedIn(history, id, ending, at) == history
  {
  }

  // Ending the entry with an id, wherever it is, replaces the one slot that has it.
  lemma ReplacedInPlace(executions: map<int, seq<Execution>>, run: int, i: nat, ending: Ending, at: int)
    requires UniqueIds(executions) && run in executions && i < |executions[run]|
    ensures var e := executions[run][i];
            EndedEverywhere(executions, e.id, ending, at)
            == executions[run := executions[run][i := Ended(e, ending, at)]]
  {
    var e := executions[run][i];
    assert FoundAt(executions, e.id, run, i);
    forall j: nat | j < |executions[run]| && j != i
      ensures executions[run][j].id != e.id
    {
      assert !FoundAt(executions, e.id, run, j);
    }
    assert EndedIn(executions[run], e.id, ending, at) == executions[run][i := Ended(e, ending, at)];
    forall r | r in executions && r != run
      ensures EndedIn(executions[r], e.id, ending, at) == executions[r]
    {
      forall j: nat | j < |executions[r]|
        ensures executions[r][j].id != e.id
      {
        assert !FoundAt(executions, e.id, r, j);
      }
      NotIn(executions[r], e.id, ending, at);
    }
  }

  lemma NothingToEnd(executions: map<int, seq<Execution>>, id: int, ending: Ending, at: int)
    requires forall r, i: nat :: !FoundAt(executions, id, r, i)
    ensures EndedEverywhere(executions, id, ending, at) == executions
  {
    forall r | r in executions
      ensures EndedIn(executions[r], id, ending, at) == executions[r]
    {
      forall j: nat | j < |executions[r]|
        ensures executions[r][j].id != id
      {
        assert !FoundAt(executions, id, r, j);
      }
      NotIn(executions[r], id, ending, at);
    }
  }

  lemma ReplacedMirrored(executions: map<int, seq<Execution>>, table: map<int, Execution>, run: int, i: nat,
      e: Execution)
    requires ExecutionsMirrored(executions, table) && FoundAt(executions, e.id, run, i)
    requires e.key == executions[run][i].key
    ensures ExecutionsMirrored(executions[run := executions[run][i := e]], table[e.id := e])
  {
    var after := executions[run := executions[run][i := e]];
    assert forall id, r, k: nat :: FoundAt(after, id, r, k) <==> FoundAt(executions, id, r, k);
    forall id | id in table
      ensures Found(after, id, table[id].key.run)
    {
      var k: nat :| FoundAt(executions, id, table[id].key.run, k);
      assert FoundAt(after, id, table[id].key.run, k);
    }
    assert FoundAt(after, e.id, run, i);
  }

  lemma LineageKeeps(lineage: map<int, seq<int>>, table: set<(int, int)>, run: int, finding: int)
    requires LineageMirrored(lineage, table)
    ensures var ids := Produced(lineage, run);
            LineageMirrored(lineage[run := if finding in ids then ids else ids + [finding]], table + {(run, finding)})
  {
    var ids := Produced(lineage, run);
    var after := lineage[run := if finding in ids then ids else ids + [finding]];
    forall r, f
      ensures f in Produced(after, r) <==> (r, f) in table + {(run, finding)}
    {
      assert f in Produced(lineage, r) <==> (r, f) in table;
    }
  }

  lemma DeletedExecutionsMirrored(executions: map<int, seq<Execution>>, table: map<int, Execution>, gone: set<int>)
    requires ExecutionsMirrored(executions, table)
    ensures ExecutionsMirrored(executions - gone,
                               table - (set id | id in table && table[id].key.run in gone))
  {
    var after := executions - gone;
    assert forall id, r, i: nat :: FoundAt(after, id, r, i) <==> FoundAt(executions, id, r, i) && r !in gone;
    forall id | id in table && table[id].key.run !in gone
      ensures Found(after, id, table[id].key.run)
    {
      var i: nat :| FoundAt(executions, id, table[id].key.run, i);
      assert FoundAt(after, id, table[id].key.run, i);
    }
  }

  lemma DeletedMirrored(s: Store, rows: Rows, project: int)
    requires Mirrored(s, rows)
    ensures Mirrored(AfterDelete(s, project), RowsWithout(rows, RunsOf(s.runs, project)))
  {
    var gone := RunsOf(s.runs, project);
    DeletedExecutionsMirrored(s.executions, rows.executions, gone);
    var after := s.lineage - gone;
    forall r, f
      ensures f in Produced(after, r) <==> (r, f) in RowsWithout(rows, gone).lineage
    {
      assert f in Produced(s.lineage, r) <==> (r, f) in rows.lineage;
    }
  }

  // ---------------------------------------------------------------- sorting a history by start time

  function Placed(e: Execution, sorted: seq<Execution>): (r: seq<Execution>)
  {
    if sorted == [] then [e]
    else
      var n := |sorted| - 1;
      if sorted[n].startedAt <= e.startedAt then sorted + [e] else Placed(e, sorted[..n]) + [sorted[n]]
  }

  // The stable sort: an entry goes behind those that started no later.
  function ByStart(history: seq<Execution>): (r: seq<Execution>)
  {
    if history == [] then [] else Placed(history[|history| - 1], ByStart(history[..|history| - 1]))
  }

  ghost predicate AllBefore(s: seq<Execution>, time: int)
  {
    forall x :: x in s ==> x.startedAt < time
  }

  ghost predicate Increasing(s: seq<Execution>)
  {
    s == [] || (Increasing(s[..|s| - 1]) && AllBefore(s[..|s| - 1], s[|s| - 1].startedAt))
  }

  ghost predicate StartsDiffer(history: seq<Execution>)
  {
    forall i, j :: 0 <= i < j < |history| ==> history[i].startedAt != history[j].startedAt
  }

  lemma {:induction false} PlacedKeepsAll(e: Execution, sorted: seq<Execution>)
    ensures forall x :: x in Placed(e, sorted) <==> x == e || x in sorted
  {
    if sorted != [] {
      var n := |sorted| - 1;
      assert sorted == sorted[..n] + [sorted[n]];
      PlacedKeepsAll(e, sorted[..n]);
    }
  }

  lemma {:induction false} PlacedSorts(e: Execution, sorted: seq<Execution>)
    requires Increasing(sorted) && forall x :: x in sorted ==> x.startedAt != e.startedAt
    ensures Increasing(Placed(e, sorted))
  {
    if sorted != [] {
      var n := |sorted| - 1;
      var result := Placed(e, sorted);
      assert sorted == sorted[..n] + [sorted[n]];
      if sorted[n].startedAt <= e.startedAt {
        assert result[..|result| - 1] == sorted;
      } else {
        PlacedSorts(e, sorted[..n]);
        PlacedKeepsAll(e, sorted[..n]);
        assert result[..|result| - 1] == Placed(e, sorted[..n]);
      }
    }
  }

  lemma {:induction false} ByStartKeepsAll(history: seq<Execution>)
    ensures forall x :: x in ByStart(history) <==> x in history
  {
    if history != [] {
      var n := |history| - 1;
      assert history == history[..n] + [history[n]];
      ByStartKeepsAll(history[..n]);
      PlacedKeepsAll(history[n], ByStart(history[..n]));
    }
  }

  lemma {:induction false} ByStartSorts(history: seq<Execution>)
    requires StartsDiffer(history)
    ensures Increasing(ByStart(history))
  {
    if history != [] {
      var n := |history| - 1;
      ByStartSorts(history[..n]);
      ByStartKeepsAll(history[..n]);
      PlacedSorts(history[n], ByStart(history[..n]));
    }
  }

  lemma {:induction false} IncreasingDiffer(s: seq<Execution>)
    requires Increasing(s)
    ensures StartsDiffer(s)
  {
    if s != [] {
      var n := |s| - 1;
      IncreasingDiffer(s[..n]);
      forall i, j | 0 <= i < j < |s|
        ensures s[i].startedAt != s[j].startedAt
      {
        assert s[i] == s[..n][i] && s[i] in s[..n];
        if j < n {
          assert s[j] == s[..n][j];
        }
      }
    }
  }

  lemma LastIn(s: seq<Execution>)
    requires s != []
    ensures s[|s| - 1] in s
  {
  }

  // Entries that all started at different times can be put in order in one way only.
  lemma {:induction false} IncreasingOnce(a: seq<Execution>, b: seq<Execution>)
    requires Increasing(a) && Increasing(b) && forall x :: x in a <==> x in b
    ensures a == b
  {
    if b != [] {
      LastIn(b);
    }
    if a != [] {
      LastIn(a);
      var n, m := |a| - 1, |b| - 1;
      assert a == a[..n] + [a[n]] && b == b[..m] + [b[m]];
      assert a[n] in b && b[m] in a;
      var last := a[n];
      assert b[m] == last && last !in a[..n] && last !in b[..m];
      forall x
        ensures x in a[..n] <==> x in b[..m]
      {
        assert x in a <==> x in b;
        assert x in a <==> x in a[..n] || x == last;
        assert x in b <==> x in b[..m] || x == last;
      }
      IncreasingOnce(a[..n], b[..m]);
    }
  }

  lemma SameHistory(a: seq<Execution>, b: seq<Execution>)
    requires StartsDiffer(a) && StartsDiffer(b) && forall x :: x in a <==> x in b
    ensures ByStart(a) == ByStart(b) && ByStart(ByStart(b)) == ByStart(a)
  {
    ByStartSorts(a);
    ByStartKeepsAll(a);
    ByStartSorts(b);
    ByStartKeepsAll(b);
    IncreasingOnce(ByStart(a), ByStart(b));
    IncreasingDiffer(ByStart(b));
    ByStartSorts(ByStart(b));
    ByStartKeepsAll(ByStart(b));
    IncreasingOnce(ByStart(a), ByStart(ByStart(b)));
  }

  // Executions that started together keep the order of the rows, so a restart may swap them.
  lemma TiesKeepRowOrder(x: Execution, y: Execution)
    requires x.startedAt == y.startedAt && x != y
    ensures ByStart([x, y]) == [x, y] && ByStart([y, x]) == [y, x] && ByStart([x, y]) != ByStart([y, x])
  {
    assert [x, y][..1] == [x] && [y, x][..1] == [y] && [x][..0] == [] && [y][..0] == [];
    assert ByStart([x]) == [x] && ByStart([y]) == [y];
  }

  // An entry is in a run's history just when its row says so.
  lemma EntryByRow(executions: map<int, seq<Execution>>, table: map<int, Execution>, run: int, e: Execution)
    requires ExecutionsMirrored(executions, table)
    ensures e in History(executions, run) <==> e.id in table && table[e.id] == e && e.key.run == run
  {
    if e in History(executions, run) {
      var i: nat :| i < |executions[run]| && executions[run][i] == e;
      assert FoundAt(executions, e.id, run, i);
    }
    if e.id in table && table[e.id] == e && e.key.run == run {
      var i: nat :| FoundAt(executions, e.id, run, i);
      assert executions[run][i] == e;
    }
  }

  // Any store that mirrors the same rows has the same history of a run whose executions started at
  // different times.
  lemma SameRowsSameHistory(one: map<int, seq<Execution>>, two: map<int, seq<Execution>>, table: map<int, Execution>,
      run: int)
    requires ExecutionsMirrored(one, table) && ExecutionsMirrored(two, table)
    requires StartsDiffer(History(one, run))
    ensures ByStart(History(one, run)) == ByStart(History(two, run))
    ensures ByStart(ByStart(History(two, run))) == ByStart(History(one, run))
  {
    var a, b := History(one, run), History(two, run);
    forall x
      ensures x in a <==> x in b
    {
      EntryByRow(one, table, run, x);
      EntryByRow(two, table, run, x);
    }
    forall i, j | 0 <= i < j < |b|
      ensures b[i].startedAt != b[j].startedAt
    {
      assert FoundAt(two, b[i].id, run, i) && FoundAt(two, b[j].id, run, j);
      assert b[i] in a && b[j] in a;
    }
    SameHistory(a, b);
  }

  ghost predicate DistinctIds(history: seq<Execution>)
  {
    forall i, j :: 0 <= i < j < |history| ==> history[i].id != history[j].id
  }

  lemma {:induction false} PlacedDistinct(e: Execution, sorted: seq<Execution>)
    requires DistinctIds(sorted) && forall x :: x in sorted ==> x.id != e.id
    ensures DistinctIds(Placed(e, sorted))
  {
    if sorted != [] {
      var n := |sorted| - 1;
      assert sorted == sorted[..n] + [sorted[n]];
      if sorted[n].startedAt > e.startedAt {
        PlacedDistinct(e, sorted[..n]);
        PlacedKeepsAll(e, sorted[..n]);
        var front := Placed(e, sorted[..n]);
        assert forall x :: x in sorted[..n] ==> x.id != sorted[n].id;
        forall i | 0 <= i < |front|
          ensures front[i].id != sorted[n].id
        {
          assert front[i] in front;
        }
      }
    }
  }

  lemma {:induction false} ByStartDistinct(history: seq<Execution>)
    requires DistinctIds(history)
    ensures DistinctIds(ByStart(history))
  {
    if history != [] {
      var n := |history| - 1;
      ByStartDistinct(history[..n]);
      ByStartKeepsAll(history[..n]);
      PlacedDistinct(history[n], ByStart(history[..n]));
    }
  }

  function Sorted(executions: map<int, seq<Execution>>): (r: map<int, seq<Execution>>)
  {
    map r | r in executions :: ByStart(executions[r])
  }

  // Sorting each history keeps the mirror.
  lemma SortedMirrored(executions: map<int, seq<Execution>>, table: map<int, Execution>)
    requires ExecutionsMirrored(executions, table)
    ensures ExecutionsMirrored(Sorted(executions), table)
  {
    var after := Sorted(executions);
    forall r | r in executions
      ensures DistinctIds(after[r]) && forall x :: x in after[r] <==> x in executions[r]
    {
      forall i: nat, j: nat | i < j < |executions[r]|
        ensures executions[r][i].id != executions[r][j].id
      {
        assert FoundAt(executions, executions[r][i].id, r, i) && FoundAt(executions, executions[r][j].id, r, j);
      }
      ByStartDistinct(executions[r]);
      ByStartKeepsAll(executions[r]);
    }
    forall id, r, i: nat | FoundAt(after, id, r, i)
      ensures id in table && table[id] == after[r][i] && after[r][i].key.run == r
    {
      var x := after[r][i];
      assert x in after[r] && x in History(executions, r);
      EntryByRow(executions, table, r, x);
    }
    forall id | id in table
      ensures Found(after, id, table[id].key.run)
    {
      var r := table[id].key.run;
      EntryByRow(executions, table, r, table[id]);
      var i: nat :| i < |after[r]| && after[r][i] == table[id];
      assert FoundAt(after, id, r, i);
    }
  }
}
