/**
 What a second walk over the same block decides. If it finds nothing new, neither does any later one, and
 the first walk covers every run. The converse fails: a run rebinds names where a walk only adds to them,
 and takes one arm of a conditional where a walk takes both and the test. Two programs show it.
 */
module TaintLimits {
  import opened TaintSyntax
  import opened TaintEngine
  import opened TaintNames
  import opened TaintRun
  import opened TaintSoundness
  import opened TaintPasses

  // Walk number k + 1 finds no name and no sink that the first walk has not found.
  ghost predicate AddsNothing(scan: Scan, stmts: seq<Stmt>, t: TaintMap, k: nat)
  {
    Below(Names(Block(scan, stmts, Passes(scan, stmts, k, t))), Names(Block(scan, stmts, t)))
  }

  lemma {:induction false} StaysAfterOne(scan: Scan, stmts: seq<Stmt>, k: nat, t: TaintMap)
    requires AddsNothing(scan, stmts, t, 1) && k > 0
    ensures Passes(scan, stmts, k, t).Keys == Passes(scan, stmts, 1, t).Keys
    decreases k
  {
    LastWalk(scan, stmts, 0, t);
    LastWalk(scan, stmts, 1, t);
    PassesProject(scan, stmts, 1, t);
    PassNamesBounded(scan, stmts, 2, t.Keys);
    if k > 1 {
      StaysAfterOne(scan, stmts, k - 1, t);
      LastWalk(scan, stmts, k - 1, t);
      PassesProject(scan, stmts, k - 1, t);
      PassesProject(scan, stmts, k, t);
    }
  }

  // One walk finds all that any number of walks find exactly if the second one finds nothing new.
  lemma SecondWalkTells(scan: Scan, stmts: seq<Stmt>, t: TaintMap)
    ensures (forall k: nat :: AddsNothing(scan, stmts, t, k)) <==> AddsNothing(scan, stmts, t, 1)
  {
    if AddsNothing(scan, stmts, t, 1) {
      forall k: nat
        ensures AddsNothing(scan, stmts, t, k)
      {
        if k > 0 {
          StaysAfterOne(scan, stmts, k, t);
          PassesProject(scan, stmts, k, t);
          PassesProject(scan, stmts, 1, t);
          LastWalk(scan, stmts, k, t);
          LastWalk(scan, stmts, 1, t);
        }
      }
    }
  }

  // Then the one walk covers every run of any program, loops and finally blocks included.
  lemma SecondWalkEnsures(scan: Scan, stmts: seq<Stmt>, env: set<string>, ch: seq<Choice>, t: TaintMap)
    requires AddsNothing(scan, stmts, t, 1) && env <= t.Keys
    ensures Within(RunBlock(scan, stmts, env, ch), Names(Block(scan, stmts, t)))
  {
    var once := Passes(scan, stmts, 1, t);
    StaysAfterOne(scan, stmts, 2, t);
    PassesProject(scan, stmts, 1, t);
    PassesProject(scan, stmts, 2, t);
    PassNamesBounded(scan, stmts, 1, t.Keys);
    BlockProjects(scan, stmts, once);
    StableBlockCovered(scan, stmts, once.Keys);
    CoveredWalkIsSound(scan, stmts, env, ch, once);
  }

  // ---------------------------------------------------------------- and when nothing is lost though it does

  ghost predicate RunWithin(stmts: seq<Stmt>, ch: seq<Choice>)
  {
    Within(RunBlock(DemoScan(), stmts, {}, ch), Names(Block(DemoScan(), stmts, map[])))
  }

  // One walk covers every run although a second one would find more.
  ghost predicate CoveredUnsettled(stmts: seq<Stmt>)
  {
    !AddsNothing(DemoScan(), stmts, map[], 1) && !BlockCovered(DemoScan(), stmts, {})
        && forall ch :: RunWithin(stmts, ch)
  }

  const CLEAR_Y := Assign([NameTarget("y")], Constant, 5)

  // Nothing tainted so far, so nothing is hit; what may be tainted is y.
  predicate Quiet(r: Run)
  {
    r.hits == {} && r.env <= {"y"}
  }

  lemma QuietUse(ch: seq<Choice>)
    ensures var r := RunStmt(DemoScan(), USE_Y, {}, ch);
            Quiet(r) && r.env == {} && (r.outcome.Normal? || r.outcome.Raised? || r.outcome.Cut?)
  {
    if ch != [] {
      assert !Fires(DemoScan(), SINK, {}, ch[0].taken);
      DemoCalls();
    }
  }

  lemma DemoCalls()
    ensures ChildCalls(SINK) == [SINK] && ChildCalls(SOURCE) == [SOURCE] && ChildCalls(Constant) == []
  {
    assert ChildCalls(Name("run")) == [] && ChildCalls(Name("y")) == [] && ChildCalls(Name("read")) == [];
    assert AllCalls([Name("y")]) == [] && AllCalls([]) == [];
  }

  lemma QuietRead(ch: seq<Choice>)
    ensures var r := RunStmt(DemoScan(), READ_Y, {}, ch);
            Quiet(r) && (r.outcome.Normal? || r.outcome.Raised? || r.outcome.Cut?)
  {
    DemoCalls();
    SingleTarget(NameTarget("y"));
  }

  lemma QuietClear(env: set<string>, ch: seq<Choice>)
    requires env <= {"y"}
    ensures var r := RunStmt(DemoScan(), CLEAR_Y, env, ch);
            Quiet(r) && (r.outcome.Normal? || r.outcome.Raised? || r.outcome.Cut?)
            && (r.outcome.Normal? ==> r.env == {})
  {
    DemoCalls();
    SingleTarget(NameTarget("y"));
  }

  // y = const, after the read.
  lemma QuietTail(env: set<string>, ch: seq<Choice>)
    requires env <= {"y"}
    ensures var r := RunBlock(DemoScan(), [CLEAR_Y], env, ch);
            Quiet(r) && (r.outcome.Normal? || r.outcome.Raised? || r.outcome.Cut?)
            && (r.outcome.Normal? ==> r.env == {})
  {
    QuietClear(env, ch);
    if ch != [] && RunStmt(DemoScan(), CLEAR_Y, env, ch).outcome.Normal? {
      DemoHead([CLEAR_Y], env, ch);
      assert [CLEAR_Y][1..] == [];
    }
  }

  lemma QuietRest(ch: seq<Choice>)
    ensures var r := RunBlock(DemoScan(), [READ_Y, CLEAR_Y], {}, ch);
            Quiet(r) && (r.outcome.Normal? || r.outcome.Raised? || r.outcome.Cut?)
            && (r.outcome.Normal? ==> r.env == {})
  {
    QuietRead(ch);
    var first := RunStmt(DemoScan(), READ_Y, {}, ch);
    if ch != [] && first.outcome.Normal? {
      DemoHead([READ_Y, CLEAR_Y], {}, ch);
      assert [READ_Y, CLEAR_Y][1..] == [CLEAR_Y];
      QuietTail(first.env, first.rest);
    }
  }

  const ROUND := [USE_Y, READ_Y, CLEAR_Y]

  lemma QuietRound(ch: seq<Choice>)
    ensures var r := RunBlock(DemoScan(), ROUND, {}, ch);
            Quiet(r) && (r.outcome.Normal? || r.outcome.Raised? || r.outcome.Cut?)
            && (r.outcome.Normal? ==> r.env == {})
  {
    QuietUse(ch);
    var first := RunStmt(DemoScan(), USE_Y, {}, ch);
    if ch != [] && first.outcome.Normal? {
      DemoHead(ROUND, {}, ch);
      assert ROUND[1..] == [READ_Y, CLEAR_Y];
      QuietRest(first.rest);
    }
  }

  lemma {:induction false} QuietLoop(ch: seq<Choice>)
    ensures Quiet(RunLoop(DemoScan(), While(Constant, ROUND, []), false, {}, ch))
    decreases |ch|
  {
    DemoCalls();
    if ch != [] && !ch[0].raises && ch[0].pick == 0 {
      QuietRound(ch[1..]);
      var r := RunBlock(DemoScan(), ROUND, {}, ch[1..]);
      if r.outcome.Normal? {
        QuietLoop(r.rest);
      }
    }
  }

  lemma ClearWalk(names: set<string>)
    ensures BlockReach(DemoScan(), [CLEAR_Y], names) == Reach(names, {})
  {
    assert CollectCalls(Constant) == [] && [CLEAR_Y][1..] == [];
    assert StmtReach(DemoScan(), CLEAR_Y, names) == Reach(names, {});
  }

  lemma RestWalk(names: set<string>)
    ensures BlockReach(DemoScan(), [READ_Y, CLEAR_Y], names) == Reach(names + {"y"}, {})
  {
    DemoRead(names, [GO]);
    ClearWalk(names + {"y"});
    assert [READ_Y, CLEAR_Y][1..] == [CLEAR_Y];
  }

  lemma RoundWalk(names: set<string>)
    ensures BlockReach(DemoScan(), ROUND, names) == Reach(names + {"y"}, if "y" in names then {HIT} else {})
  {
    DemoSinks(names, GO);
    RestWalk(names);
    assert ROUND[1..] == [READ_Y, CLEAR_Y];
  }

  // The names and sinks of a one-statement block, walked once and twice.
  lemma WalksOfOne(s: Stmt)
    ensures Names(Block(DemoScan(), [s], map[])) == StmtReach(DemoScan(), s, {})
    ensures AddsNothing(DemoScan(), [s], map[], 1) <==>
            Below(StmtReach(DemoScan(), s, StmtReach(DemoScan(), s, {}).names), StmtReach(DemoScan(), s, {}))
  {
    var empty: TaintMap := map[];
    assert empty.Keys == {} && [s][1..] == [];
    LastWalk(DemoScan(), [s], 0, empty);
    LastWalk(DemoScan(), [s], 1, empty);
  }

  lemma Unsettled(s: Stmt)
    requires Rewalked(s)
    requires StmtReach(DemoScan(), s, {}) == Reach({"y"}, {}) && HIT in StmtReach(DemoScan(), s, {"y"}).sinks
    ensures !AddsNothing(DemoScan(), [s], map[], 1) && !BlockCovered(DemoScan(), [s], {})
    ensures Names(Block(DemoScan(), [s], map[])) == Reach({"y"}, {})
  {
    WalksOfOne(s);
    assert !Settled(DemoScan(), s, {});
  }

  // A quiet run of the one statement is within such a walk.
  lemma QuietWithin(s: Stmt, ch: seq<Choice>)
    requires Names(Block(DemoScan(), [s], map[])) == Reach({"y"}, {})
    requires Quiet(RunStmt(DemoScan(), s, {}, ch))
    ensures RunWithin([s], ch)
  {
    assert [s][1..] == [];
  }

  lemma LoopWalk(s: Stmt)
    requires s == While(Constant, ROUND, [])
    ensures StmtReach(DemoScan(), s, {}) == Reach({"y"}, {})
    ensures HIT in StmtReach(DemoScan(), s, {"y"}).sinks
  {
    RoundWalk({});
    assert CollectCalls(Constant) == [] && {} + {"y"} == {"y"};
    RoundWalk({"y"});
  }

  // while c: run(y); y = read(); y = const. Each round clears what it read before the next one.
  lemma ClearedEachRound()
    ensures CoveredUnsettled([While(Constant, ROUND, [])])
  {
    var s := While(Constant, ROUND, []);
    LoopWalk(s);
    Unsettled(s);
    forall ch
      ensures RunWithin([s], ch)
    {
      QuietLoop(ch);
      QuietWithin(s, ch);
    }
  }

  const PICK := IfExp(SOURCE, Constant, Constant, 6)
  const PICK_Y := Assign([NameTarget("y")], PICK, 6)

  predicate Clean(r: Run)
  {
    r.hits == {} && r.env == {}
  }

  lemma PickCalls()
    ensures ChildCalls(PICK) == [SOURCE] && CollectCalls(PICK) == [SOURCE]
  {
    DemoCalls();
  }

  lemma CleanPick(ch: seq<Choice>)
    ensures Clean(RunBlock(DemoScan(), [PICK_Y], {}, ch))
  {
    PickCalls();
    SingleTarget(NameTarget("y"));
    assert [PICK_Y][1..] == [];
    assert ch != [] ==> !Tainted(DemoScan(), PICK, {}, ch[0].taken);
  }

  lemma CleanPieces(ch: seq<Choice>)
    ensures Clean(RunBlock(DemoScan(), [ExprStmt(Constant)], {}, ch)) && Clean(RunBlock(DemoScan(), [USE_Y], {}, ch))
  {
    DemoCalls();
    QuietUse(ch);
    assert [ExprStmt(Constant)][1..] == [] && [USE_Y][1..] == [];
  }

  lemma CleanHandled(s: Stmt, ch: seq<Choice>)
    requires s == Try([ExprStmt(Constant)], [Handler([PICK_Y])], [], [USE_Y])
    ensures Clean(RunHandled(DemoScan(), s, {}, ch))
  {
    CleanPieces(ch);
    var b := RunBlock(DemoScan(), [ExprStmt(Constant)], {}, ch);
    if b.outcome.Raised? && b.rest != [] && b.rest[0].pick < 1 {
      CleanPick(b.rest[1..]);
      assert s.handlers[b.rest[0].pick].body == [PICK_Y];
    }
  }

  lemma CleanTry(s: Stmt, ch: seq<Choice>)
    requires s == Try([ExprStmt(Constant)], [Handler([PICK_Y])], [], [USE_Y])
    ensures Clean(RunStmt(DemoScan(), s, {}, ch))
  {
    if ch != [] {
      CleanHandled(s, ch[1..]);
      CleanPieces(RunHandled(DemoScan(), s, {}, ch[1..]).rest);
    }
  }

  lemma PickWalk(names: set<string>)
    ensures HandlersReach(DemoScan(), [Handler([PICK_Y])], names) == Reach(names + {"y"}, {})
  {
    PickCalls();
    SingleTarget(NameTarget("y"));
    assert [PICK_Y][1..] == [] && [Handler([PICK_Y])][1..] == [];
    assert StmtReach(DemoScan(), PICK_Y, names) == Reach(names + {"y"}, {});
    assert BlockReach(DemoScan(), [PICK_Y], names) == Reach(names + {"y"}, {});
  }

  // A try statement whose body and finally block add no name.
  lemma TryOf(scan: Scan, s: Stmt, names: set<string>, sinks: set<SinkRef>, h: Reach)
    requires s.Try? && s.orelse == [] && BlockReach(scan, s.body, names) == Reach(names, {})
    requires BlockReach(scan, s.finalbody, names) == Reach(names, sinks) && HandlersReach(scan, s.handlers, names) == h
    ensures StmtReach(scan, s, names) == Reach(h.names, sinks + h.sinks)
  {
  }

  lemma ExpressionWalk(scan: Scan, e: Expr, names: set<string>)
    ensures BlockReach(scan, [ExprStmt(e)], names) == Reach(names, SinkReach(scan, e, names))
  {
    var s := ExprStmt(e);
    assert [s][1..] == [];
  }

  lemma UseWalk(names: set<string>)
    ensures BlockReach(DemoScan(), [USE_Y], names) == Reach(names, if "y" in names then {HIT} else {})
    ensures BlockReach(DemoScan(), [ExprStmt(Constant)], names) == Reach(names, {})
  {
    DemoSinks(names, GO);
    ExpressionWalk(DemoScan(), SINK, names);
    ExpressionWalk(DemoScan(), Constant, names);
    assert CollectCalls(Constant) == [];
  }

  lemma TryWalk(s: Stmt, names: set<string>)
    requires s == Try([ExprStmt(Constant)], [Handler([PICK_Y])], [], [USE_Y])
    ensures StmtReach(DemoScan(), s, names) == Reach(names + {"y"}, if "y" in names then {HIT} else {})
  {
    PickWalk(names);
    UseWalk(names);
    TryOf(DemoScan(), s, names, if "y" in names then {HIT} else {}, Reach(names + {"y"}, {}));
  }

  // try: may_fail()  except: y = const if read() else const  finally: run(y). The test does not taint y.
  lemma TestedOnly()
    ensures CoveredUnsettled([Try([ExprStmt(Constant)], [Handler([PICK_Y])], [], [USE_Y])])
  {
    var s := Try([ExprStmt(Constant)], [Handler([PICK_Y])], [], [USE_Y]);
    TryWalk(s, {});
    assert {} + {"y"} == {"y"};
    TryWalk(s, {"y"});
    Unsettled(s);
    forall ch
      ensures RunWithin([s], ch)
    {
      CleanTry(s, ch);
      QuietWithin(s, ch);
    }
  }
}
