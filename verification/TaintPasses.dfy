/**
 Walking a block again and again: the chain of walks stabilises within as many rounds as the block
 has names to assign, and from there one walk covers every run of any program, loops, loop else
 blocks and finally blocks included. One walk alone does not: three small programs show it.
 */
module TaintPasses {
  import opened Wrappers
  import opened TaintSyntax
  import opened TaintEngine
  import opened TaintNames
  import opened TaintRun
  import opened TaintSoundness

  // ---------------------------------------------------------------- the chain of walks

  // The taint map after k walks over the same block.
  function Passes(scan: Scan, stmts: seq<Stmt>, k: nat, t: TaintMap): (r: TaintMap)
  {
    if k == 0 then t else Block(scan, stmts, Passes(scan, stmts, k - 1, t)).tainted
  }

  // The names a walk over the statement can add.
  function Assigned(s: Stmt): (r: set<string>)
    decreases s, 1
  {
    match s
    case Assign(targets, _, _) => TargetNames(targets)
    case AnnAssign(target, _, _) => TargetNames([target])
    case AugAssign(target, _, _) => TargetNames([target])
    case If(_, body, orelse) => BlockAssigned(body) + BlockAssigned(orelse)
    case While(_, body, orelse) => BlockAssigned(body) + BlockAssigned(orelse)
    case For(targets, _, body, orelse, _) => TargetNames(targets) + BlockAssigned(body) + BlockAssigned(orelse)
    case Try(body, handlers, orelse, finalbody) =>
      BlockAssigned(body) + BlockAssigned(orelse) + BlockAssigned(finalbody) + HandlersAssigned(handlers)
    case With(body) => BlockAssigned(body)
    case _ => {}
  }

  function HandlersAssigned(handlers: seq<Handler>): (r: set<string>)
    decreases handlers, 0
  {
    if handlers == [] then {} else BlockAssigned(handlers[0].body) + HandlersAssigned(handlers[1..])
  }

  function BlockAssigned(stmts: seq<Stmt>): (r: set<string>)
    decreases stmts, 0
  {
    if stmts == [] then {} else Assigned(stmts[0]) + BlockAssigned(stmts[1..])
  }

  lemma {:induction false} StmtAddsAssigned(scan: Scan, s: Stmt, names: set<string>)
    ensures StmtReach(scan, s, names).names <= names + Assigned(s)
    decreases s, 1
  {
    match s
    case If(_, body, orelse) =>
      BlockAddsAssigned(scan, body, names);
      BlockAddsAssigned(scan, orelse, names);
    case While(_, body, orelse) =>
      BlockAddsAssigned(scan, body, names);
      BlockAddsAssigned(scan, orelse, names);
    case For(targets, iter, body, orelse, _) =>
      var entry := TargetReach(scan, targets, iter, names);
      BlockAddsAssigned(scan, body, entry);
      BlockAddsAssigned(scan, orelse, entry);
    case Try(body, handlers, orelse, finalbody) =>
      var b := BlockReach(scan, body, names).names;
      var o := BlockReach(scan, orelse, b).names;
      BlockAddsAssigned(scan, body, names);
      BlockAddsAssigned(scan, orelse, b);
      BlockAddsAssigned(scan, finalbody, o);
      HandlersAddAssigned(scan, handlers, BlockReach(scan, finalbody, o).names);
    case With(body) => BlockAddsAssigned(scan, body, names);
    case _ =>
  }

  lemma {:induction false} HandlersAddAssigned(scan: Scan, handlers: seq<Handler>, names: set<string>)
    ensures HandlersReach(scan, handlers, names).names <= names + HandlersAssigned(handlers)
    decreases handlers, 0
  {
    if handlers != [] {
      BlockAddsAssigned(scan, handlers[0].body, names);
      HandlersAddAssigned(scan, handlers[1..], BlockReach(scan, handlers[0].body, names).names);
    }
  }

  lemma {:induction false} BlockAddsAssigned(scan: Scan, stmts: seq<Stmt>, names: set<string>)
    ensures BlockReach(scan, stmts, names).names <= names + BlockAssigned(stmts)
    decreases stmts, 0
  {
    if stmts != [] {
      StmtAddsAssigned(scan, stmts[0], names);
      BlockAddsAssigned(scan, stmts[1..], StmtReach(scan, stmts[0], names).names);
    }
  }

  function PassNames(scan: Scan, stmts: seq<Stmt>, k: nat, names: set<string>): (r: set<string>)
  {
    if k == 0 then names else BlockReach(scan, stmts, PassNames(scan, stmts, k - 1, names)).names
  }

  lemma {:induction false} PassesProject(scan: Scan, stmts: seq<Stmt>, k: nat, t: TaintMap)
    ensures Passes(scan, stmts, k, t).Keys == PassNames(scan, stmts, k, t.Keys)
    decreases k
  {
    if k > 0 {
      PassesProject(scan, stmts, k - 1, t);
      BlockProjects(scan, stmts, Passes(scan, stmts, k - 1, t));
    }
  }

  lemma {:induction false} PassNamesBounded(scan: Scan, stmts: seq<Stmt>, k: nat, names: set<string>)
    ensures names <= PassNames(scan, stmts, k, names) <= names + BlockAssigned(stmts)
    ensures k > 0 ==> PassNames(scan, stmts, k - 1, names) <= PassNames(scan, stmts, k, names)
    decreases k
  {
    if k > 0 {
      var p := PassNames(scan, stmts, k - 1, names);
      PassNamesBounded(scan, stmts, k - 1, names);
      BlockMonotone(scan, stmts, p, p);
      BlockAddsAssigned(scan, stmts, p);
    }
  }

  // Every walk up to one that still adds a name has added a name itself.
  lemma {:induction false} EachPassGrows(scan: Scan, stmts: seq<Stmt>, k: nat, names: set<string>)
    requires PassNames(scan, stmts, k + 1, names) != PassNames(scan, stmts, k, names)
    ensures |PassNames(scan, stmts, k + 1, names) - names| > k
    decreases k
  {
    var p, q := PassNames(scan, stmts, k, names), PassNames(scan, stmts, k + 1, names);
    PassNamesBounded(scan, stmts, k, names);
    PassNamesBounded(scan, stmts, k + 1, names);
    if k > 0 {
      EachPassGrows(scan, stmts, k - 1, names);
    }
    ProperSubsetSmaller(p - names, q - names);
  }

  lemma ProperSubsetSmaller(a: set<string>, b: set<string>)
    requires a <= b && a != b
    ensures |a| < |b|
  {
    assert b == a + (b - a);
  }

  lemma SubsetSmaller(a: set<string>, b: set<string>)
    requires a <= b
    ensures |a| <= |b|
  {
    assert b == a + (b - a);
  }

  // The chain stops growing within as many rounds as the block assigns names not tainted already.
  lemma PassesConverge(scan: Scan, stmts: seq<Stmt>, k: nat, t: TaintMap)
    requires k >= |BlockAssigned(stmts) - t.Keys|
    ensures Passes(scan, stmts, k + 1, t).Keys == Passes(scan, stmts, k, t).Keys
  {
    PassesProject(scan, stmts, k, t);
    PassesProject(scan, stmts, k + 1, t);
    var p, q := PassNames(scan, stmts, k, t.Keys), PassNames(scan, stmts, k + 1, t.Keys);
    if p != q {
      EachPassGrows(scan, stmts, k, t.Keys);
      PassNamesBounded(scan, stmts, k + 1, t.Keys);
      SubsetSmaller(q - t.Keys, BlockAssigned(stmts) - t.Keys);
    }
  }

  // ---------------------------------------------------------------- a stable walk covers everything

  lemma {:induction false} StableStmtCovered(scan: Scan, s: Stmt, names: set<string>)
    requires StmtReach(scan, s, names).names == names
    ensures Covered(scan, s, names)
    decreases s, 1
  {
    match s
    case If(_, body, orelse) =>
      BlockMonotone(scan, body, names, names);
      BlockMonotone(scan, orelse, names, names);
      assert BlockReach(scan, body, names).names == names == BlockReach(scan, orelse, names).names;
      StableBlockCovered(scan, body, names);
      StableBlockCovered(scan, orelse, names);
    case While(_, body, orelse) =>
      LoopParts(scan, s, names);
      StableBlockCovered(scan, body, names);
      StableBlockCovered(scan, orelse, names);
    case For(_, _, body, orelse, _) =>
      LoopParts(scan, s, names);
      StableBlockCovered(scan, body, names);
      StableBlockCovered(scan, orelse, names);
    case Try(body, handlers, orelse, finalbody) =>
      StagesStay(scan, s, names);
      StableBlockCovered(scan, body, names);
      StableBlockCovered(scan, orelse, names);
      StableBlockCovered(scan, finalbody, names);
      StableHandlersCovered(scan, handlers, names);
    case With(body) => StableBlockCovered(scan, body, names);
    case _ =>
  }

  lemma {:induction false} StableHandlersCovered(scan: Scan, handlers: seq<Handler>, names: set<string>)
    requires HandlersReach(scan, handlers, names).names == names
    ensures HandlersCovered(scan, handlers, names)
    decreases handlers, 0
  {
    if handlers != [] {
      var h := BlockReach(scan, handlers[0].body, names).names;
      BlockMonotone(scan, handlers[0].body, names, names);
      HandlersMonotone(scan, handlers[1..], h, h);
      assert h == names;
      StableBlockCovered(scan, handlers[0].body, names);
      StableHandlersCovered(scan, handlers[1..], names);
    }
  }

  lemma {:induction false} StableBlockCovered(scan: Scan, stmts: seq<Stmt>, names: set<string>)
    requires BlockReach(scan, stmts, names).names == names
    ensures BlockCovered(scan, stmts, names)
    decreases stmts, 0
  {
    if stmts != [] {
      var next := StmtReach(scan, stmts[0], names).names;
      StmtMonotone(scan, stmts[0], names, names);
      BlockMonotone(scan, stmts[1..], next, next);
      assert next == names;
      StableStmtCovered(scan, stmts[0], names);
      StableBlockCovered(scan, stmts[1..], names);
    }
  }

  // For any program at all: once the chain has run for the number of assigned names, one more walk
  // covers every run that starts from the original taint.
  lemma IteratedWalkIsSound(scan: Scan, stmts: seq<Stmt>, k: nat, env: set<string>, ch: seq<Choice>, t: TaintMap)
    requires env <= t.Keys && k >= |BlockAssigned(stmts) - t.Keys|
    ensures RunBlock(scan, stmts, env, ch).env <= Passes(scan, stmts, k, t).Keys
    ensures RunBlock(scan, stmts, env, ch).hits <= Flagged(Block(scan, stmts, Passes(scan, stmts, k, t)).findings)
  {
    var p := Passes(scan, stmts, k, t);
    PassesConverge(scan, stmts, k, t);
    PassesProject(scan, stmts, k, t);
    PassNamesBounded(scan, stmts, k, t.Keys);
    BlockProjects(scan, stmts, p);
    StableBlockCovered(scan, stmts, p.Keys);
    CoveredWalkIsSound(scan, stmts, env, ch, p);
  }

  // ---------------------------------------------------------------- k rounds of a loop body

  // At most k rounds of a loop body, one after the other.
  function Rounds(scan: Scan, body: seq<Stmt>, k: nat, env: set<string>, ch: seq<Choice>): (r: Run)
    decreases k
  {
    if k == 0 then Run(env, {}, Normal, ch)
    else
      var r := RunBlock(scan, body, env, ch);
      if r.outcome.Normal? || r.outcome.Continued? then
        After(r.hits, Rounds(scan, body, k - 1, r.env, r.rest))
      else r
  }

  lemma {:induction false} PassNamesShift(scan: Scan, stmts: seq<Stmt>, k: nat, names: set<string>)
    ensures PassNames(scan, stmts, k + 1, names) == PassNames(scan, stmts, k, BlockReach(scan, stmts, names).names)
    decreases k
  {
    if k > 0 {
      PassNamesShift(scan, stmts, k - 1, names);
    }
  }

  lemma {:induction false} RoundsWithin(
    scan: Scan, body: seq<Stmt>, k: nat, env: set<string>, ch: seq<Choice>, names: set<string>)
    requires env <= names && SimpleBlock(body)
    ensures Within(Rounds(scan, body, k + 1, env, ch), BlockReach(scan, body, PassNames(scan, body, k, names)))
    decreases k
  {
    var last := PassNames(scan, body, k, names);
    var r := RunBlock(scan, body, env, ch);
    SimpleBlockIsCovered(scan, body, names);
    BlockCovers(scan, body, env, ch, names);
    PassNamesBounded(scan, body, k, names);
    BlockMonotone(scan, body, names, last);
    if k > 0 && (r.outcome.Normal? || r.outcome.Continued?) {
      PassNamesShift(scan, body, k - 1, names);
      RoundsWithin(scan, body, k - 1, r.env, r.rest, BlockReach(scan, body, names).names);
    }
  }

  // k + 1 rounds are covered by k + 1 walks: the last of them flags whatever any round hits.
  lemma RoundsCoveredByPasses(
    scan: Scan, body: seq<Stmt>, k: nat, env: set<string>, ch: seq<Choice>, t: TaintMap)
    requires env <= t.Keys && SimpleBlock(body)
    ensures Within(Rounds(scan, body, k + 1, env, ch), Names(Block(scan, body, Passes(scan, body, k, t))))
  {
    RoundsWithin(scan, body, k, env, ch, t.Keys);
    LastWalk(scan, body, k, t);
  }

  lemma LastWalk(scan: Scan, stmts: seq<Stmt>, k: nat, t: TaintMap)
    ensures Names(Block(scan, stmts, Passes(scan, stmts, k, t))) ==
            BlockReach(scan, stmts, PassNames(scan, stmts, k, t.Keys))
  {
    PassesProject(scan, stmts, k, t);
    BlockProjects(scan, stmts, Passes(scan, stmts, k, t));
  }

  // ---------------------------------------------------------------- where one walk falls short

  const SOURCE := Call(Name("read"), [], [], 1)
  const SINK := Call(Name("run"), [Name("y")], [], 2)

  // A rule with one source call, one sink call and no sanitizer.
  function DemoScan(): (r: Scan)
  {
    Scan("demo.py",
         (line: int) => "",
         (e: Expr) => if e == SOURCE then Some(SourceRef("read()", "request_param")) else None,
         (e: Expr) => if e == SINK then Some(SinkRef(2, "run(y)", "shell")) else None,
         (e: Expr, sink: SinkRef) => false,
         (e: Expr) => if e.Call? && e.args != [] then Some(e.args[0]) else None,
         true)
  }

  const READ_Y := Assign([NameTarget("y")], SOURCE, 4)

  // The demo sink fires exactly when y is tainted, in a walk and in a run.
  lemma DemoSinks(names: set<string>, c: Choice)
    ensures SinkReach(DemoScan(), SINK, names) == if "y" in names then {SinkRef(2, "run(y)", "shell")} else {}
    ensures SinkReach(DemoScan(), SOURCE, names) == {}
    ensures SINK in c.ran && "y" in names ==> SinkRef(2, "run(y)", "shell") in Hits(DemoScan(), SINK, names, c)
  {
    assert CollectCalls(SINK) == [SINK] && CollectCalls(SOURCE) == [SOURCE] by {
      assert ChildCalls(Name("run")) == [] && ChildCalls(Name("y")) == [] && ChildCalls(Name("read")) == [];
      assert AllCalls([Name("y")]) == [] && AllCalls([]) == [];
    }
    assert MayFire(DemoScan(), SINK, names) == ("y" in names);
    assert Fires(DemoScan(), SINK, names, c.taken) == ("y" in names);
    assert SINK in ChildCalls(SINK);
  }

  lemma DemoRead(names: set<string>, ch: seq<Choice>)
    requires ch != [] && !ch[0].raises
    ensures StmtReach(DemoScan(), READ_Y, names) == Reach(names + {"y"}, {})
    ensures RunStmt(DemoScan(), READ_Y, names, ch).env == names + {"y"}
    ensures RunStmt(DemoScan(), READ_Y, names, ch).outcome == Normal
    ensures RunStmt(DemoScan(), READ_Y, names, ch).rest == ch[1..]
  {
    DemoSinks(names, ch[0]);
    SingleTarget(NameTarget("y"));
  }

  lemma DemoUse(env: set<string>, ch: seq<Choice>)
    requires "y" in env && ch != [] && !ch[0].raises && SINK in ch[0].ran
    ensures SinkRef(2, "run(y)", "shell") in RunBlock(DemoScan(), [ExprStmt(SINK)], env, ch).hits
    ensures BlockReach(DemoScan(), [ExprStmt(SINK)], {}).sinks == {}
  {
    DemoSinks(env, ch[0]);
    DemoSinks({}, ch[0]);
  }

  const USE_Y := ExprStmt(SINK)
  const HIT := SinkRef(2, "run(y)", "shell")
  const GO := Choice({SINK}, {}, {}, false, 0)
  const LEAVE := Choice({SINK}, {}, {}, false, 1)
  const RAISE := Choice({}, {}, {}, true, 0)

  lemma DemoHead(stmts: seq<Stmt>, env: set<string>, ch: seq<Choice>)
    requires stmts != [] && ch != []
    requires RunStmt(DemoScan(), stmts[0], env, ch).outcome.Normal?
    ensures var first := RunStmt(DemoScan(), stmts[0], env, ch);
            RunBlock(DemoScan(), stmts, env, ch) ==
            After(first.hits, RunBlock(DemoScan(), stmts[1..], first.env, first.rest))
  {
  }

  // The read and nothing after it.
  lemma DemoReadBlock(env: set<string>, ch: seq<Choice>)
    requires ch != [] && !ch[0].raises
    ensures var r := RunBlock(DemoScan(), [READ_Y], env, ch);
            r.env == env + {"y"} && r.outcome == Normal && r.rest == ch[1..]
    ensures BlockReach(DemoScan(), [READ_Y], env) == Reach(env + {"y"}, {})
  {
    DemoRead(env, ch);
    DemoHead([READ_Y], env, ch);
    assert [READ_Y][1..] == [];
  }

  // A program whose one walk reports nothing while one of its runs reaches the sink with tainted input.
  ghost predicate Missed(s: Stmt, ch: seq<Choice>)
  {
    HIT in RunStmt(DemoScan(), s, {}, ch).hits && Statement(DemoScan(), s, map[]).findings == []
  }

  lemma NothingFlagged(s: Stmt)
    requires StmtReach(DemoScan(), s, {}).sinks == {}
    ensures Statement(DemoScan(), s, map[]).findings == []
  {
    var empty: TaintMap := map[];
    assert empty.Keys == {};
    StmtProjects(DemoScan(), s, empty);
    var fs := Statement(DemoScan(), s, empty).findings;
    assert fs != [] ==> fs[0].sink in Flagged(fs);
  }

  // What one walk makes of the pieces, starting from no taint.
  lemma DemoWalks()
    ensures SinkReach(DemoScan(), Constant, {}) == {}
    ensures BlockReach(DemoScan(), [READ_Y], {}) == Reach({"y"}, {})
    ensures BlockReach(DemoScan(), [USE_Y], {}) == Reach({}, {})
  {
    assert CollectCalls(Constant) == [];
    DemoReadBlock({}, [GO]);
    DemoUse({"y"}, [GO]);
  }

  // One round of a while loop, and leaving it through its else block.
  lemma DemoRound(s: Stmt, env: set<string>, ch: seq<Choice>)
    requires s.While? && ch != [] && !ch[0].raises && ch[0].pick == 0
    ensures var r := RunBlock(DemoScan(), s.body, env, ch[1..]);
            r.hits <= RunLoop(DemoScan(), s, false, env, ch).hits &&
            (r.outcome.Normal? ==>
               RunLoop(DemoScan(), s, false, r.env, r.rest).hits <= RunLoop(DemoScan(), s, false, env, ch).hits)
  {
  }

  lemma DemoLeave(s: Stmt, env: set<string>, ch: seq<Choice>)
    requires s.While? && ch != [] && !ch[0].raises && ch[0].pick != 0
    ensures RunBlock(DemoScan(), s.orelse, env, ch[1..]).hits <= RunLoop(DemoScan(), s, false, env, ch).hits
  {
  }

  // while c: y = read()  else: run(y). The else block is walked from the state before the loop.
  lemma LoopElseMissed()
    ensures Missed(While(Constant, [READ_Y], [USE_Y]), [GO, GO, LEAVE, GO])
  {
    LoopElseUnreported();
    LoopElseRuns(While(Constant, [READ_Y], [USE_Y]), [GO, GO, LEAVE, GO]);
  }

  lemma LoopElseUnreported()
    ensures Statement(DemoScan(), While(Constant, [READ_Y], [USE_Y]), map[]).findings == []
  {
    DemoWalks();
    NothingFlagged(While(Constant, [READ_Y], [USE_Y]));
  }

  lemma LoopElseRuns(s: Stmt, ch: seq<Choice>)
    requires s == While(Constant, [READ_Y], [USE_Y]) && ch == [GO, GO, LEAVE, GO]
    ensures HIT in RunStmt(DemoScan(), s, {}, ch).hits
  {
    DemoRound(s, {}, ch);
    DemoReadBlock({}, ch[1..]);
    DemoLeave(s, {} + {"y"}, ch[1..][1..]);
    DemoUse({} + {"y"}, ch[1..][1..][1..]);
  }

  // while c: run(y); y = read(). The taint of one round reaches the sink in the next.
  lemma SecondRoundMissed()
    ensures Missed(While(Constant, [USE_Y, READ_Y], []), [GO, GO, GO, GO, GO])
  {
    SecondRoundUnreported();
    SecondRoundRuns(While(Constant, [USE_Y, READ_Y], []), [GO, GO, GO, GO, GO]);
  }

  lemma SecondRoundUnreported()
    ensures Statement(DemoScan(), While(Constant, [USE_Y, READ_Y], []), map[]).findings == []
  {
    DemoWalks();
    DemoSinks({}, GO);
    assert [USE_Y, READ_Y][1..] == [READ_Y];
    assert BlockReach(DemoScan(), [USE_Y, READ_Y], {}).sinks == {};
    NothingFlagged(While(Constant, [USE_Y, READ_Y], []));
  }

  lemma SecondRoundRuns(s: Stmt, ch: seq<Choice>)
    requires s == While(Constant, [USE_Y, READ_Y], []) && ch == [GO, GO, GO, GO, GO]
    ensures HIT in RunStmt(DemoScan(), s, {}, ch).hits
  {
    var y := {} + {"y"};
    DemoRound(s, {}, ch);
    DemoHead(s.body, {}, ch[1..]);
    assert s.body[1..] == [READ_Y];
    DemoReadBlock({}, ch[1..][1..]);
    DemoRound(s, y, ch[1..][1..][1..]);
    DemoSinks(y, GO);
    DemoHead(s.body, y, ch[1..][1..][1..][1..]);
  }

  // try: may_fail()  except: y = read()  finally: run(y). The finally block is walked before the handler.
  lemma FinallyAfterHandlerMissed()
    ensures Missed(Try([ExprStmt(Constant)], [Handler([READ_Y])], [], [USE_Y]), [GO, RAISE, GO, GO, GO])
  {
    FinallyUnreported();
    FinallyRuns(Try([ExprStmt(Constant)], [Handler([READ_Y])], [], [USE_Y]), [GO, RAISE, GO, GO, GO]);
  }

  lemma FinallyUnreported()
    ensures Statement(DemoScan(), Try([ExprStmt(Constant)], [Handler([READ_Y])], [], [USE_Y]), map[]).findings == []
  {
    var s := Try([ExprStmt(Constant)], [Handler([READ_Y])], [], [USE_Y]);
    DemoWalks();
    assert BlockReach(DemoScan(), [ExprStmt(Constant)], {}) == Reach({}, {});
    assert HandlersReach(DemoScan(), [Handler([READ_Y])], {}).sinks == {};
    NothingFlagged(s);
  }

  // A handled exception followed by the finally block.
  lemma DemoHandled(s: Stmt, env: set<string>, ch: seq<Choice>)
    requires s.Try? && ch != []
    requires var b := RunBlock(DemoScan(), s.body, env, ch[1..]);
             b.outcome.Raised? && b.rest != [] && b.rest[0].pick < |s.handlers|
    ensures var b := RunBlock(DemoScan(), s.body, env, ch[1..]);
            var h := RunBlock(DemoScan(), s.handlers[b.rest[0].pick].body, b.env, b.rest[1..]);
            h.outcome.Normal? ==>
              RunBlock(DemoScan(), s.finalbody, h.env, h.rest).hits <= RunStmt(DemoScan(), s, env, ch).hits
  {
  }

  lemma FinallyRuns(s: Stmt, ch: seq<Choice>)
    requires s == Try([ExprStmt(Constant)], [Handler([READ_Y])], [], [USE_Y]) && ch == [GO, RAISE, GO, GO, GO]
    ensures HIT in RunStmt(DemoScan(), s, {}, ch).hits
  {
    var rest := ch[1..];
    var b := RunStmt(DemoScan(), s.body[0], {}, rest);
    assert b == RunBlock(DemoScan(), s.body, {}, rest);
    DemoHandled(s, {}, ch);
    DemoReadBlock({}, rest[1..][1..]);
    DemoUse({} + {"y"}, rest[1..][1..][1..]);
  }
}
