/**
 What one walk covers. For assignments, expressions, returns, if, with and try without finally it
 covers every run, cut short anywhere. A loop and a finally block are walked once and in a fixed
 order, so there the walk covers every run when walking the statement again finds nothing new.
 */
module TaintSoundness {
  import opened Wrappers
  import opened TaintSyntax
  import opened TaintEngine
  import opened TaintNames
  import opened TaintRun

  ghost predicate Within(r: Run, w: Reach)
  {
    r.env <= w.names && r.hits <= w.sinks
  }

  // ---------------------------------------------------------------- expressions

  lemma {:induction false} TaintedMayTaint(scan: Scan, e: Expr, env: set<string>, taken: set<Expr>, names: set<string>)
    requires env <= names
    ensures Tainted(scan, e, env, taken) ==> MayTaint(scan, e, names)
    decreases e, 1
  {
    match e
    case JoinedStr(values, _) => ItemsTaintedMayTaint(scan, values, env, taken, names);
    case BinOp(left, _, right, _) =>
      TaintedMayTaint(scan, left, env, taken, names);
      TaintedMayTaint(scan, right, env, taken, names);
    case Call(func, args, _, _) =>
      ItemsTaintedMayTaint(scan, args, env, taken, names);
      if args != [] {
        TaintedMayTaint(scan, args[0], env, taken, names);
      }
      if func.Attribute? {
        TaintedMayTaint(scan, func.value, env, taken, names);
      }
    case Attribute(value, _, _) => TaintedMayTaint(scan, value, env, taken, names);
    case Subscript(value, _, _) => TaintedMayTaint(scan, value, env, taken, names);
    case Collection(items, _) => ItemsTaintedMayTaint(scan, items, env, taken, names);
    case IfExp(_, body, orelse, _) =>
      TaintedMayTaint(scan, body, env, taken, names);
      TaintedMayTaint(scan, orelse, env, taken, names);
    case _ =>
  }

  lemma {:induction false} ItemsTaintedMayTaint(
    scan: Scan, es: seq<Expr>, env: set<string>, taken: set<Expr>, names: set<string>)
    requires env <= names
    ensures ItemTainted(scan, es, env, taken) ==> ItemMayTaint(scan, es, names)
    ensures FieldTainted(scan, es, env, taken) ==> FieldMayTaint(scan, es, names)
    decreases es, 0
  {
    if es != [] {
      TaintedMayTaint(scan, es[0], env, taken, names);
      if es[0].FormattedValue? {
        TaintedMayTaint(scan, es[0].value, env, taken, names);
      }
      ItemsTaintedMayTaint(scan, es[1..], env, taken, names);
    }
  }

  // Every sink an expression can hit is flagged, and a tainted value is seen as such.
  lemma ExpressionCovered(scan: Scan, e: Expr, env: set<string>, c: Choice, names: set<string>)
    requires env <= names
    ensures Tainted(scan, e, env, c.taken) ==> MayTaint(scan, e, names)
    ensures Hits(scan, e, env, c) <= SinkReach(scan, e, names)
  {
    TaintedMayTaint(scan, e, env, c.taken, names);
    forall call | call in ChildCalls(e) && Fires(scan, call, env, c.taken)
      ensures call in CollectCalls(e) && MayFire(scan, call, names)
    {
      TaintedMayTaint(scan, scan.sinkExpression(call).value, env, c.taken, names);
    }
  }

  // ---------------------------------------------------------------- when one walk is enough

  predicate Rewalked(s: Stmt)
  {
    s.While? || s.For? || (s.Try? && s.finalbody != [])
  }

  // Walking the statement again from what it produced finds no new name and no new sink.
  predicate Settled(scan: Scan, s: Stmt, names: set<string>)
  {
    var w := StmtReach(scan, s, names);
    Below(StmtReach(scan, s, w.names), w)
  }

  predicate Covered(scan: Scan, s: Stmt, names: set<string>)
    decreases s, 1
  {
    match s
    case If(_, body, orelse) => BlockCovered(scan, body, names) && BlockCovered(scan, orelse, names)
    case While(_, body, orelse) =>
      var out := StmtReach(scan, s, names).names;
      Settled(scan, s, names) && BlockCovered(scan, body, out) && BlockCovered(scan, orelse, out)
    case For(_, _, body, orelse, _) =>
      var out := StmtReach(scan, s, names).names;
      Settled(scan, s, names) && BlockCovered(scan, body, out) && BlockCovered(scan, orelse, out)
    case Try(body, handlers, orelse, finalbody) =>
      if finalbody != [] then
        var out := StmtReach(scan, s, names).names;
        Settled(scan, s, names) && BlockCovered(scan, body, out) && BlockCovered(scan, orelse, out) &&
        BlockCovered(scan, finalbody, out) && HandlersCovered(scan, handlers, out)
      else
        var b := BlockReach(scan, body, names).names;
        var o := BlockReach(scan, orelse, b).names;
        BlockCovered(scan, body, names) && BlockCovered(scan, orelse, b) && HandlersCovered(scan, handlers, o)
    case With(body) => BlockCovered(scan, body, names)
    case _ => true
  }

  predicate HandlersCovered(scan: Scan, handlers: seq<Handler>, names: set<string>)
    decreases handlers, 0
  {
    handlers != [] ==>
      BlockCovered(scan, handlers[0].body, names) &&
      HandlersCovered(scan, handlers[1..], BlockReach(scan, handlers[0].body, names).names)
  }

  predicate BlockCovered(scan: Scan, stmts: seq<Stmt>, names: set<string>)
    decreases stmts, 0
  {
    stmts != [] ==>
      Covered(scan, stmts[0], names) && BlockCovered(scan, stmts[1..], StmtReach(scan, stmts[0], names).names)
  }

  // ---------------------------------------------------------------- soundness

  lemma {:induction false} StmtCovers(scan: Scan, s: Stmt, env: set<string>, ch: seq<Choice>, names: set<string>)
    requires env <= names && Covered(scan, s, names)
    ensures Within(RunStmt(scan, s, env, ch), StmtReach(scan, s, names))
    decreases |ch|, 1
  {
    StmtMonotone(scan, s, names, names);
    if ch != [] {
      match s
      case Assign(_, value, _) => ExpressionCovered(scan, value, env, ch[0], names);
      case AnnAssign(_, annotated, _) =>
        if annotated.Some? {
          ExpressionCovered(scan, annotated.value, env, ch[0], names);
        }
      case AugAssign(target, value, _) =>
        SingleTarget(target);
        ExpressionCovered(scan, value, env, ch[0], names);
      case ExprStmt(value) => ExpressionCovered(scan, value, env, ch[0], names);
      case Return(returned) =>
        if returned.Some? {
          ExpressionCovered(scan, returned.value, env, ch[0], names);
        }
      case If(test, body, orelse) =>
        ExpressionCovered(scan, test, env, ch[0], names);
        BlockCovers(scan, body, env, ch[1..], names);
        BlockCovers(scan, orelse, env, ch[1..], names);
      case While(_, _, _) => RewalkedCovers(scan, s, env, ch, names);
      case For(_, _, _, _, _) => RewalkedCovers(scan, s, env, ch, names);
      case Try(_, _, _, finalbody) =>
        if finalbody != [] {
          RewalkedCovers(scan, s, env, ch, names);
        } else {
          TryCovers(scan, s, env, ch, names);
        }
      case With(body) => BlockCovers(scan, body, env, ch[1..], names);
      case _ =>
    }
  }

  // Without a finally block the handlers come last in the walk, after everything they can follow.
  lemma {:induction false} TryCovers(scan: Scan, s: Stmt, env: set<string>, ch: seq<Choice>, names: set<string>)
    requires s.Try? && s.finalbody == [] && ch != []
    requires env <= names && Covered(scan, s, names)
    ensures Within(RunStmt(scan, s, env, ch), StmtReach(scan, s, names))
    decreases |ch|, 0
  {
    var b := BlockReach(scan, s.body, names);
    var o := BlockReach(scan, s.orelse, b.names);
    BlockMonotone(scan, s.body, names, names);
    BlockMonotone(scan, s.orelse, b.names, b.names);
    HandlersMonotone(scan, s.handlers, o.names, o.names);
    BlockCovers(scan, s.body, env, ch[1..], names);
    var r := RunBlock(scan, s.body, env, ch[1..]);
    if r.outcome.Normal? {
      BlockCovers(scan, s.orelse, r.env, r.rest, b.names);
    } else if r.outcome.Raised? && r.rest != [] && r.rest[0].pick < |s.handlers| {
      HandlersCover(scan, s.handlers, r.rest[0].pick, r.env, r.rest[1..], o.names);
    }
    assert BlockReach(scan, s.finalbody, o.names) == Reach(o.names, {});
    var h := RunHandled(scan, s, env, ch[1..]);
    assert Within(h, StmtReach(scan, s, names));
    assert RunBlock(scan, s.finalbody, h.env, h.rest) == Run(h.env, {}, Normal, h.rest);
    assert RunStmt(scan, s, env, ch) == RunFinally(scan, s, h);
  }

  lemma {:induction false} HandlersCover(
    scan: Scan, handlers: seq<Handler>, i: nat, env: set<string>, ch: seq<Choice>, names: set<string>)
    requires i < |handlers| && env <= names && HandlersCovered(scan, handlers, names)
    ensures Within(RunBlock(scan, handlers[i].body, env, ch), HandlersReach(scan, handlers, names))
    decreases |ch|, 3, |handlers|
  {
    var h := BlockReach(scan, handlers[0].body, names).names;
    BlockMonotone(scan, handlers[0].body, names, names);
    HandlersMonotone(scan, handlers[1..], h, h);
    if i == 0 {
      BlockCovers(scan, handlers[0].body, env, ch, names);
    } else {
      HandlersCover(scan, handlers[1..], i - 1, env, ch, h);
    }
  }

  // A settled statement: everything stays below what one more walk from its own result finds.
  lemma {:induction false} RewalkedCovers(scan: Scan, s: Stmt, env: set<string>, ch: seq<Choice>, names: set<string>)
    requires Rewalked(s) && ch != []
    requires env <= names && Covered(scan, s, names)
    ensures Within(RunStmt(scan, s, env, ch), StmtReach(scan, s, names))
    decreases |ch|, 0, 2
  {
    var out := StmtReach(scan, s, names).names;
    StmtMonotone(scan, s, names, names);
    StmtMonotone(scan, s, out, out);
    match s
    case While(_, _, _) => LoopCovers(scan, s, false, env, ch, out);
    case For(_, iter, _, _, _) =>
      ExpressionCovered(scan, iter, env, ch[0], out);
      LoopCovers(scan, s, Tainted(scan, iter, env, ch[0].taken), env, ch[1..], out);
    case Try(_, _, _, _) => FinallyCovers(scan, s, env, ch, out);
  }

  lemma {:induction false} LoopCovers(
    scan: Scan, s: Stmt, items: bool, env: set<string>, ch: seq<Choice>, out: set<string>)
    requires s.While? || s.For?
    requires env <= out && StmtReach(scan, s, out).names <= out
    requires BlockCovered(scan, s.body, out) && BlockCovered(scan, s.orelse, out)
    requires s.For? && items ==> MayTaint(scan, s.iter, out)
    ensures Within(RunLoop(scan, s, items, env, ch), StmtReach(scan, s, out))
    decreases |ch|, 0, 1
  {
    if ch != [] {
      RoundCovers(scan, s, items, env, ch, out);
      var start := if s.While? then env else BindElements(s.targets, items, ch[0], env);
      var r := RunBlock(scan, s.body, start, ch[1..]);
      LoopCovers(scan, s, items, r.env, r.rest, out);
      LoopRound(scan, s, items, env, ch, StmtReach(scan, s, out));
    } else {
      StmtMonotone(scan, s, out, out);
    }
  }

  lemma LoopRound(scan: Scan, s: Stmt, items: bool, env: set<string>, ch: seq<Choice>, w: Reach)
    requires (s.While? || s.For?) && ch != [] && env <= w.names
    requires s.While? ==> Hits(scan, s.test, env, ch[0]) <= w.sinks
    requires Within(RunBlock(scan, s.orelse, env, ch[1..]), w)
    requires var start := if s.While? then env else BindElements(s.targets, items, ch[0], env);
             var r := RunBlock(scan, s.body, start, ch[1..]);
             Within(r, w) && Within(RunLoop(scan, s, items, r.env, r.rest), w)
    ensures Within(RunLoop(scan, s, items, env, ch), w)
  {
  }

  lemma {:induction false} RoundCovers(
    scan: Scan, s: Stmt, items: bool, env: set<string>, ch: seq<Choice>, out: set<string>)
    requires (s.While? || s.For?) && ch != []
    requires env <= out && StmtReach(scan, s, out).names <= out
    requires BlockCovered(scan, s.body, out) && BlockCovered(scan, s.orelse, out)
    requires s.For? && items ==> MayTaint(scan, s.iter, out)
    ensures StmtReach(scan, s, out).names == out
    ensures s.While? ==> Hits(scan, s.test, env, ch[0]) <= StmtReach(scan, s, out).sinks
    ensures Within(RunBlock(scan, s.orelse, env, ch[1..]), StmtReach(scan, s, out))
    ensures var start := if s.While? then env else BindElements(s.targets, items, ch[0], env);
            Within(RunBlock(scan, s.body, start, ch[1..]), StmtReach(scan, s, out))
    decreases |ch|, 0, 0
  {
    LoopParts(scan, s, out);
    StmtMonotone(scan, s, out, out);
    if s.While? {
      ExpressionCovered(scan, s.test, env, ch[0], out);
    }
    BlockCovers(scan, s.orelse, env, ch[1..], out);
    var start := if s.While? then env else BindElements(s.targets, items, ch[0], env);
    BlockCovers(scan, s.body, start, ch[1..], out);
  }

  // A loop that adds no name to the set it starts from: neither does its body or its else block.
  lemma LoopParts(scan: Scan, s: Stmt, out: set<string>)
    requires s.While? || s.For?
    requires StmtReach(scan, s, out).names <= out
    ensures BlockReach(scan, s.body, out).names == out && BlockReach(scan, s.orelse, out).names == out
    ensures BlockReach(scan, s.body, out).sinks <= StmtReach(scan, s, out).sinks
    ensures BlockReach(scan, s.orelse, out).sinks <= StmtReach(scan, s, out).sinks
    ensures s.While? ==> SinkReach(scan, s.test, out) <= StmtReach(scan, s, out).sinks
    ensures s.For? && MayTaint(scan, s.iter, out) ==> TargetNames(s.targets) <= out
  {
    var entry := if s.For? then TargetReach(scan, s.targets, s.iter, out) else out;
    BlockMonotone(scan, s.body, entry, entry);
    BlockMonotone(scan, s.orelse, entry, entry);
    assert entry == out;
  }

  // Up to the finally block, and without it.
  lemma {:induction false} HandledStays(scan: Scan, s: Stmt, env: set<string>, ch: seq<Choice>, out: set<string>)
    requires s.Try? && env <= out && StmtReach(scan, s, out).names <= out
    requires BlockCovered(scan, s.body, out) && BlockCovered(scan, s.orelse, out)
             && HandlersCovered(scan, s.handlers, out)
    ensures Within(RunHandled(scan, s, env, ch), StmtReach(scan, s, out))
    decreases |ch|, 4, 0
  {
    StagesStay(scan, s, out);
    BlockCovers(scan, s.body, env, ch, out);
    var b := RunBlock(scan, s.body, env, ch);
    if b.outcome.Normal? {
      BlockCovers(scan, s.orelse, b.env, b.rest, out);
    } else if b.outcome.Raised? && b.rest != [] && b.rest[0].pick < |s.handlers| {
      HandlersCover(scan, s.handlers, b.rest[0].pick, b.env, b.rest[1..], out);
    }
  }

  lemma {:induction false} FinallyCovers(scan: Scan, s: Stmt, env: set<string>, ch: seq<Choice>, out: set<string>)
    requires s.Try? && ch != []
    requires env <= out && StmtReach(scan, s, out).names <= out
    requires BlockCovered(scan, s.body, out) && BlockCovered(scan, s.orelse, out)
    requires BlockCovered(scan, s.finalbody, out) && HandlersCovered(scan, s.handlers, out)
    ensures Within(RunStmt(scan, s, env, ch), StmtReach(scan, s, out))
    decreases |ch|, 0, 0
  {
    var h := RunHandled(scan, s, env, ch[1..]);
    HandledStays(scan, s, env, ch[1..], out);
    StagesStay(scan, s, out);
    BlockCovers(scan, s.finalbody, h.env, h.rest, out);
  }

  // When a try statement adds no name to the set it starts from, neither does any of its blocks.
  lemma StagesStay(scan: Scan, s: Stmt, out: set<string>)
    requires s.Try? && StmtReach(scan, s, out).names <= out
    ensures BlockReach(scan, s.body, out).names == out && BlockReach(scan, s.orelse, out).names == out
    ensures BlockReach(scan, s.finalbody, out).names == out && HandlersReach(scan, s.handlers, out).names == out
  {
    var b := BlockReach(scan, s.body, out).names;
    var o := BlockReach(scan, s.orelse, b).names;
    var f := BlockReach(scan, s.finalbody, o).names;
    BlockMonotone(scan, s.body, out, out);
    BlockMonotone(scan, s.orelse, b, b);
    BlockMonotone(scan, s.finalbody, o, o);
    HandlersMonotone(scan, s.handlers, f, f);
  }

  lemma {:induction false} BlockCovers(
    scan: Scan, stmts: seq<Stmt>, env: set<string>, ch: seq<Choice>, names: set<string>)
    requires env <= names && BlockCovered(scan, stmts, names)
    ensures Within(RunBlock(scan, stmts, env, ch), BlockReach(scan, stmts, names))
    decreases |ch|, 2, |stmts|
  {
    if stmts != [] {
      var next := StmtReach(scan, stmts[0], names).names;
      BlockMonotone(scan, stmts[1..], next, next);
      StmtCovers(scan, stmts[0], env, ch, names);
      var first := RunStmt(scan, stmts[0], env, ch);
      if first.outcome.Normal? && ch != [] {
        BlockCovers(scan, stmts[1..], first.env, first.rest, next);
      }
    }
  }

  // ---------------------------------------------------------------- the fragment needing no condition

  predicate Simple(s: Stmt)
    decreases s, 1
  {
    match s
    case If(_, body, orelse) => SimpleBlock(body) && SimpleBlock(orelse)
    case While(_, _, _) => false
    case For(_, _, _, _, _) => false
    case Try(body, handlers, orelse, finalbody) =>
      finalbody == [] && SimpleBlock(body) && SimpleBlock(orelse) && SimpleHandlers(handlers)
    case With(body) => SimpleBlock(body)
    case _ => true
  }

  predicate SimpleHandlers(handlers: seq<Handler>)
    decreases handlers, 0
  {
    handlers != [] ==> SimpleBlock(handlers[0].body) && SimpleHandlers(handlers[1..])
  }

  predicate SimpleBlock(stmts: seq<Stmt>)
    decreases stmts, 0
  {
    stmts != [] ==> Simple(stmts[0]) && SimpleBlock(stmts[1..])
  }

  lemma {:induction false} SimpleIsCovered(scan: Scan, s: Stmt, names: set<string>)
    requires Simple(s)
    ensures Covered(scan, s, names)
    decreases s, 1
  {
    match s
    case If(_, body, orelse) =>
      SimpleBlockIsCovered(scan, body, names);
      SimpleBlockIsCovered(scan, orelse, names);
    case Try(body, handlers, orelse, _) =>
      var b := BlockReach(scan, body, names).names;
      SimpleBlockIsCovered(scan, body, names);
      SimpleBlockIsCovered(scan, orelse, b);
      SimpleHandlersAreCovered(scan, handlers, BlockReach(scan, orelse, b).names);
    case With(body) => SimpleBlockIsCovered(scan, body, names);
    case _ =>
  }

  lemma {:induction false} SimpleHandlersAreCovered(scan: Scan, handlers: seq<Handler>, names: set<string>)
    requires SimpleHandlers(handlers)
    ensures HandlersCovered(scan, handlers, names)
    decreases handlers, 0
  {
    if handlers != [] {
      SimpleBlockIsCovered(scan, handlers[0].body, names);
      SimpleHandlersAreCovered(scan, handlers[1..], BlockReach(scan, handlers[0].body, names).names);
    }
  }

  lemma {:induction false} SimpleBlockIsCovered(scan: Scan, stmts: seq<Stmt>, names: set<string>)
    requires SimpleBlock(stmts)
    ensures BlockCovered(scan, stmts, names)
    decreases stmts, 0
  {
    if stmts != [] {
      SimpleIsCovered(scan, stmts[0], names);
      SimpleBlockIsCovered(scan, stmts[1..], StmtReach(scan, stmts[0], names).names);
    }
  }

  // ---------------------------------------------------------------- the theorems

  // Wherever a run of a covered block stops, every tainted variable is in the walk's final map, and
  // every sink it hit with tainted input was reported.
  lemma CoveredWalkIsSound(scan: Scan, stmts: seq<Stmt>, env: set<string>, ch: seq<Choice>, t: TaintMap)
    requires env <= t.Keys && BlockCovered(scan, stmts, t.Keys)
    ensures RunBlock(scan, stmts, env, ch).env <= Block(scan, stmts, t).tainted.Keys
    ensures RunBlock(scan, stmts, env, ch).hits <= Flagged(Block(scan, stmts, t).findings)
  {
    BlockCovers(scan, stmts, env, ch, t.Keys);
    BlockProjects(scan, stmts, t);
  }

  // No condition on the walk is needed without loops and finally blocks.
  lemma TaintSound(scan: Scan, stmts: seq<Stmt>, env: set<string>, ch: seq<Choice>, t: TaintMap)
    requires env <= t.Keys && SimpleBlock(stmts)
    ensures RunBlock(scan, stmts, env, ch).env <= Block(scan, stmts, t).tainted.Keys
    ensures RunBlock(scan, stmts, env, ch).hits <= Flagged(Block(scan, stmts, t).findings)
  {
    SimpleBlockIsCovered(scan, stmts, t.Keys);
    CoveredWalkIsSound(scan, stmts, env, ch, t);
  }

  // Every call of a function, with any of its poisoned parameters tainted, is covered by the findings
  // the enclosing walk reports at its definition.
  lemma FunctionSound(scan: Scan, s: Stmt, env: set<string>, ch: seq<Choice>, t: TaintMap)
    requires s.FunctionDef? && SimpleBlock(s.body) && env <= EntryNames(scan, s.params)
    ensures RunBlock(scan, s.body, env, ch).hits <= Flagged(Statement(scan, s, t).findings)
  {
    var entry := FunctionEntry(scan, s.params, s.line);
    assert entry.Keys == EntryNames(scan, s.params);
    TaintSound(scan, s.body, env, ch, entry);
  }
}
