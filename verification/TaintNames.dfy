/**
 The taint pass seen on variable sets: which names end up tainted and which sinks are flagged.
 The projection is exact, and the pass is inflationary and monotone on it.
 */
module TaintNames {
  import opened Wrappers
  import opened TaintSyntax
  import opened TaintEngine

  datatype Reach = Reach(names: set<string>, sinks: set<SinkRef>)

  predicate Below(a: Reach, b: Reach)
  {
    a.names <= b.names && a.sinks <= b.sinks
  }

  function Flagged(findings: seq<Finding>): (r: set<SinkRef>)
  {
    set f | f in findings :: f.sink
  }

  function Names(w: Walk): (r: Reach)
  {
    Reach(w.tainted.Keys, Flagged(w.findings))
  }

  // ---------------------------------------------------------------- expressions

  predicate MayTaint(scan: Scan, e: Expr, names: set<string>)
    decreases e, 1
  {
    (SourceShape(e) && scan.isSource(e).Some?) ||
    match e
    case Name(id) => id in names
    case JoinedStr(values, _) => FieldMayTaint(scan, values, names)
    case BinOp(left, op, right, _) =>
      !op.OtherOperator? && (MayTaint(scan, left, names) || MayTaint(scan, right, names))
    case Call(func, args, _, _) =>
      if func.Name? && func.id in WRAPPERS && args != [] then MayTaint(scan, args[0], names)
      else func.Attribute? && func.attr == "format" &&
           (MayTaint(scan, func.value, names) || ItemMayTaint(scan, args, names))
    case Attribute(value, _, _) => MayTaint(scan, value, names)
    case Subscript(value, _, _) => MayTaint(scan, value, names)
    case Collection(items, _) => ItemMayTaint(scan, items, names)
    case IfExp(test, body, orelse, _) =>
      MayTaint(scan, test, names) || MayTaint(scan, body, names) || MayTaint(scan, orelse, names)
    case _ => false
  }

  predicate ItemMayTaint(scan: Scan, es: seq<Expr>, names: set<string>)
    decreases es, 0
  {
    es != [] && (MayTaint(scan, es[0], names) || ItemMayTaint(scan, es[1..], names))
  }

  predicate FieldMayTaint(scan: Scan, es: seq<Expr>, names: set<string>)
    decreases es, 0
  {
    es != [] &&
    ((es[0].FormattedValue? && MayTaint(scan, es[0].value, names)) || FieldMayTaint(scan, es[1..], names))
  }

  predicate MayFire(scan: Scan, call: Expr, names: set<string>)
  {
    var sink := scan.matchSink(call);
    sink.Some? && !scan.isSanitized(call, sink.value) &&
    scan.sinkExpression(call).Some? && MayTaint(scan, scan.sinkExpression(call).value, names)
  }

  function SinkReach(scan: Scan, e: Expr, names: set<string>): (r: set<SinkRef>)
  {
    set call | call in CollectCalls(e) && MayFire(scan, call, names) :: scan.matchSink(call).value
  }

  // ---------------------------------------------------------------- statements

  function TargetReach(scan: Scan, targets: seq<Target>, value: Expr, names: set<string>): (r: set<string>)
  {
    names + if MayTaint(scan, value, names) then TargetNames(targets) else {}
  }

  function EntryNames(scan: Scan, params: seq<string>): (r: set<string>)
  {
    if scan.poisonParams then ParamNames(params) else {}
  }

  function StmtReach(scan: Scan, s: Stmt, names: set<string>): (r: Reach)
    decreases s, 1
  {
    match s
    case Assign(targets, value, _) =>
      Reach(TargetReach(scan, targets, value, names), SinkReach(scan, value, names))
    case AnnAssign(target, annotated, _) =>
      if annotated.None? then Reach(names, {})
      else Reach(TargetReach(scan, [target], annotated.value, names), SinkReach(scan, annotated.value, names))
    case AugAssign(target, value, _) =>
      Reach(TargetReach(scan, [target], value, names), SinkReach(scan, value, names))
    case ExprStmt(value) => Reach(names, SinkReach(scan, value, names))
    case Return(returned) => Reach(names, if returned.None? then {} else SinkReach(scan, returned.value, names))
    case If(test, body, orelse) =>
      Either(SinkReach(scan, test, names), BlockReach(scan, body, names), BlockReach(scan, orelse, names))
    case While(test, body, orelse) =>
      Either(SinkReach(scan, test, names), BlockReach(scan, body, names), BlockReach(scan, orelse, names))
    case For(targets, iter, body, orelse, _) =>
      var entry := TargetReach(scan, targets, iter, names);
      Either(SinkReach(scan, iter, names), BlockReach(scan, body, entry), BlockReach(scan, orelse, entry))
    case Try(body, handlers, orelse, finalbody) =>
      var b := BlockReach(scan, body, names);
      var o := BlockReach(scan, orelse, b.names);
      var f := BlockReach(scan, finalbody, o.names);
      var h := HandlersReach(scan, handlers, f.names);
      Reach(h.names, b.sinks + o.sinks + f.sinks + h.sinks)
    case With(body) => BlockReach(scan, body, names)
    case FunctionDef(_, params, body, _) =>
      Reach(names, BlockReach(scan, body, EntryNames(scan, params)).sinks)
    case ClassDef(_, body) => Reach(names, BlockReach(scan, body, {}).sinks)
    case Break => Reach(names, {})
    case Continue => Reach(names, {})
    case Pass => Reach(names, {})
  }

  function Either(sinks: set<SinkRef>, a: Reach, b: Reach): (r: Reach)
  {
    Reach(a.names + b.names, sinks + a.sinks + b.sinks)
  }

  function HandlersReach(scan: Scan, handlers: seq<Handler>, names: set<string>): (r: Reach)
    decreases handlers, 0
  {
    if handlers == [] then Reach(names, {})
    else
      var h := BlockReach(scan, handlers[0].body, names);
      var rest := HandlersReach(scan, handlers[1..], h.names);
      Reach(rest.names, h.sinks + rest.sinks)
  }

  function BlockReach(scan: Scan, stmts: seq<Stmt>, names: set<string>): (r: Reach)
    decreases stmts, 0
  {
    if stmts == [] then Reach(names, {})
    else
      var first := StmtReach(scan, stmts[0], names);
      var rest := BlockReach(scan, stmts[1..], first.names);
      Reach(rest.names, first.sinks + rest.sinks)
  }

  // ---------------------------------------------------------------- inflationary and monotone

  lemma {:induction false} MayTaintMonotone(scan: Scan, e: Expr, a: set<string>, b: set<string>)
    requires a <= b
    ensures MayTaint(scan, e, a) ==> MayTaint(scan, e, b)
    decreases e, 1
  {
    match e
    case JoinedStr(values, _) => ItemsMonotone(scan, values, a, b);
    case BinOp(left, _, right, _) =>
      MayTaintMonotone(scan, left, a, b);
      MayTaintMonotone(scan, right, a, b);
    case Call(func, args, _, _) =>
      ItemsMonotone(scan, args, a, b);
      if args != [] {
        MayTaintMonotone(scan, args[0], a, b);
      }
      if func.Attribute? {
        MayTaintMonotone(scan, func.value, a, b);
      }
    case Attribute(value, _, _) => MayTaintMonotone(scan, value, a, b);
    case Subscript(value, _, _) => MayTaintMonotone(scan, value, a, b);
    case Collection(items, _) => ItemsMonotone(scan, items, a, b);
    case IfExp(test, body, orelse, _) =>
      MayTaintMonotone(scan, test, a, b);
      MayTaintMonotone(scan, body, a, b);
      MayTaintMonotone(scan, orelse, a, b);
    case _ =>
  }

  lemma {:induction false} ItemsMonotone(scan: Scan, es: seq<Expr>, a: set<string>, b: set<string>)
    requires a <= b
    ensures ItemMayTaint(scan, es, a) ==> ItemMayTaint(scan, es, b)
    ensures FieldMayTaint(scan, es, a) ==> FieldMayTaint(scan, es, b)
    decreases es, 0
  {
    if es != [] {
      MayTaintMonotone(scan, es[0], a, b);
      if es[0].FormattedValue? {
        MayTaintMonotone(scan, es[0].value, a, b);
      }
      ItemsMonotone(scan, es[1..], a, b);
    }
  }

  lemma SinksMonotone(scan: Scan, e: Expr, a: set<string>, b: set<string>)
    requires a <= b
    ensures SinkReach(scan, e, a) <= SinkReach(scan, e, b)
  {
    forall call | call in CollectCalls(e) && MayFire(scan, call, a)
      ensures MayFire(scan, call, b)
    {
      MayTaintMonotone(scan, scan.sinkExpression(call).value, a, b);
    }
  }

  lemma {:induction false} StmtMonotone(scan: Scan, s: Stmt, a: set<string>, b: set<string>)
    requires a <= b
    ensures a <= StmtReach(scan, s, a).names
    ensures Below(StmtReach(scan, s, a), StmtReach(scan, s, b))
    decreases s, 1
  {
    match s
    case Assign(_, value, _) => AssignMonotone(scan, value, a, b);
    case AnnAssign(_, annotated, _) =>
      if annotated.Some? {
        AssignMonotone(scan, annotated.value, a, b);
      }
    case AugAssign(_, value, _) => AssignMonotone(scan, value, a, b);
    case ExprStmt(value) => AssignMonotone(scan, value, a, b);
    case Return(returned) =>
      if returned.Some? {
        AssignMonotone(scan, returned.value, a, b);
      }
    case If(test, body, orelse) =>
      AssignMonotone(scan, test, a, b);
      BlockMonotone(scan, body, a, b);
      BlockMonotone(scan, orelse, a, b);
    case While(test, body, orelse) =>
      AssignMonotone(scan, test, a, b);
      BlockMonotone(scan, body, a, b);
      BlockMonotone(scan, orelse, a, b);
    case For(targets, iter, body, orelse, _) =>
      AssignMonotone(scan, iter, a, b);
      var a', b' := TargetReach(scan, targets, iter, a), TargetReach(scan, targets, iter, b);
      BlockMonotone(scan, body, a', b');
      BlockMonotone(scan, orelse, a', b');
    case Try(_, _, _, _) => TryMonotone(scan, s, a, b);
    case With(body) => BlockMonotone(scan, body, a, b);
    case _ =>
  }

  lemma AssignMonotone(scan: Scan, value: Expr, a: set<string>, b: set<string>)
    requires a <= b
    ensures MayTaint(scan, value, a) ==> MayTaint(scan, value, b)
    ensures SinkReach(scan, value, a) <= SinkReach(scan, value, b)
  {
    MayTaintMonotone(scan, value, a, b);
    SinksMonotone(scan, value, a, b);
  }

  lemma {:induction false} TryMonotone(scan: Scan, s: Stmt, a: set<string>, b: set<string>)
    requires a <= b && s.Try?
    ensures a <= StmtReach(scan, s, a).names
    ensures Below(StmtReach(scan, s, a), StmtReach(scan, s, b))
    decreases s, 0
  {
    BlockMonotone(scan, s.body, a, b);
    var a1, b1 := BlockReach(scan, s.body, a).names, BlockReach(scan, s.body, b).names;
    BlockMonotone(scan, s.orelse, a1, b1);
    var a2, b2 := BlockReach(scan, s.orelse, a1).names, BlockReach(scan, s.orelse, b1).names;
    BlockMonotone(scan, s.finalbody, a2, b2);
    var a3, b3 := BlockReach(scan, s.finalbody, a2).names, BlockReach(scan, s.finalbody, b2).names;
    HandlersMonotone(scan, s.handlers, a3, b3);
  }

  lemma {:induction false} HandlersMonotone(scan: Scan, handlers: seq<Handler>, a: set<string>, b: set<string>)
    requires a <= b
    ensures a <= HandlersReach(scan, handlers, a).names
    ensures Below(HandlersReach(scan, handlers, a), HandlersReach(scan, handlers, b))
    decreases handlers, 0
  {
    if handlers != [] {
      var body := handlers[0].body;
      BlockMonotone(scan, body, a, b);
      HandlersMonotone(scan, handlers[1..], BlockReach(scan, body, a).names, BlockReach(scan, body, b).names);
    }
  }

  // More names in never lose a name or a flagged sink, and no name is ever dropped.
  lemma {:induction false} BlockMonotone(scan: Scan, stmts: seq<Stmt>, a: set<string>, b: set<string>)
    requires a <= b
    ensures a <= BlockReach(scan, stmts, a).names
    ensures Below(BlockReach(scan, stmts, a), BlockReach(scan, stmts, b))
    decreases stmts, 0
  {
    if stmts != [] {
      StmtMonotone(scan, stmts[0], a, b);
      BlockMonotone(scan, stmts[1..], StmtReach(scan, stmts[0], a).names, StmtReach(scan, stmts[0], b).names);
    }
  }

  // ---------------------------------------------------------------- the projection is exact

  lemma {:induction false} TaintOfIsMayTaint(scan: Scan, e: Expr, t: TaintMap)
    ensures TaintOf(scan, e, t).Some? <==> MayTaint(scan, e, t.Keys)
    decreases e, 1
  {
    match e
    case JoinedStr(values, _) => ItemTaintsAreMayTaint(scan, values, t);
    case BinOp(left, _, right, _) =>
      TaintOfIsMayTaint(scan, left, t);
      TaintOfIsMayTaint(scan, right, t);
    case Call(func, args, _, _) =>
      ItemTaintsAreMayTaint(scan, args, t);
      if args != [] {
        TaintOfIsMayTaint(scan, args[0], t);
      }
      if func.Attribute? {
        TaintOfIsMayTaint(scan, func.value, t);
      }
    case Attribute(value, _, _) => TaintOfIsMayTaint(scan, value, t);
    case Subscript(value, _, _) => TaintOfIsMayTaint(scan, value, t);
    case Collection(items, _) => ItemTaintsAreMayTaint(scan, items, t);
    case IfExp(test, body, orelse, _) =>
      TaintOfIsMayTaint(scan, test, t);
      TaintOfIsMayTaint(scan, body, t);
      TaintOfIsMayTaint(scan, orelse, t);
    case _ =>
  }

  lemma {:induction false} ItemTaintsAreMayTaint(scan: Scan, es: seq<Expr>, t: TaintMap)
    ensures ItemTaints(scan, es, t) != [] <==> ItemMayTaint(scan, es, t.Keys)
    ensures FieldTaints(scan, es, t) != [] <==> FieldMayTaint(scan, es, t.Keys)
    decreases es, 0
  {
    if es != [] {
      TaintOfIsMayTaint(scan, es[0], t);
      if es[0].FormattedValue? {
        TaintOfIsMayTaint(scan, es[0].value, t);
      }
      ItemTaintsAreMayTaint(scan, es[1..], t);
    }
  }

  lemma FlaggedAppend(a: seq<Finding>, b: seq<Finding>)
    ensures Flagged(a + b) == Flagged(a) + Flagged(b)
  {
  }

  lemma {:induction false} CallsFlagged(scan: Scan, calls: seq<Expr>, t: TaintMap)
    ensures Flagged(CallsFindings(scan, calls, t)) ==
            set call | call in calls && MayFire(scan, call, t.Keys) :: scan.matchSink(call).value
  {
    if calls != [] {
      var call := calls[0];
      if scan.sinkExpression(call).Some? {
        TaintOfIsMayTaint(scan, scan.sinkExpression(call).value, t);
      }
      CallsFlagged(scan, calls[1..], t);
      FlaggedAppend(CallFindings(scan, call, t), CallsFindings(scan, calls[1..], t));
      assert calls == [call] + calls[1..];
    }
  }

  lemma SinksFlagged(scan: Scan, e: Expr, t: TaintMap)
    ensures Flagged(Sinks(scan, e, t)) == SinkReach(scan, e, t.Keys)
    ensures TaintOf(scan, e, t).Some? <==> MayTaint(scan, e, t.Keys)
  {
    CallsFlagged(scan, CollectCalls(e), t);
    TaintOfIsMayTaint(scan, e, t);
  }

  lemma SingleTarget(target: Target)
    ensures TargetNames([target]) == if target.NameTarget? then {target.id} else {}
  {
    var targets := [target];
    assert target.NameTarget? ==> targets[0].id in TargetNames(targets);
  }

  lemma AssignmentProjects(scan: Scan, s: Stmt, t: TaintMap)
    requires s.Assign? || s.AnnAssign? || s.AugAssign?
    ensures Names(Statement(scan, s, t)) == StmtReach(scan, s, t.Keys)
  {
    if s.AnnAssign? {
      if s.annotated.Some? {
        SinksFlagged(scan, s.annotated.value, t);
      }
    } else {
      SinksFlagged(scan, s.value, t);
      if s.AugAssign? {
        SingleTarget(s.target);
      }
    }
  }

  lemma {:induction false} StmtProjects(scan: Scan, s: Stmt, t: TaintMap)
    ensures Names(Statement(scan, s, t)) == StmtReach(scan, s, t.Keys)
    decreases s, 1
  {
    match s
    case Assign(_, _, _) => AssignmentProjects(scan, s, t);
    case AnnAssign(_, _, _) => AssignmentProjects(scan, s, t);
    case AugAssign(_, _, _) => AssignmentProjects(scan, s, t);
    case ExprStmt(value) => SinksFlagged(scan, value, t);
    case Return(returned) =>
      if returned.Some? {
        SinksFlagged(scan, returned.value, t);
      }
    case If(_, _, _) => ConditionalProjects(scan, s, t);
    case While(_, _, _) => ConditionalProjects(scan, s, t);
    case For(_, _, _, _, _) => ForProjects(scan, s, t);
    case Try(_, _, _, _) => TryProjects(scan, s, t);
    case With(body) => AccumulateProjects(scan, body, t);
    case FunctionDef(_, params, body, line) =>
      assert FunctionEntry(scan, params, line).Keys == EntryNames(scan, params);
      BlockProjects(scan, body, FunctionEntry(scan, params, line));
    case ClassDef(_, body) =>
      var empty: TaintMap := map[];
      assert empty.Keys == {};
      BlockProjects(scan, body, empty);
    case _ =>
  }

  lemma {:induction false} ConditionalProjects(scan: Scan, s: Stmt, t: TaintMap)
    requires s.If? || s.While?
    ensures Names(Statement(scan, s, t)) == StmtReach(scan, s, t.Keys)
    decreases s, 0, 1
  {
    SinksFlagged(scan, s.test, t);
    BranchesProject(scan, s, Sinks(scan, s.test, t), t);
  }

  lemma {:induction false} ForProjects(scan: Scan, s: Stmt, t: TaintMap)
    requires s.For?
    ensures Names(Statement(scan, s, t)) == StmtReach(scan, s, t.Keys)
    decreases s, 0, 1
  {
    var entry := LoopEntry(scan, s.targets, s.iter, s.line, t);
    SinksFlagged(scan, s.iter, t);
    assert entry.Keys == TargetReach(scan, s.targets, s.iter, t.Keys);
    BranchesProject(scan, s, Sinks(scan, s.iter, t), entry);
  }

  lemma {:induction false} BranchesProject(scan: Scan, s: Stmt, head: seq<Finding>, t: TaintMap)
    requires s.If? || s.While? || s.For?
    ensures Names(MergeBranches(head, t, Block(scan, s.body, t), Block(scan, s.orelse, t))) ==
            Either(Flagged(head), BlockReach(scan, s.body, t.Keys), BlockReach(scan, s.orelse, t.Keys))
    decreases s, 0, 0
  {
    var b, o := Block(scan, s.body, t), Block(scan, s.orelse, t);
    BlockProjects(scan, s.body, t);
    BlockProjects(scan, s.orelse, t);
    BlockMonotone(scan, s.body, t.Keys, t.Keys);
    FlaggedAppend(head, b.findings);
    FlaggedAppend(head + b.findings, o.findings);
  }

  lemma {:induction false} AccumulateProjects(scan: Scan, body: seq<Stmt>, t: TaintMap)
    ensures Names(Accumulate(scan, body, t)) == BlockReach(scan, body, t.Keys)
    decreases body, 2
  {
    BlockProjects(scan, body, t);
    BlockMonotone(scan, body, t.Keys, t.Keys);
  }

  lemma {:induction false} TryProjects(scan: Scan, s: Stmt, t: TaintMap)
    requires s.Try?
    ensures Names(Statement(scan, s, t)) == StmtReach(scan, s, t.Keys)
    decreases s, 0
  {
    var b := Accumulate(scan, s.body, t);
    var o := Accumulate(scan, s.orelse, b.tainted);
    var f := Accumulate(scan, s.finalbody, o.tainted);
    var h := Handlers(scan, s.handlers, f.tainted);
    AccumulateProjects(scan, s.body, t);
    AccumulateProjects(scan, s.orelse, b.tainted);
    AccumulateProjects(scan, s.finalbody, o.tainted);
    HandlersProject(scan, s.handlers, f.tainted);
    FlaggedAppend(b.findings, o.findings);
    FlaggedAppend(b.findings + o.findings, f.findings);
    FlaggedAppend(b.findings + o.findings + f.findings, h.findings);
  }

  lemma {:induction false} HandlersProject(scan: Scan, handlers: seq<Handler>, t: TaintMap)
    ensures Names(Handlers(scan, handlers, t)) == HandlersReach(scan, handlers, t.Keys)
    decreases handlers, 0
  {
    if handlers != [] {
      var h := Accumulate(scan, handlers[0].body, t);
      AccumulateProjects(scan, handlers[0].body, t);
      HandlersProject(scan, handlers[1..], h.tainted);
      FlaggedAppend(h.findings, Handlers(scan, handlers[1..], h.tainted).findings);
    }
  }

  // The names and sinks of a walk depend on the names it starts from, and on nothing else.
  lemma {:induction false} BlockProjects(scan: Scan, stmts: seq<Stmt>, t: TaintMap)
    ensures Names(Block(scan, stmts, t)) == BlockReach(scan, stmts, t.Keys)
    decreases stmts, 0
  {
    if stmts != [] {
      var first := Statement(scan, stmts[0], t);
      StmtProjects(scan, stmts[0], t);
      BlockProjects(scan, stmts[1..], first.tainted);
      FlaggedAppend(first.findings, Block(scan, stmts[1..], first.tainted).findings);
    }
  }
}
