/**
 Every taint carries a path that starts at a source, and only a finding's last step is a sink. Where taints
 are merged the path holds the sources of all of them, so it may well have several.
 */
module TaintProvenance {
  import opened Wrappers
  import opened TaintSyntax
  import opened TaintEngine

  predicate FromSource(steps: seq<TaintStep>)
  {
    steps != [] && steps[0].stepType.SourceStep? && forall s :: s in steps ==> !s.stepType.SinkStep?
  }

  predicate Traced(t: TaintMap)
  {
    forall id :: id in t ==> FromSource(t[id].steps)
  }

  predicate AllTraced(parts: seq<Taint>)
  {
    forall i :: 0 <= i < |parts| ==> FromSource(parts[i].steps)
  }

  // A complete path: a source first, the only sink last, and the source line reported is the first step's.
  predicate Reported(f: Finding)
  {
    |f.path| >= 2 && FromSource(f.path[..|f.path| - 1]) && f.sourceLine == f.path[0].line &&
    f.path[|f.path| - 1].stepType.SinkStep? && f.path[|f.path| - 1].line == f.sink.line
  }

  predicate AllReported(findings: seq<Finding>)
  {
    forall i :: 0 <= i < |findings| ==> Reported(findings[i])
  }

  lemma {:induction false} AllStepsFromSource(parts: seq<Taint>)
    requires parts != [] && AllTraced(parts)
    ensures FromSource(AllSteps(parts))
    decreases |parts|
  {
    var front := parts[..|parts| - 1];
    if front != [] {
      AllStepsFromSource(front);
    } else {
      assert AllSteps(parts) == AllSteps(front) + parts[0].steps == parts[0].steps;
    }
  }

  lemma JoinTraced(parts: seq<Taint>, step: TaintStep)
    requires AllTraced(parts) && !step.stepType.SinkStep?
    ensures Join(parts, step).Some? ==> FromSource(Join(parts, step).value.steps)
  {
    if parts != [] {
      AllStepsFromSource(parts);
      DedupeKeepsSteps(AllSteps(parts));
    }
  }

  predicate StepOfSome(parts: seq<Taint>, s: TaintStep)
  {
    exists i :: 0 <= i < |parts| && s in parts[i].steps
  }

  lemma {:induction false} AllStepsMembers(parts: seq<Taint>, s: TaintStep)
    ensures s in AllSteps(parts) <==> StepOfSome(parts, s)
    decreases |parts|
  {
    if parts != [] {
      var front := parts[..|parts| - 1];
      AllStepsMembers(front, s);
      assert StepOfSome(front, s) ==> StepOfSome(parts, s);
    }
  }

  // Merging keeps the sources of all parts and adds none.
  lemma JoinKeepsSources(parts: seq<Taint>, step: TaintStep, s: TaintStep)
    requires parts != [] && !step.stepType.SourceStep? && s.stepType.SourceStep?
    ensures s in Join(parts, step).value.steps <==> StepOfSome(parts, s)
  {
    DedupeKeepsSteps(AllSteps(parts));
    AllStepsMembers(parts, s);
  }

  // A merged path lists every step of its parts once, in the order of first occurrence, and ends with its own.
  lemma JoinListsOnce(parts: seq<Taint>, step: TaintStep, i: nat, j: nat)
    requires parts != [] && i < j < |Join(parts, step).value.steps| - 1
    ensures var steps := Join(parts, step).value.steps;
            && steps[|steps| - 1] == step && steps[i] != steps[j]
            && steps[i] in AllSteps(parts) && steps[j] in AllSteps(parts)
            && FirstIndex(steps[i], AllSteps(parts)) < FirstIndex(steps[j], AllSteps(parts))
  {
    DedupeKeepsSteps(AllSteps(parts));
    DedupeKeepsFirstOccurrenceOrder(AllSteps(parts), i, j);
  }

  lemma MergeOfTwo(x: Taint, y: Taint, a: TaintStep, b: TaintStep)
    requires x.steps == [a] && y.steps == [b] && a != b
    ensures Merge([x, y]) == [a, b]
  {
    AllStepsSnoc([x, y], 0);
    AllStepsSnoc([x, y], 1);
    assert [x, y][..0] == [] && [x, y][..2] == [x, y] && AllSteps([x, y]) == [] + [a] + [b] == [a, b];
    assert [a, b][..1] == [a] && [a][..0] == [];
    assert Dedupe([a]) == [a];
  }

  // Adding two calls that are different sources gives a path with both of them.
  lemma TwoSources(scan: Scan, a: Expr, b: Expr, line: int, t: TaintMap)
    requires a.Call? && b.Call? && scan.isSource(a).Some? && scan.isSource(b).Some?
    requires a.line != b.line || scan.isSource(a).value.snippet != scan.isSource(b).value.snippet
    ensures var taint := TaintOf(scan, BinOp(a, Add, b, line), t);
            && taint.Some? && |taint.value.steps| == 3 && taint.value.steps[0] != taint.value.steps[1]
            && taint.value.steps[0].stepType.SourceStep? && taint.value.steps[1].stepType.SourceStep?
  {
    var x, y := TaintOf(scan, a, t).value, TaintOf(scan, b, t).value;
    MergeOfTwo(x, y, x.steps[0], y.steps[0]);
    var e := BinOp(a, Add, b, line);
    assert [x] + [y] == [x, y];
    assert TaintOf(scan, e, t) == Join([x] + [y], Step(scan, StringConstruction, line));
  }

  lemma AppendTraced(a: seq<Taint>, b: seq<Taint>)
    requires AllTraced(a) && AllTraced(b)
    ensures AllTraced(a + b)
  {
  }

  lemma PairTraced(a: Option<Taint>, b: Option<Taint>)
    requires a.Some? ==> FromSource(a.value.steps)
    requires b.Some? ==> FromSource(b.value.steps)
    ensures AllTraced(Present(a)) && AllTraced(Present(a) + Present(b))
  {
  }

  lemma {:induction false} TaintOfTraced(scan: Scan, e: Expr, t: TaintMap)
    requires Traced(t)
    ensures TaintOf(scan, e, t).Some? ==> FromSource(TaintOf(scan, e, t).value.steps)
    decreases e, 1
  {
    match e
    case JoinedStr(values, line) =>
      ItemsTraced(scan, values, t);
      JoinTraced(FieldTaints(scan, values, t), Step(scan, StringConstruction, line));
    case BinOp(_, _, _, _) => BinOpTraced(scan, e, t);
    case Call(_, _, _, _) => CallTraced(scan, e, t);
    case Attribute(value, _, _) => TaintOfTraced(scan, value, t);
    case Subscript(value, _, _) => TaintOfTraced(scan, value, t);
    case Collection(items, line) =>
      ItemsTraced(scan, items, t);
      JoinTraced(ItemTaints(scan, items, t), Step(scan, PropagationStep, line));
    case IfExp(_, _, _, _) => IfExpTraced(scan, e, t);
    case _ =>
  }

  lemma {:induction false} BinOpTraced(scan: Scan, e: Expr, t: TaintMap)
    requires Traced(t) && e.BinOp?
    ensures TaintOf(scan, e, t).Some? ==> FromSource(TaintOf(scan, e, t).value.steps)
    decreases e, 0
  {
    TaintOfTraced(scan, e.left, t);
    TaintOfTraced(scan, e.right, t);
    PairTraced(TaintOf(scan, e.left, t), TaintOf(scan, e.right, t));
    JoinTraced(Present(TaintOf(scan, e.left, t)) + Present(TaintOf(scan, e.right, t)),
               Step(scan, StringConstruction, e.line));
  }

  lemma {:induction false} IfExpTraced(scan: Scan, e: Expr, t: TaintMap)
    requires Traced(t) && e.IfExp?
    ensures TaintOf(scan, e, t).Some? ==> FromSource(TaintOf(scan, e, t).value.steps)
    decreases e, 0
  {
    TaintOfTraced(scan, e.test, t);
    TaintOfTraced(scan, e.body, t);
    TaintOfTraced(scan, e.orelse, t);
    PairTraced(TaintOf(scan, e.test, t), TaintOf(scan, e.body, t));
    PairTraced(TaintOf(scan, e.orelse, t), None);
    AppendTraced(Present(TaintOf(scan, e.test, t)) + Present(TaintOf(scan, e.body, t)),
                 Present(TaintOf(scan, e.orelse, t)));
    JoinTraced(Present(TaintOf(scan, e.test, t)) + Present(TaintOf(scan, e.body, t)) +
               Present(TaintOf(scan, e.orelse, t)), Step(scan, PropagationStep, e.line));
  }

  lemma {:induction false} CallTraced(scan: Scan, e: Expr, t: TaintMap)
    requires Traced(t) && e.Call?
    ensures TaintOf(scan, e, t).Some? ==> FromSource(TaintOf(scan, e, t).value.steps)
    decreases e, 0
  {
    if e.args != [] {
      TaintOfTraced(scan, e.args[0], t);
    }
    if e.func.Attribute? {
      TaintOfTraced(scan, e.func.value, t);
      ItemsTraced(scan, e.args, t);
      PairTraced(TaintOf(scan, e.func.value, t), None);
      AppendTraced(Present(TaintOf(scan, e.func.value, t)), ItemTaints(scan, e.args, t));
      JoinTraced(Present(TaintOf(scan, e.func.value, t)) + ItemTaints(scan, e.args, t),
                 Step(scan, StringConstruction, e.line));
    }
  }

  lemma {:induction false} ItemsTraced(scan: Scan, es: seq<Expr>, t: TaintMap)
    requires Traced(t)
    ensures AllTraced(ItemTaints(scan, es, t)) && AllTraced(FieldTaints(scan, es, t))
    decreases es, 0
  {
    if es != [] {
      TaintOfTraced(scan, es[0], t);
      if es[0].FormattedValue? {
        TaintOfTraced(scan, es[0].value, t);
      }
      ItemsTraced(scan, es[1..], t);
    }
  }

  lemma {:induction false} CallsReported(scan: Scan, calls: seq<Expr>, t: TaintMap)
    requires Traced(t)
    ensures AllReported(CallsFindings(scan, calls, t))
  {
    if calls != [] {
      var call := calls[0];
      var sink, target := scan.matchSink(call), scan.sinkExpression(call);
      if target.Some? {
        TaintOfTraced(scan, target.value, t);
        if sink.Some? && TaintOf(scan, target.value, t).Some? {
          var taint := TaintOf(scan, target.value, t).value;
          var f := EmitFinding(scan, sink.value, taint);
          assert f.path[..|f.path| - 1] == taint.steps;
        }
      }
      CallsReported(scan, calls[1..], t);
    }
  }

  lemma ValueTraced(scan: Scan, e: Expr, t: TaintMap)
    requires Traced(t)
    ensures AllReported(Sinks(scan, e, t))
    ensures TaintOf(scan, e, t).Some? ==> FromSource(TaintOf(scan, e, t).value.steps)
  {
    CallsReported(scan, CollectCalls(e), t);
    TaintOfTraced(scan, e, t);
  }

  predicate Sane(w: Walk)
  {
    Traced(w.tainted) && AllReported(w.findings)
  }

  lemma AssignmentSane(scan: Scan, s: Stmt, t: TaintMap)
    requires Traced(t) && (s.Assign? || s.AnnAssign? || s.AugAssign?)
    ensures Sane(Statement(scan, s, t))
  {
    if s.AnnAssign? {
      if s.annotated.Some? {
        ValueTraced(scan, s.annotated.value, t);
      }
    } else {
      ValueTraced(scan, s.value, t);
    }
  }

  lemma {:induction false} StatementSane(scan: Scan, s: Stmt, t: TaintMap)
    requires Traced(t)
    ensures Sane(Statement(scan, s, t))
    decreases s, 1
  {
    match s
    case Assign(_, _, _) => AssignmentSane(scan, s, t);
    case AnnAssign(_, _, _) => AssignmentSane(scan, s, t);
    case AugAssign(_, _, _) => AssignmentSane(scan, s, t);
    case ExprStmt(value) => ValueTraced(scan, value, t);
    case Return(returned) =>
      if returned.Some? {
        ValueTraced(scan, returned.value, t);
      }
    case If(test, body, orelse) =>
      ValueTraced(scan, test, t);
      BranchesSane(scan, s, Sinks(scan, test, t), t);
    case While(test, body, orelse) =>
      ValueTraced(scan, test, t);
      BranchesSane(scan, s, Sinks(scan, test, t), t);
    case For(targets, iter, body, orelse, line) =>
      ValueTraced(scan, iter, t);
      BranchesSane(scan, s, Sinks(scan, iter, t), LoopEntry(scan, targets, iter, line, t));
    case Try(_, _, _, _) => TrySane(scan, s, t);
    case With(body) => BlockSane(scan, body, t);
    case FunctionDef(_, params, body, line) => BlockSane(scan, body, FunctionEntry(scan, params, line));
    case ClassDef(_, body) => BlockSane(scan, body, map[]);
    case _ =>
  }

  lemma {:induction false} BranchesSane(scan: Scan, s: Stmt, head: seq<Finding>, t: TaintMap)
    requires Traced(t) && AllReported(head) && (s.If? || s.While? || s.For?)
    ensures Sane(MergeBranches(head, t, Block(scan, s.body, t), Block(scan, s.orelse, t)))
    decreases s, 0
  {
    BlockSane(scan, s.body, t);
    BlockSane(scan, s.orelse, t);
  }

  lemma {:induction false} TrySane(scan: Scan, s: Stmt, t: TaintMap)
    requires Traced(t) && s.Try?
    ensures Sane(Statement(scan, s, t))
    decreases s, 0
  {
    var b := Accumulate(scan, s.body, t);
    var o := Accumulate(scan, s.orelse, b.tainted);
    BlockSane(scan, s.body, t);
    BlockSane(scan, s.orelse, b.tainted);
    BlockSane(scan, s.finalbody, o.tainted);
    HandlersSane(scan, s.handlers, Accumulate(scan, s.finalbody, o.tainted).tainted);
  }

  lemma {:induction false} HandlersSane(scan: Scan, handlers: seq<Handler>, t: TaintMap)
    requires Traced(t)
    ensures Sane(Handlers(scan, handlers, t))
    decreases handlers, 0
  {
    if handlers != [] {
      BlockSane(scan, handlers[0].body, t);
      HandlersSane(scan, handlers[1..], Accumulate(scan, handlers[0].body, t).tainted);
    }
  }

  // From traced taint, everything a walk holds or reports is traced back to a source.
  lemma {:induction false} BlockSane(scan: Scan, stmts: seq<Stmt>, t: TaintMap)
    requires Traced(t)
    ensures Sane(Block(scan, stmts, t))
    decreases stmts, 0
  {
    if stmts != [] {
      StatementSane(scan, stmts[0], t);
      BlockSane(scan, stmts[1..], Statement(scan, stmts[0], t).tainted);
    }
  }
}
