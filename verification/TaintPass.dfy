/**
 The engine as it runs: a file context whose finding list grows, and a taint dict updated statement
 by statement. Each method is proved to compute the walk of module TaintEngine.
 */
module TaintPass {
  import opened Wrappers
  import opened TaintSyntax
  import opened TaintEngine

  class FileContext {
    const scan: Scan
    var findings: seq<Finding>

    constructor (scan: Scan)
      ensures this.scan == scan && findings == []
    {
      this.scan := scan;
      findings := [];
    }

    method CheckSinks(e: Expr, tainted: TaintMap)
      modifies this
      ensures findings == old(findings) + Sinks(scan, e, tainted)
    {
      var calls := CollectCalls(e);
      assert calls[..0] == [];
      for i := 0 to |calls|
        invariant findings == old(findings) + CallsFindings(scan, calls[..i], tainted)
      {
        CallsFindingsSnoc(scan, calls, i, tainted);
        CheckCall(calls[i], tainted);
      }
      assert calls[..|calls|] == calls;
    }

    method CheckCall(call: Expr, tainted: TaintMap)
      modifies this
      ensures findings == old(findings) + CallFindings(scan, call, tainted)
    {
      var sink := scan.matchSink(call);
      if sink.None? || scan.isSanitized(call, sink.value) {
        return;
      }
      var target := scan.sinkExpression(call);
      if target.None? {
        return;
      }
      var taint := TaintOf(scan, target.value, tainted);
      if taint.None? {
        return;
      }
      findings := findings + [EmitFinding(scan, sink.value, taint.value)];
    }

    method ApplyAssign(s: Stmt, before: TaintMap) returns (tainted: TaintMap)
      requires s.Assign? || s.AnnAssign? || s.AugAssign?
      modifies this
      ensures tainted == Statement(scan, s, before).tainted
      ensures findings == old(findings) + Statement(scan, s, before).findings
    {
      tainted := before;
      if s.AugAssign? {
        CheckSinks(s.value, tainted);
        var valueTaint := TaintOf(scan, s.value, tainted);
        if s.target.NameTarget? {
          var id := s.target.id;
          if id in tainted || valueTaint.Some? {
            var base := if id in tainted then tainted[id] else valueTaint.value;
            tainted := tainted[id := Taint(base.steps + [Step(scan, PropagationStep, s.line)], base.kind)];
          }
        }
        return;
      }
      if s.AnnAssign? && s.annotated.None? {
        return;
      }
      var value := if s.Assign? then s.value else s.annotated.value;
      CheckSinks(value, tainted);
      var valueTaint := TaintOf(scan, value, tainted);
      if valueTaint.None? {
        return;
      }
      var taint := AssignTaint(scan, value, valueTaint.value, s.line);
      var targets := if s.Assign? then s.targets else [s.target];
      tainted := AssignEach(targets, taint, tainted);
    }

    // Bind every name target, one at a time.
    method AssignEach(targets: seq<Target>, taint: Taint, before: TaintMap) returns (tainted: TaintMap)
      ensures tainted == SetTargets(targets, taint, before)
    {
      tainted := before;
      for i := 0 to |targets|
        invariant tainted == SetTargets(targets[..i], taint, before)
      {
        SetTargetsSnoc(targets[..i], targets[i], taint, before);
        assert targets[..i + 1] == targets[..i] + [targets[i]];
        if targets[i].NameTarget? {
          tainted := tainted[targets[i].id := taint];
        }
      }
      assert targets[..|targets|] == targets;
    }

    method AnalyzeBlock(stmts: seq<Stmt>, before: TaintMap) returns (tainted: TaintMap)
      modifies this
      decreases stmts, 0
      ensures tainted == Block(scan, stmts, before).tainted
      ensures findings == old(findings) + Block(scan, stmts, before).findings
    {
      tainted := before;
      ghost var done: seq<Finding> := [];
      assert stmts[0..] == stmts;
      for i := 0 to |stmts|
        invariant findings == old(findings) + done
        invariant Block(scan, stmts, before) == Resume(done, Block(scan, stmts[i..], tainted))
      {
        UnrollBlock(scan, stmts, i, tainted, done);
        ghost var next := Statement(scan, stmts[i], tainted).findings;
        tainted := ApplyStmt(stmts[i], tainted);
        AppendTwo(old(findings), done, next);
        done := done + next;
      }
      assert stmts[|stmts|..] == [];
      AppendNone(done);
    }

    method ApplyStmt(s: Stmt, before: TaintMap) returns (tainted: TaintMap)
      modifies this
      decreases s, 1
      ensures tainted == Statement(scan, s, before).tainted
      ensures findings == old(findings) + Statement(scan, s, before).findings
    {
      tainted := before;
      match s {
        case Assign(_, _, _) =>
          tainted := ApplyAssign(s, tainted);
        case AnnAssign(_, _, _) =>
          tainted := ApplyAssign(s, tainted);
        case AugAssign(_, _, _) =>
          tainted := ApplyAssign(s, tainted);
        case If(_, _, _) =>
          tainted := ApplyConditional(s, tainted);
        case While(_, _, _) =>
          tainted := ApplyConditional(s, tainted);
        case For(_, _, _, _, _) =>
          tainted := ApplyFor(s, tainted);
        case Try(_, _, _, _) =>
          tainted := ApplyTry(s, tainted);
        case With(body) =>
          var b := AnalyzeBlock(body, tainted);
          tainted := tainted + b;
        case FunctionDef(_, params, body, line) =>
          var _ := AnalyzeBlock(body, FunctionEntry(scan, params, line));
        case ClassDef(_, body) =>
          var _ := AnalyzeBlock(body, map[]);
        case ExprStmt(value) =>
          CheckSinks(value, tainted);
        case Return(returned) =>
          if returned.Some? {
            CheckSinks(returned.value, tainted);
          }
        case Break =>
        case Continue =>
        case Pass =>
      }
    }

    method ApplyConditional(s: Stmt, before: TaintMap) returns (tainted: TaintMap)
      requires s.If? || s.While?
      modifies this
      decreases s, 0
      ensures tainted == Statement(scan, s, before).tainted
      ensures findings == old(findings) + Statement(scan, s, before).findings
    {
      CheckSinks(s.test, before);
      var merged := AnalyzeBlock(s.body, before);
      var other := AnalyzeBlock(s.orelse, before);
      merged := merged + other;
      tainted := before + merged;
      AppendInOrder(old(findings), Sinks(scan, s.test, before), Block(scan, s.body, before).findings,
                    Block(scan, s.orelse, before).findings, []);
    }

    method ApplyFor(s: Stmt, before: TaintMap) returns (tainted: TaintMap)
      requires s.For?
      modifies this
      decreases s, 0
      ensures tainted == Statement(scan, s, before).tainted
      ensures findings == old(findings) + Statement(scan, s, before).findings
    {
      tainted := before;
      CheckSinks(s.iter, tainted);
      var iterTaint := TaintOf(scan, s.iter, tainted);
      if iterTaint.Some? {
        var steps := iterTaint.value.steps + [Step(scan, PropagationStep, s.line)];
        tainted := AssignEach(s.targets, Taint(steps, iterTaint.value.kind), tainted);
      }
      ghost var entry := tainted;
      var merged := AnalyzeBlock(s.body, tainted);
      var other := AnalyzeBlock(s.orelse, tainted);
      merged := merged + other;
      tainted := tainted + merged;
      AppendInOrder(old(findings), Sinks(scan, s.iter, before), Block(scan, s.body, entry).findings,
                    Block(scan, s.orelse, entry).findings, []);
    }

    method ApplyTry(s: Stmt, before: TaintMap) returns (tainted: TaintMap)
      requires s.Try?
      modifies this
      decreases s, 0
      ensures tainted == Statement(scan, s, before).tainted
      ensures findings == old(findings) + Statement(scan, s, before).findings
    {
      tainted := before;
      var b := AnalyzeBlock(s.body, tainted);
      ghost var bodyFindings := Block(scan, s.body, tainted).findings;
      tainted := tainted + b;
      var o := AnalyzeBlock(s.orelse, tainted);
      ghost var elseFindings := Block(scan, s.orelse, tainted).findings;
      tainted := tainted + o;
      var f := AnalyzeBlock(s.finalbody, tainted);
      ghost var finalFindings := Block(scan, s.finalbody, tainted).findings;
      tainted := tainted + f;
      ghost var handlerFindings := Handlers(scan, s.handlers, tainted).findings;
      tainted := ApplyHandlers(s.handlers, tainted);
      assert findings == old(findings) + bodyFindings + elseFindings + finalFindings + handlerFindings;
      AppendInOrder(old(findings), bodyFindings, elseFindings, finalFindings, handlerFindings);
    }

    method ApplyHandlers(handlers: seq<Handler>, before: TaintMap) returns (tainted: TaintMap)
      modifies this
      decreases handlers, 0
      ensures tainted == Handlers(scan, handlers, before).tainted
      ensures findings == old(findings) + Handlers(scan, handlers, before).findings
    {
      tainted := before;
      ghost var done: seq<Finding> := [];
      assert handlers[0..] == handlers;
      for i := 0 to |handlers|
        invariant findings == old(findings) + done
        invariant Handlers(scan, handlers, before) == Resume(done, Handlers(scan, handlers[i..], tainted))
      {
        UnrollHandlers(scan, handlers, i, tainted, done);
        ghost var next := Block(scan, handlers[i].body, tainted).findings;
        var h := AnalyzeBlock(handlers[i].body, tainted);
        tainted := tainted + h;
        AppendTwo(old(findings), done, next);
        done := done + next;
      }
      assert handlers[|handlers|..] == [];
      AppendNone(done);
    }
  }

  // A walk that goes on after some findings have been emitted already.
  function Resume(done: seq<Finding>, rest: Walk): (r: Walk)
  {
    Walk(rest.tainted, done + rest.findings)
  }

  lemma UnrollBlock(scan: Scan, stmts: seq<Stmt>, i: nat, tainted: TaintMap, done: seq<Finding>)
    requires i < |stmts|
    ensures var first := Statement(scan, stmts[i], tainted);
            Resume(done, Block(scan, stmts[i..], tainted)) ==
            Resume(done + first.findings, Block(scan, stmts[i + 1..], first.tainted))
  {
    assert stmts[i..][0] == stmts[i] && stmts[i..][1..] == stmts[i + 1..];
    var first := Statement(scan, stmts[i], tainted);
    var rest := Block(scan, stmts[i + 1..], first.tainted);
    assert done + (first.findings + rest.findings) == done + first.findings + rest.findings;
  }

  lemma UnrollHandlers(scan: Scan, handlers: seq<Handler>, i: nat, tainted: TaintMap, done: seq<Finding>)
    requires i < |handlers|
    ensures var h := Accumulate(scan, handlers[i].body, tainted);
            Resume(done, Handlers(scan, handlers[i..], tainted)) ==
            Resume(done + h.findings, Handlers(scan, handlers[i + 1..], h.tainted))
  {
    assert handlers[i..][0] == handlers[i] && handlers[i..][1..] == handlers[i + 1..];
    var h := Accumulate(scan, handlers[i].body, tainted);
    var rest := Handlers(scan, handlers[i + 1..], h.tainted);
    assert done + (h.findings + rest.findings) == done + h.findings + rest.findings;
  }

  lemma {:induction false} CallsFindingsSnoc(scan: Scan, calls: seq<Expr>, i: nat, tainted: TaintMap)
    requires i < |calls|
    ensures CallsFindings(scan, calls[..i + 1], tainted) ==
            CallsFindings(scan, calls[..i], tainted) + CallFindings(scan, calls[i], tainted)
    decreases i
  {
    if i == 0 {
      assert calls[..1] == [calls[0]];
    } else {
      CallsFindingsSnoc(scan, calls[1..], i - 1, tainted);
      assert calls[..i + 1][1..] == calls[1..][..i] && calls[..i][1..] == calls[1..][..i - 1];
    }
  }

  lemma TargetNamesSnoc(targets: seq<Target>, t: Target)
    ensures TargetNames(targets + [t]) == TargetNames(targets) + (if t.NameTarget? then {t.id} else {})
  {
    var all := targets + [t];
    assert forall i :: 0 <= i < |targets| ==> all[i] == targets[i];
    assert all[|targets|] == t;
    forall id | id in TargetNames(all)
      ensures id in TargetNames(targets) + (if t.NameTarget? then {t.id} else {})
    {
      var i :| 0 <= i < |all| && all[i].NameTarget? && all[i].id == id;
      if i < |targets| {
        assert targets[i].id == id;
      }
    }
    forall id | id in TargetNames(targets)
      ensures id in TargetNames(all)
    {
      var i :| 0 <= i < |targets| && targets[i].NameTarget? && targets[i].id == id;
      assert all[i].id == id;
    }
  }

  lemma AppendTwo(start: seq<Finding>, a: seq<Finding>, b: seq<Finding>)
    ensures start + a + b == start + (a + b)
  {
  }

  lemma AppendNone(a: seq<Finding>)
    ensures a + [] == a
  {
  }

  lemma AppendInOrder(start: seq<Finding>, a: seq<Finding>, b: seq<Finding>, c: seq<Finding>, d: seq<Finding>)
    ensures start + a + b + c + d == start + (a + b + c + d)
    ensures d == [] ==> start + a + b + c == start + (a + b + c)
  {
  }

  lemma SetTargetsSnoc(targets: seq<Target>, t: Target, taint: Taint, before: TaintMap)
    ensures SetTargets(targets + [t], taint, before) ==
            if t.NameTarget? then SetTargets(targets, taint, before)[t.id := taint]
            else SetTargets(targets, taint, before)
  {
    TargetNamesSnoc(targets, t);
  }

  // A whole file is one block analysed from no taint; one that does not parse is skipped.
  method AnalyzeFile(scan: Scan, parsed: Option<seq<Stmt>>) returns (findings: seq<Finding>)
    ensures findings == if parsed.None? then [] else Block(scan, parsed.value, map[]).findings
  {
    if parsed.None? {
      return [];
    }
    var ctx := new FileContext(scan);
    var _ := ctx.AnalyzeBlock(parsed.value, map[]);
    findings := ctx.findings;
  }
}
