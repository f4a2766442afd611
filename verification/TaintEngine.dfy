/**
 The taint pass: what one walk over a block computes, as functions, and the engine's own loops
 and in-place updates, proved to compute exactly that.
 */
module TaintEngine {
  import opened Wrappers
  import opened TaintSyntax

  datatype Taint = Taint(steps: seq<TaintStep>, kind: string)

  type TaintMap = map<string, Taint>

  datatype Finding = Finding(sink: SinkRef, sourceLine: int, kind: string, path: seq<TaintStep>)

  // The state after a walk and the findings it emitted.
  datatype Walk = Walk(tainted: TaintMap, findings: seq<Finding>)

  // ---------------------------------------------------------------- provenance lists

  // Each step once, where it first occurs.
  function Dedupe(steps: seq<TaintStep>): (r: seq<TaintStep>)
  {
    if steps == [] then []
    else
      var front := Dedupe(steps[..|steps| - 1]);
      var last := steps[|steps| - 1];
      if last in front then front else front + [last]
  }

  // The same steps, none of them twice, and the first still first.
  lemma {:induction false} DedupeKeepsSteps(steps: seq<TaintStep>)
    ensures forall s :: s in Dedupe(steps) <==> s in steps
    ensures forall i, j :: 0 <= i < j < |Dedupe(steps)| ==> Dedupe(steps)[i] != Dedupe(steps)[j]
    ensures steps != [] ==> Dedupe(steps) != [] && Dedupe(steps)[0] == steps[0]
    decreases |steps|
  {
    if steps != [] {
      DedupeKeepsSteps(steps[..|steps| - 1]);
      assert steps == steps[..|steps| - 1] + [steps[|steps| - 1]];
    }
  }

  function AllSteps(parts: seq<Taint>): (r: seq<TaintStep>)
  {
    if parts == [] then [] else AllSteps(parts[..|parts| - 1]) + parts[|parts| - 1].steps
  }

  function Merge(parts: seq<Taint>): (r: seq<TaintStep>)
  {
    Dedupe(AllSteps(parts))
  }

  lemma AllStepsSnoc(parts: seq<Taint>, k: nat)
    requires k < |parts|
    ensures AllSteps(parts[..k + 1]) == AllSteps(parts[..k]) + parts[k].steps
  {
    assert parts[..k + 1][..k] == parts[..k];
  }

  lemma DedupeSnoc(prefix: seq<TaintStep>, steps: seq<TaintStep>, k: nat)
    requires k < |steps|
    ensures Dedupe(prefix + steps[..k + 1]) ==
            if steps[k] in Dedupe(prefix + steps[..k]) then Dedupe(prefix + steps[..k])
            else Dedupe(prefix + steps[..k]) + [steps[k]]
  {
    var whole := prefix + steps[..k + 1];
    assert whole[..|whole| - 1] == prefix + steps[..k];
  }

  // The position of the first occurrence of an element.
  function FirstIndex(x: TaintStep, s: seq<TaintStep>): (i: nat)
    requires x in s
    ensures i < |s| && s[i] == x && forall j :: 0 <= j < i ==> s[j] != x
  {
    if s[0] == x then 0 else FirstIndex(x, s[1..]) + 1
  }

  lemma FirstIndexAppend(front: seq<TaintStep>, last: TaintStep, x: TaintStep)
    requires x in front
    ensures x in front + [last] && FirstIndex(x, front + [last]) == FirstIndex(x, front)
  {
    assert (front + [last])[FirstIndex(x, front)] == x;
    assert forall k :: 0 <= k < |front| ==> front[k] == (front + [last])[k];
  }

  // Merging keeps the order in which the steps first occur.
  lemma {:induction false} DedupeKeepsFirstOccurrenceOrder(steps: seq<TaintStep>, i: nat, j: nat)
    requires i < j < |Dedupe(steps)|
    ensures Dedupe(steps)[i] in steps && Dedupe(steps)[j] in steps
    ensures FirstIndex(Dedupe(steps)[i], steps) < FirstIndex(Dedupe(steps)[j], steps)
    decreases |steps|
  {
    var front, last := steps[..|steps| - 1], steps[|steps| - 1];
    var r := Dedupe(front);
    assert steps == front + [last];
    DedupeKeepsSteps(steps);
    DedupeKeepsSteps(front);
    assert r[i] in front;
    FirstIndexAppend(front, last, r[i]);
    if j < |r| {
      assert r[j] in front;
      FirstIndexAppend(front, last, r[j]);
      DedupeKeepsFirstOccurrenceOrder(front, i, j);
    } else {
      assert last !in front;
      assert forall k :: 0 <= k < |front| ==> steps[k] == front[k];
    }
  }

  // The engine's own merge: one pass over all steps with a set of those already seen.
  method MergeSteps(parts: seq<Taint>) returns (steps: seq<TaintStep>)
    ensures steps == Merge(parts)
  {
    steps := [];
    var seen := {};
    for p := 0 to |parts|
      invariant steps == Dedupe(AllSteps(parts[..p]))
      invariant seen == StepSet(steps)
    {
      AllStepsSnoc(parts, p);
      steps, seen := MergePart(AllSteps(parts[..p]), parts[p].steps, steps, seen);
    }
    assert parts[..|parts|] == parts;
  }

  function StepSet(steps: seq<TaintStep>): (r: set<TaintStep>)
  {
    set s | s in steps
  }

  lemma StepSetSnoc(steps: seq<TaintStep>, s: TaintStep)
    ensures StepSet(steps + [s]) == StepSet(steps) + {s}
    ensures s in StepSet(steps) <==> s in steps
  {
  }

  method MergePart(ghost before: seq<TaintStep>, part: seq<TaintStep>, sofar: seq<TaintStep>, known: set<TaintStep>)
    returns (steps: seq<TaintStep>, seen: set<TaintStep>)
    requires sofar == Dedupe(before) && known == StepSet(sofar)
    ensures steps == Dedupe(before + part) && seen == StepSet(steps)
  {
    steps, seen := sofar, known;
    assert before + part[..0] == before;
    for k := 0 to |part|
      invariant steps == Dedupe(before + part[..k])
      invariant seen == StepSet(steps)
    {
      DedupeSnoc(before, part, k);
      StepSetSnoc(steps, part[k]);
      if part[k] !in seen {
        seen := seen + {part[k]};
        steps := steps + [part[k]];
      }
    }
    assert part[..|part|] == part;
  }

  // A request-derived origin wins over the first one.
  function Kind(parts: seq<Taint>): (kind: string)
    requires parts != []
    ensures exists i :: 0 <= i < |parts| && parts[i].kind == kind
    ensures "request" <= kind <==> exists i :: 0 <= i < |parts| && "request" <= parts[i].kind
  {
    if "request" <= parts[0].kind || |parts| == 1 then parts[0].kind
    else
      var k := Kind(parts[1..]);
      assert forall i :: 1 <= i < |parts| ==> parts[i] == parts[1..][i - 1];
      if "request" <= k then k else parts[0].kind
  }

  predicate FromRequest(t: Taint)
  {
    "request" <= t.kind
  }

  // It is the origin of the first part that comes from a request, or of the first part if none does.
  lemma {:induction false} KindIsFirst(parts: seq<Taint>, i: nat)
    requires i < |parts| && (forall j :: 0 <= j < i ==> !FromRequest(parts[j]))
    ensures FromRequest(parts[i]) ==> Kind(parts) == parts[i].kind
    ensures i == |parts| - 1 && !FromRequest(parts[i]) ==> Kind(parts) == parts[0].kind
    decreases |parts|
  {
    assert forall j :: 0 <= j < |parts| - 1 ==> parts[1..][j] == parts[j + 1];
    if i > 0 {
      KindIsFirst(parts[1..], i - 1);
    }
  }

  // ---------------------------------------------------------------- expressions

  function Step(scan: Scan, stepType: StepType, line: int): (r: TaintStep)
  {
    TaintStep(stepType, scan.file, line, scan.lineText(line))
  }

  function Extend(t: Option<Taint>, step: TaintStep): (r: Option<Taint>)
  {
    if t.None? then None else Some(Taint(t.value.steps + [step], t.value.kind))
  }

  function Join(parts: seq<Taint>, step: TaintStep): (r: Option<Taint>)
  {
    if parts == [] then None else Some(Taint(Merge(parts) + [step], Kind(parts)))
  }

  function Present(t: Option<Taint>): (r: seq<Taint>)
  {
    if t.None? then [] else [t.value]
  }

  const WRAPPERS := {"str", "repr", "bytes"}

  predicate SourceShape(e: Expr)
  {
    e.Call? || e.Attribute? || e.Subscript?
  }

  function TaintOf(scan: Scan, e: Expr, tainted: TaintMap): (r: Option<Taint>)
    decreases e, 1
  {
    if SourceShape(e) && scan.isSource(e).Some? then
      var source := scan.isSource(e).value;
      Some(Taint([TaintStep(SourceStep, scan.file, e.line, source.snippet)], source.kind))
    else
      match e
      case Name(id) => if id in tainted then Some(tainted[id]) else None
      case JoinedStr(values, line) =>
        Join(FieldTaints(scan, values, tainted), Step(scan, StringConstruction, line))
      case BinOp(left, op, right, line) =>
        if op.OtherOperator? then None
        else
          Join(Present(TaintOf(scan, left, tainted)) + Present(TaintOf(scan, right, tainted)),
               Step(scan, StringConstruction, line))
      case Call(func, args, _, line) =>
        if func.Name? && func.id in WRAPPERS && args != [] then
          Extend(TaintOf(scan, args[0], tainted), Step(scan, PropagationStep, line))
        else if func.Attribute? && func.attr == "format" then
          Join(Present(TaintOf(scan, func.value, tainted)) + ItemTaints(scan, args, tainted),
               Step(scan, StringConstruction, line))
        else None
      case Attribute(value, _, line) =>
        Extend(TaintOf(scan, value, tainted), Step(scan, PropagationStep, line))
      case Subscript(value, _, line) =>
        Extend(TaintOf(scan, value, tainted), Step(scan, PropagationStep, line))
      case Collection(items, line) =>
        Join(ItemTaints(scan, items, tainted), Step(scan, PropagationStep, line))
      case IfExp(test, body, orelse, line) =>
        Join(Present(TaintOf(scan, test, tainted)) + Present(TaintOf(scan, body, tainted)) +
             Present(TaintOf(scan, orelse, tainted)),
             Step(scan, PropagationStep, line))
      case _ => None
  }

  function ItemTaints(scan: Scan, es: seq<Expr>, tainted: TaintMap): (r: seq<Taint>)
    decreases es, 0
  {
    if es == [] then []
    else Present(TaintOf(scan, es[0], tainted)) + ItemTaints(scan, es[1..], tainted)
  }

  // Only the interpolated fields of an f-string carry taint, not its text.
  function FieldTaints(scan: Scan, es: seq<Expr>, tainted: TaintMap): (r: seq<Taint>)
    decreases es, 0
  {
    if es == [] then []
    else
      (if es[0].FormattedValue? then Present(TaintOf(scan, es[0].value, tainted)) else []) +
      FieldTaints(scan, es[1..], tainted)
  }

  // ---------------------------------------------------------------- sinks

  function EmitFinding(scan: Scan, sink: SinkRef, taint: Taint): (r: Finding)
  {
    var path := taint.steps + [TaintStep(SinkStep, scan.file, sink.line, sink.snippet)];
    Finding(sink, path[0].line, taint.kind, path)
  }

  function CallFindings(scan: Scan, call: Expr, tainted: TaintMap): (r: seq<Finding>)
  {
    var sink := scan.matchSink(call);
    if sink.None? || scan.isSanitized(call, sink.value) then []
    else
      var target := scan.sinkExpression(call);
      if target.None? then []
      else
        var taint := TaintOf(scan, target.value, tainted);
        if taint.None? then [] else [EmitFinding(scan, sink.value, taint.value)]
  }

  function CallsFindings(scan: Scan, calls: seq<Expr>, tainted: TaintMap): (r: seq<Finding>)
  {
    if calls == [] then []
    else CallFindings(scan, calls[0], tainted) + CallsFindings(scan, calls[1..], tainted)
  }

  function Sinks(scan: Scan, e: Expr, tainted: TaintMap): (r: seq<Finding>)
  {
    CallsFindings(scan, CollectCalls(e), tainted)
  }

  // ---------------------------------------------------------------- statements

  function SetTargets(targets: seq<Target>, taint: Taint, tainted: TaintMap): (r: TaintMap)
  {
    tainted + map id | id in TargetNames(targets) :: taint
  }

  function AssignTaint(scan: Scan, value: Expr, taint: Taint, line: int): (r: Taint)
  {
    if value.Name? || (SourceShape(value) && scan.isSource(value).Some?) then
      Taint(taint.steps + [Step(scan, AssignmentStep, line)], taint.kind)
    else taint
  }

  function AfterAssign(scan: Scan, targets: seq<Target>, value: Expr, line: int, tainted: TaintMap): (r: TaintMap)
  {
    var taint := TaintOf(scan, value, tainted);
    if taint.None? then tainted
    else SetTargets(targets, AssignTaint(scan, value, taint.value, line), tainted)
  }

  function AfterAugAssign(scan: Scan, target: Target, value: Expr, line: int, tainted: TaintMap): (r: TaintMap)
  {
    if target.OtherTarget? then tainted
    else
      var base := if target.id in tainted then Some(tainted[target.id]) else TaintOf(scan, value, tainted);
      if base.None? then tainted
      else tainted[target.id := Taint(base.value.steps + [Step(scan, PropagationStep, line)], base.value.kind)]
  }

  function LoopEntry(scan: Scan, targets: seq<Target>, iter: Expr, line: int, tainted: TaintMap): (r: TaintMap)
  {
    var taint := TaintOf(scan, iter, tainted);
    if taint.None? then tainted
    else SetTargets(targets, Taint(taint.value.steps + [Step(scan, PropagationStep, line)], taint.value.kind), tainted)
  }

  function ParamNames(params: seq<string>): (r: set<string>)
  {
    set p | p in params && p != "self" && p != "cls"
  }

  // A function starts with its poisoned parameters and nothing else.
  function FunctionEntry(scan: Scan, params: seq<string>, line: int): (r: TaintMap)
  {
    if scan.poisonParams then
      map p | p in ParamNames(params) :: Taint([Step(scan, SourceStep, line)], "function_param")
    else map[]
  }

  function Statement(scan: Scan, s: Stmt, tainted: TaintMap): (r: Walk)
    decreases s, 1
  {
    match s
    case Assign(targets, value, line) =>
      Walk(AfterAssign(scan, targets, value, line, tainted), Sinks(scan, value, tainted))
    case AnnAssign(target, annotated, line) =>
      if annotated.None? then Walk(tainted, [])
      else
        Walk(AfterAssign(scan, [target], annotated.value, line, tainted), Sinks(scan, annotated.value, tainted))
    case AugAssign(target, value, line) =>
      Walk(AfterAugAssign(scan, target, value, line, tainted), Sinks(scan, value, tainted))
    case ExprStmt(value) => Walk(tainted, Sinks(scan, value, tainted))
    case Return(returned) =>
      Walk(tainted, if returned.None? then [] else Sinks(scan, returned.value, tainted))
    case If(test, body, orelse) =>
      MergeBranches(Sinks(scan, test, tainted), tainted, Block(scan, body, tainted), Block(scan, orelse, tainted))
    case While(test, body, orelse) =>
      MergeBranches(Sinks(scan, test, tainted), tainted, Block(scan, body, tainted), Block(scan, orelse, tainted))
    case For(targets, iter, body, orelse, line) =>
      var entry := LoopEntry(scan, targets, iter, line, tainted);
      MergeBranches(Sinks(scan, iter, tainted), entry, Block(scan, body, entry), Block(scan, orelse, entry))
    case Try(body, handlers, orelse, finalbody) =>
      // The finally block comes before the handlers.
      var b := Accumulate(scan, body, tainted);
      var o := Accumulate(scan, orelse, b.tainted);
      var f := Accumulate(scan, finalbody, o.tainted);
      var h := Handlers(scan, handlers, f.tainted);
      Walk(h.tainted, b.findings + o.findings + f.findings + h.findings)
    case With(body) => Accumulate(scan, body, tainted)
    case FunctionDef(_, params, body, line) =>
      Walk(tainted, Block(scan, body, FunctionEntry(scan, params, line)).findings)
    case ClassDef(_, body) => Walk(tainted, Block(scan, body, map[]).findings)
    case Break => Walk(tainted, [])
    case Continue => Walk(tainted, [])
    case Pass => Walk(tainted, [])
  }

  // Both branches start from the same state; their results are merged over it.
  function MergeBranches(head: seq<Finding>, tainted: TaintMap, body: Walk, orelse: Walk): (r: Walk)
  {
    Walk(tainted + (body.tainted + orelse.tainted), head + body.findings + orelse.findings)
  }

  function Accumulate(scan: Scan, body: seq<Stmt>, tainted: TaintMap): (r: Walk)
    decreases body, 2
  {
    var b := Block(scan, body, tainted);
    Walk(tainted + b.tainted, b.findings)
  }

  function Handlers(scan: Scan, handlers: seq<Handler>, tainted: TaintMap): (r: Walk)
    decreases handlers, 0
  {
    if handlers == [] then Walk(tainted, [])
    else
      var h := Accumulate(scan, handlers[0].body, tainted);
      var rest := Handlers(scan, handlers[1..], h.tainted);
      Walk(rest.tainted, h.findings + rest.findings)
  }

  function Block(scan: Scan, stmts: seq<Stmt>, tainted: TaintMap): (r: Walk)
    decreases stmts, 0
  {
    if stmts == [] then Walk(tainted, [])
    else
      var first := Statement(scan, stmts[0], tainted);
      var rest := Block(scan, stmts[1..], first.tainted);
      Walk(rest.tainted, first.findings + rest.findings)
  }
}
