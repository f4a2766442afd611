/**
 The walk told on trails: every tainted name has the list of its sources, and a report is a sink together with
 the trail that reaches it. The findings of a walk are its reports, one by one and in order.
 */
module TaintFindings {
  import opened Wrappers
  import opened TaintSyntax
  import opened TaintEngine
  import opened TaintOrigins
  import TaintNames

  datatype Report = Report(sink: SinkRef, trail: Trail)

  // The names tainted after some statements, and what was reported on the way.
  datatype Course = Course(names: Trails, reports: seq<Report>)

  function Reports(scan: Scan, calls: seq<Expr>, names: Trails): (r: seq<Report>)
  {
    if calls == [] then []
    else
      var call := calls[0];
      var sink, target := scan.matchSink(call), scan.sinkExpression(call);
      var fires := sink.Some? && !scan.isSanitized(call, sink.value) && target.Some?
                   && TrailOf(scan, target.value, names).sources != [];
      (if fires then [Report(sink.value, TrailOf(scan, target.value, names))] else [])
      + Reports(scan, calls[1..], names)
  }

  // A value with a source in it taints every name it is given to.
  function Bind(ids: set<string>, trail: Trail, names: Trails): (r: Trails)
  {
    names + map id | id in ids && trail.sources != [] :: trail
  }

  function ValueTrail(scan: Scan, value: Expr, line: int, names: Trails): (r: Trail)
  {
    var trail := TrailOf(scan, value, names);
    if value.Name? || (SourceShape(value) && scan.isSource(value).Some?) then
      Via(trail, At(scan, AssignmentStep, line))
    else trail
  }

  // The trail of an augmented name goes on; one that is untainted takes over the value's.
  function Augment(scan: Scan, target: Target, value: Expr, line: int, names: Trails): (r: Trails)
  {
    match target
    case OtherTarget => names
    case NameTarget(id) =>
      var trail := if id in names then names[id] else TrailOf(scan, value, names);
      if trail.sources == [] then names else names[id := Via(trail, At(scan, PropagationStep, line))]
  }

  function ParamTrails(scan: Scan, params: seq<string>, line: int): (r: Trails)
  {
    var step := At(scan, SourceStep, line);
    map p | p in params && scan.poisonParams && p !in {"self", "cls"} :: Trail([Origin(step, "function_param")], {step})
  }

  function StatementCourse(scan: Scan, s: Stmt, names: Trails): (r: Course)
    decreases s, 1
  {
    match s
    case Assign(targets, value, line) =>
      Course(Bind(TargetNames(targets), ValueTrail(scan, value, line, names), names),
             Reports(scan, CollectCalls(value), names))
    case AnnAssign(target, annotated, line) =>
      if annotated.None? then Course(names, [])
      else
        Course(Bind(TargetNames([target]), ValueTrail(scan, annotated.value, line, names), names),
               Reports(scan, CollectCalls(annotated.value), names))
    case AugAssign(target, value, line) =>
      Course(Augment(scan, target, value, line, names), Reports(scan, CollectCalls(value), names))
    case ExprStmt(value) => Course(names, Reports(scan, CollectCalls(value), names))
    case Return(returned) =>
      Course(names, if returned.None? then [] else Reports(scan, CollectCalls(returned.value), names))
    case If(test, body, orelse) =>
      Branches(Reports(scan, CollectCalls(test), names), BlockCourse(scan, body, names),
               BlockCourse(scan, orelse, names))
    case While(test, body, orelse) =>
      Branches(Reports(scan, CollectCalls(test), names), BlockCourse(scan, body, names),
               BlockCourse(scan, orelse, names))
    case For(targets, iter, body, orelse, line) =>
      var entry := Bind(TargetNames(targets), Via(TrailOf(scan, iter, names), At(scan, PropagationStep, line)), names);
      Branches(Reports(scan, CollectCalls(iter), names), BlockCourse(scan, body, entry),
               BlockCourse(scan, orelse, entry))
    case Try(body, handlers, orelse, finalbody) =>
      // One block after the other, the finally block before the handlers.
      var b := BlockCourse(scan, body, names);
      var o := BlockCourse(scan, orelse, b.names);
      var f := BlockCourse(scan, finalbody, o.names);
      var h := HandlersCourse(scan, handlers, f.names);
      Course(h.names, b.reports + o.reports + f.reports + h.reports)
    case With(body) => BlockCourse(scan, body, names)
    case FunctionDef(_, params, body, line) =>
      Course(names, BlockCourse(scan, body, ParamTrails(scan, params, line)).reports)
    case ClassDef(_, body) => Course(names, BlockCourse(scan, body, map[]).reports)
    case _ => Course(names, [])
  }

  // Both start from the same names; the second one's view of a name wins where it has one.
  function Branches(head: seq<Report>, body: Course, orelse: Course): (r: Course)
  {
    Course(body.names + orelse.names, head + body.reports + orelse.reports)
  }

  function HandlersCourse(scan: Scan, handlers: seq<Handler>, names: Trails): (r: Course)
    decreases handlers, 0
  {
    if handlers == [] then Course(names, [])
    else
      var h := BlockCourse(scan, handlers[0].body, names);
      var rest := HandlersCourse(scan, handlers[1..], h.names);
      Course(rest.names, h.reports + rest.reports)
  }

  function BlockCourse(scan: Scan, stmts: seq<Stmt>, names: Trails): (r: Course)
    decreases stmts, 0
  {
    if stmts == [] then Course(names, [])
    else
      var first := StatementCourse(scan, stmts[0], names);
      var rest := BlockCourse(scan, stmts[1..], first.names);
      Course(rest.names, first.reports + rest.reports)
  }

  // ---------------------------------------------------------------- findings and reports

  // The path is the trail's and ends at the sink; its kind and source line are those of the trail.
  ghost predicate Tells(scan: Scan, r: Report, f: Finding)
  {
    && f.sink == r.sink && f.path != []
    && Explains(r.trail, Taint(f.path[..|f.path| - 1], f.kind))
    && f.path[|f.path| - 1] == TaintStep(SinkStep, scan.file, f.sink.line, f.sink.snippet)
    && f.sourceLine == r.trail.sources[0].step.line
  }

  ghost predicate TellAll(scan: Scan, reports: seq<Report>, findings: seq<Finding>)
  {
    |reports| == |findings| && forall i :: 0 <= i < |reports| ==> Tells(scan, reports[i], findings[i])
  }

  ghost predicate Agrees(scan: Scan, c: Course, w: Walk)
  {
    ExplainsMap(c.names, w.tainted) && TellAll(scan, c.reports, w.findings)
  }

  lemma TellAppend(scan: Scan, a: seq<Report>, b: seq<Report>, f: seq<Finding>, g: seq<Finding>)
    requires TellAll(scan, a, f) && TellAll(scan, b, g)
    ensures TellAll(scan, a + b, f + g)
  {
  }

  lemma {:induction false} ReportsTold(scan: Scan, calls: seq<Expr>, names: Trails, t: TaintMap)
    requires ExplainsMap(names, t)
    ensures TellAll(scan, Reports(scan, calls, names), CallsFindings(scan, calls, t))
  {
    if calls != [] {
      ReportsTold(scan, calls[1..], names, t);
      var call := calls[0];
      var sink, target := scan.matchSink(call), scan.sinkExpression(call);
      var head := CallFindings(scan, call, t);
      if sink.Some? && !scan.isSanitized(call, sink.value) && target.Some? {
        TaintExplained(scan, target.value, names, t);
        var trail, taint := TrailOf(scan, target.value, names), TaintOf(scan, target.value, t);
        if taint.Some? {
          EmissionTold(scan, sink.value, trail, taint.value);
          TellAppend(scan, [Report(sink.value, trail)], Reports(scan, calls[1..], names),
                     head, CallsFindings(scan, calls[1..], t));
        }
      }
    }
  }

  lemma EmissionTold(scan: Scan, sink: SinkRef, trail: Trail, taint: Taint)
    requires Explains(trail, taint)
    ensures Tells(scan, Report(sink, trail), EmitFinding(scan, sink, taint))
  {
    var f := EmitFinding(scan, sink, taint);
    assert f.path[..|f.path| - 1] == taint.steps;
  }

  lemma BindExplained(ids: set<string>, trail: Trail, t: Option<Taint>, names: Trails, tainted: TaintMap)
    requires ExplainsMap(names, tainted) && ExplainsOption(trail, t)
    ensures ExplainsMap(Bind(ids, trail, names),
                        if t.None? then tainted else tainted + map id | id in ids :: t.value)
  {
  }

  lemma AssignTold(scan: Scan, targets: seq<Target>, value: Expr, line: int, names: Trails, t: TaintMap)
    requires ExplainsMap(names, t)
    ensures ExplainsMap(Bind(TargetNames(targets), ValueTrail(scan, value, line, names), names),
                        AfterAssign(scan, targets, value, line, t))
    ensures TellAll(scan, Reports(scan, CollectCalls(value), names), Sinks(scan, value, t))
  {
    ReportsTold(scan, CollectCalls(value), names, t);
    TaintExplained(scan, value, names, t);
    var taint := TaintOf(scan, value, t);
    ExtendExplained(TrailOf(scan, value, names), taint, At(scan, AssignmentStep, line));
    BindExplained(TargetNames(targets), ValueTrail(scan, value, line, names),
                  if taint.None? then None else Some(AssignTaint(scan, value, taint.value, line)), names, t);
  }

  lemma NameExplained(id: string, trail: Trail, taint: Taint, names: Trails, t: TaintMap)
    requires ExplainsMap(names, t) && Explains(trail, taint)
    ensures ExplainsMap(names[id := trail], t[id := taint])
  {
  }

  lemma BaseExplained(scan: Scan, id: string, value: Expr, names: Trails, t: TaintMap)
    requires ExplainsMap(names, t)
    ensures ExplainsOption(if id in names then names[id] else TrailOf(scan, value, names),
                           if id in t then Some(t[id]) else TaintOf(scan, value, t))
  {
    TaintExplained(scan, value, names, t);
  }

  lemma GoesOn(id: string, trail: Trail, taint: Option<Taint>, step: TaintStep, names: Trails, t: TaintMap)
    requires ExplainsMap(names, t) && ExplainsOption(trail, taint) && !step.stepType.SourceStep?
    ensures ExplainsMap(if trail.sources == [] then names else names[id := Via(trail, step)],
                        if taint.None? then t else t[id := Taint(taint.value.steps + [step], taint.value.kind)])
  {
    ExtendExplained(trail, taint, step);
    if taint.Some? {
      NameExplained(id, Via(trail, step), Extend(taint, step).value, names, t);
    }
  }

  lemma AugmentTold(scan: Scan, target: Target, value: Expr, line: int, names: Trails, t: TaintMap)
    requires ExplainsMap(names, t)
    ensures ExplainsMap(Augment(scan, target, value, line, names), AfterAugAssign(scan, target, value, line, t))
  {
    if target.NameTarget? {
      var id := target.id;
      BaseExplained(scan, id, value, names, t);
      GoesOn(id, if id in names then names[id] else TrailOf(scan, value, names),
             if id in t then Some(t[id]) else TaintOf(scan, value, t), At(scan, PropagationStep, line), names, t);
    }
  }

  lemma EntryTold(scan: Scan, targets: seq<Target>, iter: Expr, line: int, names: Trails, t: TaintMap)
    requires ExplainsMap(names, t)
    ensures ExplainsMap(Bind(TargetNames(targets), Via(TrailOf(scan, iter, names), At(scan, PropagationStep, line)),
                             names),
                        LoopEntry(scan, targets, iter, line, t))
  {
    TaintExplained(scan, iter, names, t);
    var step := At(scan, PropagationStep, line);
    ExtendExplained(TrailOf(scan, iter, names), TaintOf(scan, iter, t), step);
    BindExplained(TargetNames(targets), Via(TrailOf(scan, iter, names), step), Extend(TaintOf(scan, iter, t), step),
                  names, t);
  }

  lemma ParamsTold(scan: Scan, params: seq<string>, line: int)
    ensures ExplainsMap(ParamTrails(scan, params, line), FunctionEntry(scan, params, line))
  {
    var step := At(scan, SourceStep, line);
    assert StepsIn([step]) == {step};
    assert [Origin(step, "function_param")][0].kind == "function_param";
  }

  // A walk never drops a name.
  lemma BlockKeeps(scan: Scan, stmts: seq<Stmt>, t: TaintMap)
    ensures t + Block(scan, stmts, t).tainted == Block(scan, stmts, t).tainted
  {
    TaintNames.BlockProjects(scan, stmts, t);
    TaintNames.BlockMonotone(scan, stmts, t.Keys, t.Keys);
    var r := Block(scan, stmts, t).tainted;
    assert TaintNames.Names(Block(scan, stmts, t)).names == r.Keys;
  }

  lemma {:induction false} StatementTold(scan: Scan, s: Stmt, names: Trails, t: TaintMap)
    requires ExplainsMap(names, t)
    ensures Agrees(scan, StatementCourse(scan, s, names), Statement(scan, s, t))
    decreases s, 1
  {
    match s
    case Assign(targets, value, line) => AssignTold(scan, targets, value, line, names, t);
    case AnnAssign(target, annotated, line) =>
      if annotated.Some? {
        AssignTold(scan, [target], annotated.value, line, names, t);
      }
    case AugAssign(target, value, line) =>
      ReportsTold(scan, CollectCalls(value), names, t);
      AugmentTold(scan, target, value, line, names, t);
    case ExprStmt(value) => ReportsTold(scan, CollectCalls(value), names, t);
    case Return(returned) =>
      if returned.Some? {
        ReportsTold(scan, CollectCalls(returned.value), names, t);
      }
    case If(test, _, _) =>
      ReportsTold(scan, CollectCalls(test), names, t);
      BranchesTold(scan, s, Reports(scan, CollectCalls(test), names), Sinks(scan, test, t), names, t);
    case While(test, _, _) =>
      ReportsTold(scan, CollectCalls(test), names, t);
      BranchesTold(scan, s, Reports(scan, CollectCalls(test), names), Sinks(scan, test, t), names, t);
    case For(_, _, _, _, _) => ForTold(scan, s, names, t);
    case Try(_, _, _, _) => TryTold(scan, s, names, t);
    case With(body) =>
      BlockTold(scan, body, names, t);
      BlockKeeps(scan, body, t);
    case FunctionDef(_, params, body, line) =>
      ParamsTold(scan, params, line);
      BlockTold(scan, body, ParamTrails(scan, params, line), FunctionEntry(scan, params, line));
    case ClassDef(_, body) => BlockTold(scan, body, map[], map[]);
    case _ =>
  }

  lemma {:induction false} ForTold(scan: Scan, s: Stmt, names: Trails, t: TaintMap)
    requires s.For? && ExplainsMap(names, t)
    ensures Agrees(scan, StatementCourse(scan, s, names), Statement(scan, s, t))
    decreases s, 0, 1
  {
    var calls := CollectCalls(s.iter);
    ReportsTold(scan, calls, names, t);
    EntryTold(scan, s.targets, s.iter, s.line, names, t);
    var step := At(scan, PropagationStep, s.line);
    var entry := Bind(TargetNames(s.targets), Via(TrailOf(scan, s.iter, names), step), names);
    BranchesTold(scan, s, Reports(scan, calls, names), Sinks(scan, s.iter, t), entry,
                 LoopEntry(scan, s.targets, s.iter, s.line, t));
  }

  lemma MergeExplained(a: Trails, b: Trails, v: TaintMap, w: TaintMap)
    requires ExplainsMap(a, v) && ExplainsMap(b, w)
    ensures ExplainsMap(a + b, v + w)
  {
  }

  lemma MergedOver(t: TaintMap, v: TaintMap, w: TaintMap)
    requires t + v == v
    ensures t + (v + w) == v + w
  {
    assert t + (v + w) == (t + v) + w;
  }

  lemma {:induction false} BranchesTold(scan: Scan, s: Stmt, reports: seq<Report>, head: seq<Finding>,
      names: Trails, t: TaintMap)
    requires (s.If? || s.While? || s.For?) && ExplainsMap(names, t) && TellAll(scan, reports, head)
    ensures Agrees(scan, Branches(reports, BlockCourse(scan, s.body, names), BlockCourse(scan, s.orelse, names)),
                   MergeBranches(head, t, Block(scan, s.body, t), Block(scan, s.orelse, t)))
    decreases s, 0, 0
  {
    var a, b := BlockCourse(scan, s.body, names), BlockCourse(scan, s.orelse, names);
    var v, w := Block(scan, s.body, t), Block(scan, s.orelse, t);
    BlockTold(scan, s.body, names, t);
    BlockTold(scan, s.orelse, names, t);
    BlockKeeps(scan, s.body, t);
    MergedOver(t, v.tainted, w.tainted);
    MergeExplained(a.names, b.names, v.tainted, w.tainted);
    TellAppend(scan, reports, a.reports, head, v.findings);
    TellAppend(scan, reports + a.reports, b.reports, head + v.findings, w.findings);
  }

  lemma {:induction false} TryTold(scan: Scan, s: Stmt, names: Trails, t: TaintMap)
    requires s.Try? && ExplainsMap(names, t)
    ensures Agrees(scan, StatementCourse(scan, s, names), Statement(scan, s, t))
    decreases s, 0
  {
    var b := BlockCourse(scan, s.body, names);
    var b' := Accumulate(scan, s.body, t);
    BlockTold(scan, s.body, names, t);
    BlockKeeps(scan, s.body, t);
    var o := BlockCourse(scan, s.orelse, b.names);
    var o' := Accumulate(scan, s.orelse, b'.tainted);
    BlockTold(scan, s.orelse, b.names, b'.tainted);
    BlockKeeps(scan, s.orelse, b'.tainted);
    var f := BlockCourse(scan, s.finalbody, o.names);
    var f' := Accumulate(scan, s.finalbody, o'.tainted);
    BlockTold(scan, s.finalbody, o.names, o'.tainted);
    BlockKeeps(scan, s.finalbody, o'.tainted);
    HandlersTold(scan, s.handlers, f.names, f'.tainted);
    TellAppend(scan, b.reports, o.reports, b'.findings, o'.findings);
    TellAppend(scan, b.reports + o.reports, f.reports, b'.findings + o'.findings, f'.findings);
    TellAppend(scan, b.reports + o.reports + f.reports, HandlersCourse(scan, s.handlers, f.names).reports,
               b'.findings + o'.findings + f'.findings, Handlers(scan, s.handlers, f'.tainted).findings);
  }

  lemma {:induction false} HandlersTold(scan: Scan, handlers: seq<Handler>, names: Trails, t: TaintMap)
    requires ExplainsMap(names, t)
    ensures Agrees(scan, HandlersCourse(scan, handlers, names), Handlers(scan, handlers, t))
    decreases handlers, 0
  {
    if handlers != [] {
      var body, rest := handlers[0].body, handlers[1..];
      var h, h' := BlockCourse(scan, body, names), Accumulate(scan, body, t);
      BlockTold(scan, body, names, t);
      BlockKeeps(scan, body, t);
      HandlersTold(scan, rest, h.names, h'.tainted);
      TellAppend(scan, h.reports, HandlersCourse(scan, rest, h.names).reports,
                 h'.findings, Handlers(scan, rest, h'.tainted).findings);
    }
  }

  lemma {:induction false} BlockTold(scan: Scan, stmts: seq<Stmt>, names: Trails, t: TaintMap)
    requires ExplainsMap(names, t)
    ensures Agrees(scan, BlockCourse(scan, stmts, names), Block(scan, stmts, t))
    decreases stmts, 0
  {
    if stmts != [] {
      var first, first' := StatementCourse(scan, stmts[0], names), Statement(scan, stmts[0], t);
      StatementTold(scan, stmts[0], names, t);
      BlockTold(scan, stmts[1..], first.names, first'.tainted);
      TellAppend(scan, first.reports, BlockCourse(scan, stmts[1..], first.names).reports,
                 first'.findings, Block(scan, stmts[1..], first'.tainted).findings);
    }
  }

  lemma LeadsMeans(kind: string, sources: seq<Origin>)
    requires Leads(kind, sources)
    ensures "request" <= kind <==> FromRequestSource(sources)
    ensures forall k :: 0 <= k < |sources| && Request(sources[k]) && NoneBefore(sources, k) ==> kind == sources[k].kind
    ensures !FromRequestSource(sources) ==> kind == sources[0].kind
  {
  }

  predicate FromRequestSource(sources: seq<Origin>)
  {
    exists k :: 0 <= k < |sources| && Request(sources[k])
  }

  predicate NoneBefore(sources: seq<Origin>, k: nat)
    requires k <= |sources|
  {
    forall j :: 0 <= j < k ==> !Request(sources[j])
  }

  // What a report says of its finding: of a kind from a request exactly if one of the sources that reach the sink
  // is from a request, and then of the first such; otherwise of the kind of the source the path starts with.
  ghost predicate Origins(r: Report, f: Finding)
  {
    var sources := r.trail.sources;
    && f.sink == r.sink && sources != [] && |f.path| >= 2
    && f.path[0] == sources[0].step && f.sourceLine == sources[0].step.line
    && StepsIn(f.path[..|f.path| - 1]) == r.trail.steps
    && ("request" <= f.kind <==> FromRequestSource(sources))
    && (forall k :: 0 <= k < |sources| && Request(sources[k]) && NoneBefore(sources, k) ==> f.kind == sources[k].kind)
    && (!FromRequestSource(sources) ==> f.kind == sources[0].kind)
  }

  lemma ToldMeans(scan: Scan, r: Report, f: Finding)
    requires Tells(scan, r, f)
    ensures Origins(r, f)
  {
    assert f.path[..|f.path| - 1][0] == f.path[0];
    LeadsMeans(f.kind, r.trail.sources);
  }

  // A file's findings are its reports, one by one.
  lemma FindingsTold(scan: Scan, stmts: seq<Stmt>)
    ensures |Block(scan, stmts, map[]).findings| == |BlockCourse(scan, stmts, map[]).reports|
    ensures forall i :: 0 <= i < |BlockCourse(scan, stmts, map[]).reports| ==>
              Origins(BlockCourse(scan, stmts, map[]).reports[i], Block(scan, stmts, map[]).findings[i])
  {
    var findings, reports := Block(scan, stmts, map[]).findings, BlockCourse(scan, stmts, map[]).reports;
    BlockTold(scan, stmts, map[], map[]);
    forall i | 0 <= i < |reports| ensures Origins(reports[i], findings[i]) {
      ToldMeans(scan, reports[i], findings[i]);
    }
  }
}
