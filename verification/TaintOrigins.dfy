/**
 Which sources reach a value, and by which steps, told without merging taints: every tainted name carries the
 list of its sources in the order they are met, and the set of steps taken. The walk's taints and findings
 are exactly these: the kind reported is that of the first source from a request, or of the first source if
 none is, the path starts at the first source, and it holds the sources and the steps of all parts.
 */
module TaintOrigins {
  import opened Wrappers
  import opened TaintSyntax
  import opened TaintEngine
  import opened TaintProvenance

  datatype Origin = Origin(step: TaintStep, kind: string)

  // Without sources there is no taint.
  datatype Trail = Trail(sources: seq<Origin>, steps: set<TaintStep>)

  type Trails = map<string, Trail>

  const CLEAN := Trail([], {})

  predicate Request(o: Origin)
  {
    "request" <= o.kind
  }

  // The first source from a request decides, or else the first source.
  predicate Leads(kind: string, sources: seq<Origin>)
  {
    exists i :: 0 <= i < |sources| && sources[i].kind == kind
                && (forall j :: 0 <= j < i ==> !Request(sources[j]))
                && (Request(sources[i]) || (i == 0 && forall j :: 0 <= j < |sources| ==> !Request(sources[j])))
  }

  // ---------------------------------------------------------------- expressions

  function Via(t: Trail, step: TaintStep): (r: Trail)
  {
    if t.sources == [] then CLEAN else Trail(t.sources, t.steps + {step})
  }

  function Both(a: Trail, b: Trail): (r: Trail)
  {
    Trail(a.sources + b.sources, a.steps + b.steps)
  }

  function At(scan: Scan, stepType: StepType, line: int): (step: TaintStep)
  {
    TaintStep(stepType, scan.file, line, scan.lineText(line))
  }

  function TrailOf(scan: Scan, e: Expr, names: Trails): (r: Trail)
    decreases e, 1
  {
    if SourceShape(e) && scan.isSource(e).Some? then
      var source := scan.isSource(e).value;
      var step := TaintStep(SourceStep, scan.file, e.line, source.snippet);
      Trail([Origin(step, source.kind)], {step})
    else
      match e
      case Name(id) => if id in names then names[id] else CLEAN
      case JoinedStr(values, line) => Via(FieldTrails(scan, values, names), At(scan, StringConstruction, line))
      case BinOp(left, op, right, line) =>
        if op.OtherOperator? then CLEAN
        else Via(Both(TrailOf(scan, left, names), TrailOf(scan, right, names)), At(scan, StringConstruction, line))
      case Call(func, args, _, line) =>
        if func.Name? && func.id in {"str", "repr", "bytes"} && args != [] then
          Via(TrailOf(scan, args[0], names), At(scan, PropagationStep, line))
        else if func.Attribute? && func.attr == "format" then
          Via(Both(TrailOf(scan, func.value, names), ItemTrails(scan, args, names)), At(scan, StringConstruction, line))
        else CLEAN
      case Attribute(value, _, line) => Via(TrailOf(scan, value, names), At(scan, PropagationStep, line))
      case Subscript(value, _, line) => Via(TrailOf(scan, value, names), At(scan, PropagationStep, line))
      case Collection(items, line) => Via(ItemTrails(scan, items, names), At(scan, PropagationStep, line))
      case IfExp(test, body, orelse, line) =>
        Via(Both(Both(TrailOf(scan, test, names), TrailOf(scan, body, names)), TrailOf(scan, orelse, names)),
             At(scan, PropagationStep, line))
      case _ => CLEAN
  }

  function ItemTrails(scan: Scan, es: seq<Expr>, names: Trails): (r: Trail)
    decreases es, 0
  {
    if es == [] then CLEAN else Both(TrailOf(scan, es[0], names), ItemTrails(scan, es[1..], names))
  }

  function FieldTrails(scan: Scan, es: seq<Expr>, names: Trails): (r: Trail)
    decreases es, 0
  {
    if es == [] then CLEAN
    else
      Both(if es[0].FormattedValue? then TrailOf(scan, es[0].value, names) else CLEAN,
           FieldTrails(scan, es[1..], names))
  }

  function StepsIn(steps: seq<TaintStep>): (r: set<TaintStep>)
  {
    set s | s in steps
  }

  // A taint is what the trail says: its kind, where it starts, and all of its sources and steps.
  ghost predicate Explains(r: Trail, t: Taint)
  {
    && r.sources != [] && Leads(t.kind, r.sources)
    && t.steps != [] && t.steps[0] == r.sources[0].step && StepsIn(t.steps) == r.steps
  }

  ghost predicate ExplainsOption(r: Trail, t: Option<Taint>)
  {
    if t.None? then r == CLEAN else Explains(r, t.value)
  }

  // The parts about to be merged, taken together.
  ghost predicate ExplainsAll(r: Trail, parts: seq<Taint>)
  {
    if parts == [] then r == CLEAN else Explains(r, Taint(AllSteps(parts), Kind(parts)))
  }

  lemma LeadsAppend(a: seq<Origin>, b: seq<Origin>, x: string, y: string)
    requires Leads(x, a) && Leads(y, b)
    ensures Leads(if "request" <= x || !("request" <= y) then x else y, a + b)
  {
    var i :| 0 <= i < |a| && a[i].kind == x && (forall j :: 0 <= j < i ==> !Request(a[j]))
             && (Request(a[i]) || (i == 0 && forall j :: 0 <= j < |a| ==> !Request(a[j])));
    var k :| 0 <= k < |b| && b[k].kind == y && (forall j :: 0 <= j < k ==> !Request(b[j]))
             && (Request(b[k]) || (k == 0 && forall j :: 0 <= j < |b| ==> !Request(b[j])));
    var both := a + b;
    assert both[i] == a[i] && both[|a| + k] == b[k];
    assert forall j :: 0 <= j < |both| ==> both[j] == if j < |a| then a[j] else b[j - |a|];
  }

  lemma {:induction false} KindAppend(p: seq<Taint>, q: seq<Taint>)
    requires p != [] && q != []
    ensures Kind(p + q) == if "request" <= Kind(p) || !("request" <= Kind(q)) then Kind(p) else Kind(q)
    decreases |p|
  {
    if |p| == 1 {
      assert (p + q)[1..] == q;
    } else {
      assert (p + q)[1..] == p[1..] + q;
      KindAppend(p[1..], q);
    }
  }

  lemma {:induction false} AllStepsAppend(p: seq<Taint>, q: seq<Taint>)
    ensures AllSteps(p + q) == AllSteps(p) + AllSteps(q)
    decreases |q|
  {
    if q == [] {
      assert p + q == p;
    } else {
      var n := |q| - 1;
      assert (p + q)[..|p| + n] == p + q[..n];
      AllStepsAppend(p, q[..n]);
    }
  }

  lemma BothKinds(a: seq<Origin>, b: seq<Origin>, p: seq<Taint>, q: seq<Taint>)
    requires p != [] && q != [] && Leads(Kind(p), a) && Leads(Kind(q), b)
    ensures Leads(Kind(p + q), a + b)
  {
    KindAppend(p, q);
    LeadsAppend(a, b, Kind(p), Kind(q));
  }

  lemma BothSteps(p: seq<Taint>, q: seq<Taint>)
    ensures StepsIn(AllSteps(p + q)) == StepsIn(AllSteps(p)) + StepsIn(AllSteps(q))
    ensures AllSteps(p) != [] ==> AllSteps(p + q) != [] && AllSteps(p + q)[0] == AllSteps(p)[0]
  {
    AllStepsAppend(p, q);
  }

  lemma BothPresent(a: Trail, b: Trail, p: seq<Taint>, q: seq<Taint>)
    requires p != [] && q != [] && ExplainsAll(a, p) && ExplainsAll(b, q)
    ensures ExplainsAll(Both(a, b), p + q)
  {
    BothKinds(a.sources, b.sources, p, q);
    BothSteps(p, q);
  }

  lemma BothExplain(a: Trail, b: Trail, p: seq<Taint>, q: seq<Taint>)
    requires ExplainsAll(a, p) && ExplainsAll(b, q)
    ensures ExplainsAll(Both(a, b), p + q)
  {
    if p == [] {
      assert p + q == q && Both(a, b) == b;
    } else if q == [] {
      assert p + q == p && Both(a, b) == a;
    } else {
      BothPresent(a, b, p, q);
    }
  }

  lemma OneExplains(r: Trail, t: Option<Taint>)
    requires ExplainsOption(r, t)
    ensures ExplainsAll(r, Present(t))
  {
    if t.Some? {
      assert Present(t)[..0] == [] && AllSteps([]) + t.value.steps == t.value.steps;
    }
  }

  lemma ExtendExplained(r: Trail, t: Option<Taint>, step: TaintStep)
    requires ExplainsOption(r, t) && !step.stepType.SourceStep?
    ensures ExplainsOption(Via(r, step), Extend(t, step))
  {
    if t.Some? {
      assert StepsIn(t.value.steps + [step]) == StepsIn(t.value.steps) + {step};
    }
  }

  lemma JoinExplained(r: Trail, parts: seq<Taint>, step: TaintStep)
    requires ExplainsAll(r, parts) && !step.stepType.SourceStep?
    ensures ExplainsOption(Via(r, step), Join(parts, step))
  {
    if parts != [] {
      DedupeKeepsSteps(AllSteps(parts));
      assert StepsIn(Merge(parts)) == StepsIn(AllSteps(parts));
      assert StepsIn(Merge(parts) + [step]) == StepsIn(Merge(parts)) + {step};
    }
  }

  ghost predicate ExplainsMap(names: Trails, t: TaintMap)
  {
    names.Keys == t.Keys && forall id :: id in t ==> Explains(names[id], t[id])
  }

  lemma {:induction false} TaintExplained(scan: Scan, e: Expr, names: Trails, t: TaintMap)
    requires ExplainsMap(names, t)
    ensures ExplainsOption(TrailOf(scan, e, names), TaintOf(scan, e, t))
    decreases e, 1
  {
    if SourceShape(e) && scan.isSource(e).Some? {
      SourceExplained(scan, e, names, t);
    } else {
      match e
      case JoinedStr(values, line) =>
        ItemsExplained(scan, values, names, t);
        JoinExplained(FieldTrails(scan, values, names), FieldTaints(scan, values, t),
                      At(scan, StringConstruction, line));
      case BinOp(left, op, right, line) => BinOpExplained(scan, left, op, right, line, names, t);
      case Call(_, _, _, _) => CallExplained(scan, e, names, t);
      case Attribute(value, _, line) =>
        TaintExplained(scan, value, names, t);
        ExtendExplained(TrailOf(scan, value, names), TaintOf(scan, value, t), At(scan, PropagationStep, line));
      case Subscript(value, _, line) =>
        TaintExplained(scan, value, names, t);
        ExtendExplained(TrailOf(scan, value, names), TaintOf(scan, value, t), At(scan, PropagationStep, line));
      case Collection(items, line) =>
        ItemsExplained(scan, items, names, t);
        JoinExplained(ItemTrails(scan, items, names), ItemTaints(scan, items, t), At(scan, PropagationStep, line));
      case IfExp(_, _, _, _) => IfExpExplained(scan, e, names, t);
      case _ =>
    }
  }

  lemma SourceExplained(scan: Scan, e: Expr, names: Trails, t: TaintMap)
    requires SourceShape(e) && scan.isSource(e).Some?
    ensures ExplainsOption(TrailOf(scan, e, names), TaintOf(scan, e, t))
  {
    var r, taint := TrailOf(scan, e, names), TaintOf(scan, e, t).value;
    assert StepsIn(taint.steps) == {r.sources[0].step};
    assert r.sources[0].kind == taint.kind;
  }

  lemma TwoExplained(a: Trail, b: Trail, x: Option<Taint>, y: Option<Taint>, step: TaintStep)
    requires ExplainsOption(a, x) && ExplainsOption(b, y) && !step.stepType.SourceStep?
    ensures ExplainsOption(Via(Both(a, b), step), Join(Present(x) + Present(y), step))
  {
    OneExplains(a, x);
    OneExplains(b, y);
    BothExplain(a, b, Present(x), Present(y));
    JoinExplained(Both(a, b), Present(x) + Present(y), step);
  }

  lemma ThreeExplained(a: Trail, b: Trail, c: Trail, x: Option<Taint>, y: Option<Taint>, z: Option<Taint>,
      step: TaintStep)
    requires ExplainsOption(a, x) && ExplainsOption(b, y) && ExplainsOption(c, z) && !step.stepType.SourceStep?
    ensures ExplainsOption(Via(Both(Both(a, b), c), step), Join(Present(x) + Present(y) + Present(z), step))
  {
    OneExplains(a, x);
    OneExplains(b, y);
    OneExplains(c, z);
    BothExplain(a, b, Present(x), Present(y));
    BothExplain(Both(a, b), c, Present(x) + Present(y), Present(z));
    JoinExplained(Both(Both(a, b), c), Present(x) + Present(y) + Present(z), step);
  }

  lemma BinOpParts(scan: Scan, left: Expr, op: Operator, right: Expr, line: int, names: Trails, t: TaintMap)
    requires !op.OtherOperator?
    ensures var e, step := BinOp(left, op, right, line), At(scan, StringConstruction, line);
            && TrailOf(scan, e, names) == Via(Both(TrailOf(scan, left, names), TrailOf(scan, right, names)), step)
            && TaintOf(scan, e, t) == Join(Present(TaintOf(scan, left, t)) + Present(TaintOf(scan, right, t)), step)
  {
  }

  lemma {:induction false} BinOpExplained(scan: Scan, left: Expr, op: Operator, right: Expr, line: int, names: Trails,
      t: TaintMap)
    requires ExplainsMap(names, t)
    ensures ExplainsOption(TrailOf(scan, BinOp(left, op, right, line), names),
                           TaintOf(scan, BinOp(left, op, right, line), t))
    decreases BinOp(left, op, right, line), 0
  {
    if !op.OtherOperator? {
      BinOpParts(scan, left, op, right, line, names, t);
      var a, b := TrailOf(scan, left, names), TrailOf(scan, right, names);
      var x, y := TaintOf(scan, left, t), TaintOf(scan, right, t);
      assert ExplainsOption(a, x) by { TaintExplained(scan, left, names, t); }
      assert ExplainsOption(b, y) by { TaintExplained(scan, right, names, t); }
      TwoExplained(a, b, x, y, At(scan, StringConstruction, line));
    }
  }

  lemma IfExpTrail(scan: Scan, e: Expr, names: Trails, a: Trail, b: Trail, c: Trail)
    requires e.IfExp? && a == TrailOf(scan, e.test, names)
    requires b == TrailOf(scan, e.body, names) && c == TrailOf(scan, e.orelse, names)
    ensures TrailOf(scan, e, names) == Via(Both(Both(a, b), c), At(scan, PropagationStep, e.line))
  {
  }

  lemma IfExpTaint(scan: Scan, e: Expr, t: TaintMap, x: Option<Taint>, y: Option<Taint>, z: Option<Taint>)
    requires e.IfExp? && x == TaintOf(scan, e.test, t)
    requires y == TaintOf(scan, e.body, t) && z == TaintOf(scan, e.orelse, t)
    ensures TaintOf(scan, e, t) == Join(Present(x) + Present(y) + Present(z), Step(scan, PropagationStep, e.line))
  {
  }

  lemma {:induction false} IfExpExplained(scan: Scan, e: Expr, names: Trails, t: TaintMap)
    requires ExplainsMap(names, t) && e.IfExp?
    ensures ExplainsOption(TrailOf(scan, e, names), TaintOf(scan, e, t))
    decreases e, 0
  {
    var a, b, c := TrailOf(scan, e.test, names), TrailOf(scan, e.body, names), TrailOf(scan, e.orelse, names);
    var x, y, z := TaintOf(scan, e.test, t), TaintOf(scan, e.body, t), TaintOf(scan, e.orelse, t);
    IfExpTrail(scan, e, names, a, b, c);
    IfExpTaint(scan, e, t, x, y, z);
    assert ExplainsOption(a, x) by { TaintExplained(scan, e.test, names, t); }
    assert ExplainsOption(b, y) by { TaintExplained(scan, e.body, names, t); }
    assert ExplainsOption(c, z) by { TaintExplained(scan, e.orelse, names, t); }
    ThreeExplained(a, b, c, x, y, z, At(scan, PropagationStep, e.line));
  }

  lemma {:induction false} CallExplained(scan: Scan, e: Expr, names: Trails, t: TaintMap)
    requires ExplainsMap(names, t) && e.Call? && !(SourceShape(e) && scan.isSource(e).Some?)
    ensures ExplainsOption(TrailOf(scan, e, names), TaintOf(scan, e, t))
    decreases e, 0
  {
    if e.func.Name? && e.func.id in {"str", "repr", "bytes"} && e.args != [] {
      TaintExplained(scan, e.args[0], names, t);
      ExtendExplained(TrailOf(scan, e.args[0], names), TaintOf(scan, e.args[0], t), At(scan, PropagationStep, e.line));
    } else if e.func.Attribute? && e.func.attr == "format" {
      var a, x := TrailOf(scan, e.func.value, names), TaintOf(scan, e.func.value, t);
      TaintExplained(scan, e.func.value, names, t);
      ItemsExplained(scan, e.args, names, t);
      OneExplains(a, x);
      BothExplain(a, ItemTrails(scan, e.args, names), Present(x), ItemTaints(scan, e.args, t));
      JoinExplained(Both(a, ItemTrails(scan, e.args, names)), Present(x) + ItemTaints(scan, e.args, t),
                    At(scan, StringConstruction, e.line));
    }
  }

  lemma {:induction false} ItemsExplained(scan: Scan, es: seq<Expr>, names: Trails, t: TaintMap)
    requires ExplainsMap(names, t)
    ensures ExplainsAll(ItemTrails(scan, es, names), ItemTaints(scan, es, t))
    ensures ExplainsAll(FieldTrails(scan, es, names), FieldTaints(scan, es, t))
    decreases es, 0
  {
    if es != [] {
      var rest := es[1..];
      ItemsExplained(scan, rest, names, t);
      TaintExplained(scan, es[0], names, t);
      OneExplains(TrailOf(scan, es[0], names), TaintOf(scan, es[0], t));
      BothExplain(TrailOf(scan, es[0], names), ItemTrails(scan, rest, names),
                  Present(TaintOf(scan, es[0], t)), ItemTaints(scan, rest, t));
      if es[0].FormattedValue? {
        var value := es[0].value;
        TaintExplained(scan, value, names, t);
        OneExplains(TrailOf(scan, value, names), TaintOf(scan, value, t));
        BothExplain(TrailOf(scan, value, names), FieldTrails(scan, rest, names),
                    Present(TaintOf(scan, value, t)), FieldTaints(scan, rest, t));
      } else {
        BothExplain(CLEAN, FieldTrails(scan, rest, names), [], FieldTaints(scan, rest, t));
      }
    }
  }
}
