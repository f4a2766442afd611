/**
 What a run of the analysed program can do, as far as taint is concerned. A run is driven by a list
 of choices: which calls an expression got to evaluate, which conditional arms it took, whether it
 raised, which way control went. Rebinding a name to an untainted value clears it. When the choices
 run out the run stops where it is, so every intermediate point of a run is the end of a shorter one.
 */
module TaintRun {
  import opened Wrappers
  import opened TaintSyntax
  import opened TaintEngine

  datatype Choice = Choice(
    ran: set<Expr>,         // the calls that were evaluated
    taken: set<Expr>,       // the conditional expressions that took their first arm
    elements: set<string>,  // the loop targets bound to a tainted element
    raises: bool,
    pick: nat)

  datatype Outcome = Normal | Raised | Returned | Broke | Continued | Cut

  datatype Run = Run(env: set<string>, hits: set<SinkRef>, outcome: Outcome, rest: seq<Choice>)

  function After(hits: set<SinkRef>, r: Run): (result: Run)
  {
    r.(hits := hits + r.hits)
  }

  // ---------------------------------------------------------------- expressions

  // Whether the value of an expression is derived from a source; a conditional yields one arm only.
  predicate Tainted(scan: Scan, e: Expr, env: set<string>, taken: set<Expr>)
    decreases e, 1
  {
    (SourceShape(e) && scan.isSource(e).Some?) ||
    match e
    case Name(id) => id in env
    case JoinedStr(values, _) => FieldTainted(scan, values, env, taken)
    case BinOp(left, op, right, _) =>
      !op.OtherOperator? && (Tainted(scan, left, env, taken) || Tainted(scan, right, env, taken))
    case Call(func, args, _, _) =>
      if func.Name? && func.id in WRAPPERS && args != [] then Tainted(scan, args[0], env, taken)
      else func.Attribute? && func.attr == "format" &&
           (Tainted(scan, func.value, env, taken) || ItemTainted(scan, args, env, taken))
    case Attribute(value, _, _) => Tainted(scan, value, env, taken)
    case Subscript(value, _, _) => Tainted(scan, value, env, taken)
    case Collection(items, _) => ItemTainted(scan, items, env, taken)
    case IfExp(_, body, orelse, _) =>
      if e in taken then Tainted(scan, body, env, taken) else Tainted(scan, orelse, env, taken)
    case _ => false
  }

  predicate ItemTainted(scan: Scan, es: seq<Expr>, env: set<string>, taken: set<Expr>)
    decreases es, 0
  {
    es != [] && (Tainted(scan, es[0], env, taken) || ItemTainted(scan, es[1..], env, taken))
  }

  predicate FieldTainted(scan: Scan, es: seq<Expr>, env: set<string>, taken: set<Expr>)
    decreases es, 0
  {
    es != [] &&
    ((es[0].FormattedValue? && Tainted(scan, es[0].value, env, taken)) || FieldTainted(scan, es[1..], env, taken))
  }

  // A sink call executed with tainted input and no sanitizer.
  predicate Fires(scan: Scan, call: Expr, env: set<string>, taken: set<Expr>)
  {
    var sink := scan.matchSink(call);
    sink.Some? && !scan.isSanitized(call, sink.value) &&
    scan.sinkExpression(call).Some? && Tainted(scan, scan.sinkExpression(call).value, env, taken)
  }

  function Hits(scan: Scan, e: Expr, env: set<string>, c: Choice): (r: set<SinkRef>)
  {
    set call | call in ChildCalls(e) && call in c.ran && Fires(scan, call, env, c.taken) ::
      scan.matchSink(call).value
  }

  // ---------------------------------------------------------------- statements

  // A strong update: the targets carry taint exactly when the value does.
  function Bind(targets: seq<Target>, tainted: bool, env: set<string>): (r: set<string>)
  {
    if tainted then env + TargetNames(targets) else env - TargetNames(targets)
  }

  function Evaluate(scan: Scan, e: Expr, env: set<string>, ch: seq<Choice>, next: set<string>, done: Outcome): (r: Run)
    requires ch != []
  {
    var hits := Hits(scan, e, env, ch[0]);
    if ch[0].raises then Run(env, hits, Raised, ch[1..]) else Run(next, hits, done, ch[1..])
  }

  function RunStmt(scan: Scan, s: Stmt, env: set<string>, ch: seq<Choice>): (r: Run)
    ensures |r.rest| <= |ch| && (ch != [] ==> |r.rest| < |ch|)
    decreases |ch|, 1
  {
    if ch == [] then Run(env, {}, Cut, [])
    else
      var c := ch[0];
      match s
      case Assign(targets, value, _) =>
        Evaluate(scan, value, env, ch, Bind(targets, Tainted(scan, value, env, c.taken), env), Normal)
      case AnnAssign(target, annotated, _) =>
        if annotated.None? then Run(env, {}, Normal, ch[1..])
        else
          Evaluate(scan, annotated.value, env, ch,
                   Bind([target], Tainted(scan, annotated.value, env, c.taken), env), Normal)
      case AugAssign(target, value, _) =>
        var tainted := (target.NameTarget? && target.id in env) || Tainted(scan, value, env, c.taken);
        Evaluate(scan, value, env, ch, Bind([target], tainted, env), Normal)
      case ExprStmt(value) => Evaluate(scan, value, env, ch, env, Normal)
      case Return(returned) =>
        if returned.None? then Run(env, {}, Returned, ch[1..])
        else Evaluate(scan, returned.value, env, ch, env, Returned)
      case If(test, body, orelse) =>
        var hits := Hits(scan, test, env, c);
        if c.raises then Run(env, hits, Raised, ch[1..])
        else After(hits, RunBlock(scan, if c.pick == 0 then body else orelse, env, ch[1..]))
      case While(_, _, _) => RunLoop(scan, s, false, env, ch)
      case For(_, iter, _, _, _) =>
        var hits := Hits(scan, iter, env, c);
        if c.raises then Run(env, hits, Raised, ch[1..])
        else After(hits, RunLoop(scan, s, Tainted(scan, iter, env, c.taken), env, ch[1..]))
      case Try(_, _, _, _) => RunFinally(scan, s, RunHandled(scan, s, env, ch[1..]))
      case With(body) =>
        // Entering may raise; leaving may swallow an exception of the body.
        if c.raises then Run(env, {}, Raised, ch[1..])
        else
          var r := RunBlock(scan, body, env, ch[1..]);
          if r.outcome.Raised? && c.pick == 0 then r.(outcome := Normal) else r
      case FunctionDef(name, _, _, _) => Run(env - {name}, {}, Normal, ch[1..])
      case ClassDef(name, _) => Run(env - {name}, {}, Normal, ch[1..])
      case Break => Run(env, {}, Broke, ch[1..])
      case Continue => Run(env, {}, Continued, ch[1..])
      case Pass => Run(env, {}, Normal, ch[1..])
  }

  // One round per choice: leave the loop through its else block, or run the body once more.
  function RunLoop(scan: Scan, s: Stmt, items: bool, env: set<string>, ch: seq<Choice>): (r: Run)
    requires s.While? || s.For?
    ensures |r.rest| <= |ch| && (ch != [] ==> |r.rest| < |ch|)
    decreases |ch|, 0
  {
    if ch == [] then Run(env, {}, Cut, [])
    else
      var c := ch[0];
      var hits := if s.While? then Hits(scan, s.test, env, c) else {};
      if c.raises then Run(env, hits, Raised, ch[1..])
      else if c.pick != 0 then After(hits, RunBlock(scan, s.orelse, env, ch[1..]))
      else
        var start := if s.While? then env else BindElements(s.targets, items, c, env);
        var r := RunBlock(scan, s.body, start, ch[1..]);
        match r.outcome
        case Normal => After(hits + r.hits, RunLoop(scan, s, items, r.env, r.rest))
        case Continued => After(hits + r.hits, RunLoop(scan, s, items, r.env, r.rest))
        case Broke => After(hits, r.(outcome := Normal))
        case _ => After(hits, r)
  }

  // The elements of a tainted iterable may or may not be tainted themselves.
  function BindElements(targets: seq<Target>, items: bool, c: Choice, env: set<string>): (r: set<string>)
  {
    env - TargetNames(targets) + if items then TargetNames(targets) * c.elements else {}
  }

  // A try statement up to its finally block.
  function RunHandled(scan: Scan, s: Stmt, env: set<string>, ch: seq<Choice>): (r: Run)
    requires s.Try?
    ensures |r.rest| <= |ch|
    decreases |ch|, 3
  {
    var b := RunBlock(scan, s.body, env, ch);
    if b.outcome.Normal? then After(b.hits, RunBlock(scan, s.orelse, b.env, b.rest))
    else if b.outcome.Raised? then
      if b.rest == [] then b.(outcome := Cut)
      else if b.rest[0].pick < |s.handlers| then
        After(b.hits, RunBlock(scan, s.handlers[b.rest[0].pick].body, b.env, b.rest[1..]))
      else b.(rest := b.rest[1..])
    else b
  }

  // The finally block runs however the rest ended, and its own ending prevails when it is not normal.
  function RunFinally(scan: Scan, s: Stmt, h: Run): (r: Run)
    requires s.Try?
    ensures |r.rest| <= |h.rest|
    decreases |h.rest|, 3
  {
    if h.outcome.Cut? then h
    else
      var f := RunBlock(scan, s.finalbody, h.env, h.rest);
      After(h.hits, if f.outcome.Normal? then f.(outcome := h.outcome) else f)
  }

  function RunBlock(scan: Scan, stmts: seq<Stmt>, env: set<string>, ch: seq<Choice>): (r: Run)
    ensures |r.rest| <= |ch|
    decreases |ch|, 2, |stmts|
  {
    if stmts == [] then Run(env, {}, Normal, ch)
    else
      var first := RunStmt(scan, stmts[0], env, ch);
      if first.outcome.Normal? && ch != [] then After(first.hits, RunBlock(scan, stmts[1..], first.env, first.rest))
      else first
  }
}
