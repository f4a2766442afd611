/**
 The Python fragment the taint engine reads, and the parts of a scan rule it consults.
 Trees carry line numbers only where the engine looks at them.
 */
module TaintSyntax {
  import opened Wrappers

  datatype Operator = Add | Mod | OtherOperator

  datatype Expr =
    | Constant
    | Name(id: string)
    | Call(func: Expr, args: seq<Expr>, keywords: seq<Expr>, line: int)
    | Attribute(value: Expr, attr: string, line: int)
    | Subscript(value: Expr, index: Expr, line: int)
    | JoinedStr(values: seq<Expr>, line: int)
    | FormattedValue(value: Expr, spec: seq<Expr>)
    | BinOp(left: Expr, op: Operator, right: Expr, line: int)
      // A list, tuple or set display, or a dict display as its keys followed by its values.
    | Collection(items: seq<Expr>, line: int)
    | IfExp(test: Expr, body: Expr, orelse: Expr, line: int)
    | Lambda(body: Expr)
      // Any other expression, such as a comparison or a boolean operator.
    | Other(children: seq<Expr>)

  // Only plain names are tracked as targets.
  datatype Target = NameTarget(id: string) | OtherTarget

  datatype Handler = Handler(body: seq<Stmt>)

  datatype Stmt =
    | Assign(targets: seq<Target>, value: Expr, line: int)
    | AnnAssign(target: Target, annotated: Option<Expr>, line: int)
    | AugAssign(target: Target, value: Expr, line: int)
    | ExprStmt(value: Expr)
    | Return(returned: Option<Expr>)
    | If(test: Expr, body: seq<Stmt>, orelse: seq<Stmt>)
    | While(test: Expr, body: seq<Stmt>, orelse: seq<Stmt>)
    | For(targets: seq<Target>, iter: Expr, body: seq<Stmt>, orelse: seq<Stmt>, line: int)
    | Try(body: seq<Stmt>, handlers: seq<Handler>, orelse: seq<Stmt>, finalbody: seq<Stmt>)
    | With(body: seq<Stmt>)
    | FunctionDef(name: string, params: seq<string>, body: seq<Stmt>, line: int)
    | ClassDef(name: string, body: seq<Stmt>)
    | Break
    | Continue
    | Pass

  datatype StepType = SourceStep | AssignmentStep | PropagationStep | StringConstruction | SinkStep

  datatype TaintStep = TaintStep(stepType: StepType, file: string, line: int, snippet: string)

  datatype SourceRef = SourceRef(snippet: string, kind: string)

  datatype SinkRef = SinkRef(line: int, snippet: string, kind: string)

  // A scan rule together with the file it is applied to: its predicates are arbitrary.
  datatype Scan = Scan(
    file: string,
    lineText: int -> string,
    isSource: Expr -> Option<SourceRef>,
    matchSink: Expr -> Option<SinkRef>,
    isSanitized: (Expr, SinkRef) -> bool,
    sinkExpression: Expr -> Option<Expr>,
    poisonParams: bool)

  // The names among a list of targets.
  function TargetNames(targets: seq<Target>): (names: set<string>)
  {
    set i | 0 <= i < |targets| && targets[i].NameTarget? :: targets[i].id
  }

  // Every call in source order; bodies of nested lambdas are skipped, a lambda at the root is not.
  function CollectCalls(e: Expr): (calls: seq<Expr>)
    decreases e, 1
  {
    (if e.Call? then [e] else []) +
    match e
    case Constant => []
    case Name(_) => []
    case Call(func, args, keywords, _) => ChildCalls(func) + AllCalls(args) + AllCalls(keywords)
    case Attribute(value, _, _) => ChildCalls(value)
    case Subscript(value, index, _) => ChildCalls(value) + ChildCalls(index)
    case JoinedStr(values, _) => AllCalls(values)
    case FormattedValue(value, spec) => ChildCalls(value) + AllCalls(spec)
    case BinOp(left, _, right, _) => ChildCalls(left) + ChildCalls(right)
    case Collection(items, _) => AllCalls(items)
    case IfExp(test, body, orelse, _) => ChildCalls(test) + ChildCalls(body) + ChildCalls(orelse)
    case Lambda(body) => ChildCalls(body)
    case Other(children) => AllCalls(children)
  }

  function ChildCalls(e: Expr): (calls: seq<Expr>)
    decreases e, 2
  {
    if e.Lambda? then [] else CollectCalls(e)
  }

  function AllCalls(es: seq<Expr>): (calls: seq<Expr>)
    decreases es, 0
  {
    if es == [] then [] else ChildCalls(es[0]) + AllCalls(es[1..])
  }
}
