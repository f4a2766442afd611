/** Which calls the engine looks at for an expression: those met on the way down, except inside nested lambdas. */
module TaintCalls {
  import opened TaintSyntax

  // The expressions right below one, in source order.
  function Children(e: Expr): (r: seq<Expr>)
    ensures forall i :: 0 <= i < |r| ==> r[i] < e
  {
    match e
    case Constant => []
    case Name(_) => []
    case Call(func, args, keywords, _) => [func] + args + keywords
    case Attribute(value, _, _) => [value]
    case Subscript(value, index, _) => [value, index]
    case JoinedStr(values, _) => values
    case FormattedValue(value, spec) => [value] + spec
    case BinOp(left, _, right, _) => [left, right]
    case Collection(items, _) => items
    case IfExp(test, body, orelse, _) => [test, body, orelse]
    case Lambda(body) => [body]
    case Other(children) => children
  }

  // The expression and all below it, from above and from left to right, without the lambdas below.
  function Preorder(e: Expr): (r: seq<Expr>)
    decreases e, |Children(e)| + 1
  {
    [e] + Below(e, 0)
  }

  function Below(e: Expr, i: nat): (r: seq<Expr>)
    requires i <= |Children(e)|
    decreases e, |Children(e)| - i
  {
    if i == |Children(e)| then []
    else (if Children(e)[i].Lambda? then [] else Preorder(Children(e)[i])) + Below(e, i + 1)
  }

  function Calls(es: seq<Expr>): (r: seq<Expr>)
  {
    if es == [] then [] else (if es[0].Call? then [es[0]] else []) + Calls(es[1..])
  }

  lemma {:induction false} CallsAppend(a: seq<Expr>, b: seq<Expr>)
    ensures Calls(a + b) == Calls(a) + Calls(b)
    decreases |a|
  {
    if a == [] {
      assert a + b == b;
    } else {
      assert (a + b)[1..] == a[1..] + b;
      CallsAppend(a[1..], b);
    }
  }

  lemma {:induction false} AllCallsAppend(a: seq<Expr>, b: seq<Expr>)
    ensures AllCalls(a + b) == AllCalls(a) + AllCalls(b)
    decreases |a|
  {
    if a == [] {
      assert a + b == b;
    } else {
      assert (a + b)[1..] == a[1..] + b;
      AllCallsAppend(a[1..], b);
    }
  }

  lemma AllCallsOne(e: Expr)
    ensures AllCalls([e]) == ChildCalls(e)
  {
    assert [e][1..] == [];
  }

  lemma CollectedOfChildren(e: Expr)
    ensures CollectCalls(e) == (if e.Call? then [e] else []) + AllCalls(Children(e))
  {
    match e
    case Call(func, args, keywords, _) =>
      AllCallsOne(func);
      AllCallsAppend([func], args);
      AllCallsAppend([func] + args, keywords);
    case Attribute(value, _, _) => AllCallsOne(value);
    case Subscript(value, index, _) =>
      AllCallsOne(value);
      AllCallsOne(index);
      AllCallsAppend([value], [index]);
    case FormattedValue(value, spec) =>
      AllCallsOne(value);
      AllCallsAppend([value], spec);
    case BinOp(left, _, right, _) =>
      AllCallsOne(left);
      AllCallsOne(right);
      AllCallsAppend([left], [right]);
    case IfExp(test, body, orelse, _) =>
      AllCallsOne(test);
      AllCallsOne(body);
      AllCallsOne(orelse);
      AllCallsAppend([test], [body]);
      AllCallsAppend([test, body], [orelse]);
    case Lambda(body) => AllCallsOne(body);
    case _ =>
  }

  // The calls are exactly those met, in the order they are met.
  lemma {:induction false} CollectedIsMet(e: Expr)
    ensures CollectCalls(e) == Calls(Preorder(e))
    decreases e, |Children(e)| + 1
  {
    CollectedOfChildren(e);
    CollectedBelow(e, 0);
    assert Children(e)[0..] == Children(e);
    CallsAppend([e], Below(e, 0));
    assert [e][1..] == [];
  }

  lemma {:induction false} CollectedBelow(e: Expr, i: nat)
    requires i <= |Children(e)|
    ensures AllCalls(Children(e)[i..]) == Calls(Below(e, i))
    decreases e, |Children(e)| - i
  {
    var rest := Children(e)[i..];
    if i < |Children(e)| {
      var child := Children(e)[i];
      assert rest[0] == child && rest[1..] == Children(e)[i + 1..];
      CollectedBelow(e, i + 1);
      if child.Lambda? {
        CallsAppend([], Below(e, i + 1));
      } else {
        CollectedIsMet(child);
        CallsAppend(Preorder(child), Below(e, i + 1));
      }
    }
  }
}
