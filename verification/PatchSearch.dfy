/**
 How the patch finds what a query variable holds: an f-string assigned to it anywhere in the module, if there
 is just one, or else all values assigned and added to it. Neither search looks at what runs, or when. The
 main theorem compares the template found with the statements run before the query.
 */
module PatchSearch {
  import opened Wrappers
  import opened PatchQuery
  import opened PatchConcatenation

  // A statement as the searches see it; a named one has the query variable for a target.
  datatype Tree =
    | Assign(named: bool, value: Node)
    | AddAssign(named: bool, value: Node)
      // An augmented assignment with another operator.
    | OtherAssign(named: bool)
      // A statement that binds names in another way: an annotated assignment, a tuple of targets.
    | OtherBind(named: bool, value: Node)
      // A function or class definition.
    | Scope(children: seq<Tree>)
      // Any other statement, with the statements nested in it.
    | Compound(children: seq<Tree>)

  // ---------------------------------------------------------------- the assigned f-string

  // Every f-string assigned to the variable, in any scope.
  function FStrings(children: seq<Tree>): (found: seq<seq<Piece>>)
  {
    if children == [] then []
    else
      (match children[0]
       case Assign(named, value) => if named && value.Formatted? then [value.pieces] else []
       case Scope(inner) => FStrings(inner)
       case Compound(inner) => FStrings(inner)
       case _ => [])
      + FStrings(children[1..])
  }

  method FindFStrings(children: seq<Tree>, before: seq<seq<Piece>>) returns (found: seq<seq<Piece>>)
    ensures found == before + FStrings(children)
    decreases children
  {
    found := before;
    assert children[0..] == children;
    for i := 0 to |children|
      invariant found + FStrings(children[i..]) == before + FStrings(children)
    {
      assert children[i..][0] == children[i] && children[i..][1..] == children[i + 1..];
      ghost var rest := FStrings(children[i + 1..]);
      match children[i] {
        case Assign(named, value) =>
          Associate(found, if named && value.Formatted? then [value.pieces] else [], rest);
          if named && value.Formatted? {
            found := found + [value.pieces];
          }
        case Scope(inner) =>
          Associate(found, FStrings(inner), rest);
          found := FindFStrings(inner, found);
        case Compound(inner) =>
          Associate(found, FStrings(inner), rest);
          found := FindFStrings(inner, found);
        case _ =>
          Associate(found, [], rest);
      }
    }
    assert children[|children|..] == [];
    assert found + [] == found;
  }

  method ResolveAssignedFString(tree: seq<Tree>) returns (pieces: Option<seq<Piece>>)
    ensures pieces == if |FStrings(tree)| == 1 then Some(FStrings(tree)[0]) else None
  {
    var found := FindFStrings(tree, []);
    assert [] + FStrings(tree) == FStrings(tree);
    pieces := if |found| == 1 then Some(found[0]) else None;
  }

  // ---------------------------------------------------------------- the values assigned and added

  // Inside a function the search skips nested scopes; another operator on the variable ends the search
  // among the statements beside it.
  function Collected(children: seq<Tree>, scoped: bool): (values: seq<Node>)
  {
    if children == [] then []
    else
      var rest := children[1..];
      match children[0]
      case Assign(named, value) => (if named then [value] else []) + Collected(rest, scoped)
      case AddAssign(named, value) => (if named then [value] else []) + Collected(rest, scoped)
      case OtherAssign(named) => if named then [] else Collected(rest, scoped)
      case OtherBind(_, _) => Collected(rest, scoped)
      case Scope(inner) => (if scoped then [] else Collected(inner, scoped)) + Collected(rest, scoped)
      case Compound(inner) => Collected(inner, scoped) + Collected(rest, scoped)
  }

  method Collect(children: seq<Tree>, scoped: bool, before: seq<Node>) returns (found: seq<Node>)
    ensures found == before + Collected(children, scoped)
    decreases children
  {
    found := before;
    assert children[0..] == children;
    for i := 0 to |children|
      invariant found + Collected(children[i..], scoped) == before + Collected(children, scoped)
    {
      assert children[i..][0] == children[i] && children[i..][1..] == children[i + 1..];
      ghost var rest := Collected(children[i + 1..], scoped);
      match children[i] {
        case Assign(named, value) =>
          Associate(found, if named then [value] else [], rest);
          if named {
            found := found + [value];
          }
        case AddAssign(named, value) =>
          Associate(found, if named then [value] else [], rest);
          if named {
            found := found + [value];
          }
        case OtherAssign(named) =>
          if named {
            assert found + [] == found;
            return;
          }
        case OtherBind(_, _) =>
        case Scope(inner) =>
          Associate(found, if scoped then [] else Collected(inner, scoped), rest);
          if !scoped {
            found := Collect(inner, scoped, found);
          }
        case Compound(inner) =>
          Associate(found, Collected(inner, scoped), rest);
          found := Collect(inner, scoped, found);
      }
    }
    assert children[|children|..] == [];
    assert found + [] == found;
  }

  method ResolveAssigned(body: seq<Tree>, scoped: bool) returns (segments: Option<seq<Segment>>)
    ensures var values := Collected(body, scoped);
            segments == if values == [] then None else SegmentsOf(AllParts(values))
  {
    var values := Collect(body, scoped, []);
    assert [] + Collected(body, scoped) == Collected(body, scoped);
    if values == [] {
      return None;
    }
    segments := ResolveConcatenation(values);
  }

  // ---------------------------------------------------------------- the template for a variable

  predicate HasField(pieces: seq<Piece>)
  {
    exists p :: p in pieces && p.Field?
  }

  // What the template is made of, for a query variable of this module in this function body; none if there is
  // no automatic fix.
  function NameWord(tree: seq<Tree>, body: seq<Tree>, scoped: bool): (w: Option<Word>)
  {
    var found := FStrings(tree);
    if |found| == 1 && HasField(found[0]) then if Odd in found[0] then None else Some(FStringWord(found[0]))
    else
      var values := Collected(body, scoped);
      if values == [] || !AllDecomposable(values) then None else Some(AllTaken(values))
  }

  method NameTemplate(tree: seq<Tree>, body: seq<Tree>, scoped: bool) returns (t: Option<Template>)
    ensures var w := NameWord(tree, body, scoped);
            t == if w.None? then None else Some(TemplateOf(w.value))
  {
    var fstring := ResolveAssignedFString(tree);
    if fstring.Some? && HasField(fstring.value) {
      t := DecomposeFString(fstring.value);
      return;
    }
    var segments := ResolveAssigned(body, scoped);
    ValuesResolve(Collected(body, scoped));
    if segments.None? {
      return None;
    }
    var built := BuildTemplate(segments.value);
    t := Some(built);
  }

  // ---------------------------------------------------------------- what the searches see

  // No other operator on the variable among these statements.
  ghost predicate Uncut(children: seq<Tree>)
  {
    forall k :: 0 <= k < |children| ==> !(children[k].OtherAssign? && children[k].named)
  }

  // What stands beside each other is collected in order, up to another operator on the variable.
  lemma {:induction false} CollectedInOrder(a: seq<Tree>, b: seq<Tree>, scoped: bool)
    requires Uncut(a)
    ensures Collected(a + b, scoped) == Collected(a, scoped) + Collected(b, scoped)
    decreases |a|
  {
    if a == [] {
      assert a + b == b;
    } else {
      assert a[0] == (a + b)[0] && (a + b)[1..] == a[1..] + b;
      CollectedInOrder(a[1..], b, scoped);
    }
  }

  lemma CollectedUpTo(a: seq<Tree>, b: seq<Tree>, scoped: bool)
    requires Uncut(a)
    ensures Collected(a + ([OtherAssign(true)] + b), scoped) == Collected(a, scoped)
  {
    CollectedInOrder(a, [OtherAssign(true)] + b, scoped);
    assert Collected([OtherAssign(true)] + b, scoped) == [];
  }

  // What is nested is collected in its place, except that a function's search leaves out the scopes in it. What
  // ends the search within ends it only there.
  lemma CollectedNested(inner: seq<Tree>, rest: seq<Tree>, scoped: bool)
    ensures Collected([Compound(inner)] + rest, scoped) == Collected(inner, scoped) + Collected(rest, scoped)
    ensures Collected([Scope(inner)] + rest, true) == Collected(rest, true)
    ensures Collected([Scope(inner)] + rest, false) == Collected(inner, false) + Collected(rest, false)
  {
    assert ([Compound(inner)] + rest)[1..] == rest && ([Scope(inner)] + rest)[1..] == rest;
  }

  // The one f-string with a field in it comes first, and is refused only with a piece that is neither text nor field;
  // otherwise it takes values that can all be taken apart.
  lemma NameWordIs(tree: seq<Tree>, body: seq<Tree>, scoped: bool)
    ensures var w, found, values := NameWord(tree, body, scoped), FStrings(tree), Collected(body, scoped);
            var fstring := |found| == 1 && exists i :: 0 <= i < |found[0]| && found[0][i].Field?;
            && (fstring ==> (w.None? <==> exists i :: 0 <= i < |found[0]| && found[0][i] == Odd))
            && (fstring && w.Some? ==> w.value == FStringWord(found[0]))
            && (!fstring ==> (w.Some? <==> values != [] && AllDecomposable(values)))
            && (!fstring && w.Some? ==> w.value == AllTaken(values))
  {
  }

  // ---------------------------------------------------------------- what runs before the query

  // Statements that run one after the other; a definition does nothing when it is run.
  predicate Straight(t: Tree)
  {
    match t
    case OtherAssign(named) => !named
    case Compound(inner) => inner == []
    case _ => true
  }

  function RunsOf(children: seq<Tree>): (run: seq<Build>)
  {
    if children == [] then []
    else
      (match children[0]
       case Assign(named, value) => if named then [Set(value)] else []
       case AddAssign(named, value) => if named then [Append(value)] else []
       case OtherBind(named, value) => if named then [Set(value)] else []
       case _ => [])
      + RunsOf(children[1..])
  }

  ghost predicate AllStraight(children: seq<Tree>)
  {
    forall k :: 0 <= k < |children| ==> Straight(children[k])
  }

  // The query is executed after the first cut statements of straight-line code: its text is kept, for all
  // values and whatever the variable held before, exactly when the variable has been bound by then and a
  // driver reads the template as what has been put into it since.
  lemma NameKeptIff(tree: seq<Tree>, body: seq<Tree>, scoped: bool, cut: nat, lex: Lex)
    requires AllStraight(body) && cut <= |body| && NameWord(tree, body, scoped).Some?
    ensures var w, run := NameWord(tree, body, scoped).value, RunsOf(body[..cut]);
            AlwaysKept(w, run, lex) <==> HasSet(run) && Reading(w, Params(w), lex) == Some(FinalWord(run))
  {
    QueryKeptIff(NameWord(tree, body, scoped).value, RunsOf(body[..cut]), lex);
  }

  // Statements the second search does not miss.
  predicate Plain(t: Tree)
  {
    Straight(t) && (t.OtherBind? ==> !t.named) && !t.Scope?
  }

  ghost predicate AllPlain(children: seq<Tree>)
  {
    forall k :: 0 <= k < |children| ==> Plain(children[k])
  }

  lemma ValuesOfOneMore(b: Build, rest: seq<Build>)
    ensures ValuesOf([b] + rest) == [b.value] + ValuesOf(rest)
  {
  }

  // On such code the search collects exactly the values assigned and added, in order.
  lemma {:induction false} CollectsPlain(children: seq<Tree>, scoped: bool)
    requires AllPlain(children)
    ensures Collected(children, scoped) == ValuesOf(RunsOf(children))
  {
    if children != [] {
      var rest := RunsOf(children[1..]);
      assert Plain(children[0]) && AllPlain(children[1..]);
      CollectsPlain(children[1..], scoped);
      match children[0] {
        case Assign(_, value) => ValuesOfOneMore(Set(value), rest);
        case AddAssign(_, value) => ValuesOfOneMore(Append(value), rest);
        case Compound(_) => assert Collected([], scoped) == [];
        case _ =>
      }
    }
  }

  lemma {:induction false} RunsAppend(a: seq<Tree>, b: seq<Tree>)
    ensures RunsOf(a + b) == RunsOf(a) + RunsOf(b)
  {
    if a == [] {
      assert a + b == b;
    } else {
      assert (a + b)[1..] == a[1..] + b;
      RunsAppend(a[1..], b);
    }
  }

  // Without an assigned f-string: the text is kept exactly when it can be parameterized, the variable has been
  // assigned before the query, and all it was given before its last plain assignment there, and all it is
  // given after the query, is empty.
  lemma CollectedKeptIff(tree: seq<Tree>, body: seq<Tree>, scoped: bool, cut: nat, lex: Lex)
    requires AllPlain(body) && cut <= |body| && NameWord(tree, body, scoped).Some?
    requires |FStrings(tree)| == 1 ==> !HasField(FStrings(tree)[0])
    ensures var w, run := NameWord(tree, body, scoped).value, RunsOf(body[..cut]);
            AlwaysKept(w, run, lex) <==>
            && Parameterizable(RunsOf(body), lex) && HasSet(run)
            && AllEmpty(run[..LastSet(run)]) && AllEmpty(RunsOf(body[cut..]))
  {
    var run, late := RunsOf(body[..cut]), RunsOf(body[cut..]);
    CollectsPlain(body, scoped);
    assert body == body[..cut] + body[cut..];
    RunsAppend(body[..cut], body[cut..]);
    assert RunsOf(body)[..|run|] == run && RunsOf(body)[|run|..] == late;
    ConcatenationParameterizedIff(RunsOf(body), |run|, lex);
  }

  // With the variable's one f-string assigned first and only additions after it: the text is kept exactly when
  // the f-string can be parameterized and all that is added before the query is empty.
  lemma AssignedFStringKeptIff(tree: seq<Tree>, body: seq<Tree>, scoped: bool, run: seq<Build>, lex: Lex)
    requires |FStrings(tree)| == 1 && HasField(FStrings(tree)[0]) && Odd !in FStrings(tree)[0]
    requires run != [] && run[0] == Set(Formatted(FStrings(tree)[0])) && LastSet(run) == 0
    ensures var pieces := FStrings(tree)[0];
            && NameWord(tree, body, scoped) == Some(FStringWord(pieces))
            && (AlwaysKept(FStringWord(pieces), run, lex) <==>
                Unformatted(pieces) && Fits(FStringShown(pieces), lex) && AllEmpty(run[1..]))
  {
    var pieces := FStrings(tree)[0];
    var w, shown := FStringWord(pieces), FStringShown(pieces);
    assert run[0].Set? && run[..0] == [] && run == [run[0]] + run[1..];
    QueryKeptIff(w, run, lex);
    AllWordSplits(run);
    AllWordOne(run[0]);
    AllWordAppend([run[0]], run[1..]);
    assert FinalWord(run) == [] + FinalWord(run) == shown + AllWord(run[1..]);
    EmptyWord(run[1..]);
    SameLength(pieces);
    FStringReads(pieces, lex);
    NothingAround([], shown, AllWord(run[1..]));
    assert [] + shown + AllWord(run[1..]) == shown + AllWord(run[1..]);
  }

  // ---------------------------------------------------------------- inputs that are not kept

  // The patch goes through for this function body, and the query executed after some run of it is not kept.
  ghost predicate Spoiled(body: seq<Tree>, run: seq<Build>, lex: Lex)
  {
    var w := NameWord(body, body, true);
    w.Some? && !AlwaysKept(w.value, run, lex)
  }

  lemma LengthsDiffer(w: Word, run: seq<Build>, lex: Lex)
    requires |w| != |FinalWord(run)|
    ensures !AlwaysKept(w, run, lex)
  {
    QueryKeptIff(w, run, lex);
  }

  // What a single statement of each kind is to the searches and to a run.
  lemma OneTree(t: Tree)
    requires !t.Scope? && !t.Compound?
    ensures RunsOf([t]) == if (t.Assign? || t.OtherBind?) && t.named then [Set(t.value)]
                           else if t.AddAssign? && t.named then [Append(t.value)] else []
    ensures Collected([t], true) == if (t.Assign? || t.AddAssign?) && t.named then [t.value] else []
    ensures FStrings([t]) == if t.Assign? && t.named && t.value.Formatted? then [t.value.pieces] else []
  {
    assert [t][1..] == [];
  }

  lemma TwoTrees(a: Tree, b: Tree)
    requires !a.Scope? && !a.Compound? && !a.OtherAssign?
    ensures RunsOf([a, b]) == RunsOf([a]) + RunsOf([b]) && FStrings([a, b]) == FStrings([a]) + FStrings([b])
    ensures Collected([a, b], true) == Collected([a], true) + Collected([b], true)
  {
    assert [a, b][1..] == [b] && [a][1..] == [];
  }

  // Sums of literals and variables are no f-strings.
  lemma NoFStrings(body: seq<Tree>, nodes: seq<Node>)
    requires FStrings(body) == [] && Collected(body, true) == nodes && nodes != [] && AllDecomposable(nodes)
    ensures NameWord(body, body, true) == Some(AllTaken(nodes))
  {
  }

  // def f(q, uid): q += " AND id=" + uid; the query. The text passed in is dropped.
  lemma ParameterDropped(uid: string, lex: Lex)
    ensures var body := [AddAssign(true, Add(Text(" AND id="), Variable(uid)))]; Spoiled(body, RunsOf(body), lex)
  {
    var value := Add(Text(" AND id="), Variable(uid));
    var body := [AddAssign(true, value)];
    OneTree(body[0]);
    NoFStrings(body, [value]);
    QueryKeptIff(AllTaken([value]), [Append(value)], lex);
  }

  // q: str = "SELECT "; q += uid; the query. The annotated assignment is not found.
  lemma AnnotatedMissed(uid: string, lex: Lex)
    ensures var body := [OtherBind(true, Text("SELECT ")), AddAssign(true, Variable(uid))];
            Spoiled(body, RunsOf(body), lex)
  {
    var one, two := OtherBind(true, Text("SELECT ")), AddAssign(true, Variable(uid));
    OneTree(one);
    OneTree(two);
    TwoTrees(one, two);
    NoFStrings([one, two], [two.value]);
    var run := [Set(one.value), Append(two.value)];
    assert RunsOf([one, two]) == run && AllTaken([two.value]) == [] + [Value(uid)];
    assert run[0].Set?;
    AllWordSplits(run);
    AllWordOne(run[0]);
    AllWordOne(run[1]);
    assert [run[0]] + [run[1]] == run && run[..0] == [];
    AllWordAppend([run[0]], [run[1]]);
    LengthsDiffer(AllTaken([two.value]), run, lex);
  }

  // Two pieces are found, and only the first has run by the time of the query.
  lemma OnlyTheFirst(body: seq<Tree>, one: Node, two: Node, lex: Lex)
    requires FStrings(body) == [] && Collected(body, true) == [one, two]
    requires Decomposable(one) && Decomposable(two) && !AlwaysEmpty(two)
    ensures Spoiled(body, [Set(one)], lex)
  {
    var builds := [Set(one), Append(two)];
    NoFStrings(body, [one, two]);
    assert builds[..1] == [Set(one)] && ValuesOf(builds) == [one, two];
    assert builds[1..][0].value == two;
    ConcatenationParameterizedIff(builds, 1, lex);
  }

  // q = one; the query; q += two.
  lemma LaterFound(one: Node, two: Node, lex: Lex)
    requires Decomposable(one) && Decomposable(two) && !AlwaysEmpty(two)
    ensures var body := [Assign(true, one), AddAssign(true, two)]; Spoiled(body, RunsOf(body[..1]), lex)
  {
    var a, b := Assign(true, one), AddAssign(true, two);
    OneTree(a);
    OneTree(b);
    TwoTrees(a, b);
    assert [a, b][..1] == [a] && [one] + [two] == [one, two];
    OnlyTheFirst([a, b], one, two, lex);
  }

  // q = one; if c: q += two; the query. A run that does not take the branch.
  lemma BranchFound(one: Node, two: Node, lex: Lex)
    requires Decomposable(one) && Decomposable(two) && !AlwaysEmpty(two)
    ensures Spoiled([Assign(true, one), Compound([AddAssign(true, two)])], [Set(one)], lex)
  {
    var a, branch := Assign(true, one), AddAssign(true, two);
    OneTree(a);
    BranchTree(branch);
    OneTree(branch);
    TwoTrees(a, Compound([branch]));
    assert [one] + [two] == [one, two];
    OnlyTheFirst([a, Compound([branch])], one, two, lex);
  }

  lemma BranchTree(t: Tree)
    ensures Collected([Compound([t])], true) == Collected([t], true)
    ensures FStrings([Compound([t])]) == FStrings([t])
  {
    assert [Compound([t])][1..] == [];
    assert Collected([t], true) + [] == Collected([t], true) && FStrings([t]) + [] == FStrings([t]);
  }

  // q = f"{x}"; q += tail; the query. Only the f-string is found.
  lemma TailDropped(x: string, tail: Node, lex: Lex)
    requires !AlwaysEmpty(tail)
    ensures var body := [Assign(true, Formatted([Field(x, "")])), AddAssign(true, tail)];
            Spoiled(body, RunsOf(body), lex)
  {
    var pieces := [Field(x, "")];
    var a, b := Assign(true, Formatted(pieces)), AddAssign(true, tail);
    OneTree(a);
    OneTree(b);
    TwoTrees(a, b);
    var run := [Set(Formatted(pieces)), Append(tail)];
    assert FStrings([a, b]) == [pieces] && RunsOf([a, b]) == run;
    assert pieces[0] in pieces && run[..1] == [run[0]] && run[1..][0].value == tail;
    assert LastSet(run[..1]) == 0 && LastSet(run) == 0;
    AssignedFStringKeptIff([a, b], [a, b], true, run, lex);
  }

  // q = "... '" + x + "'"; the query: a driver that minds quotes sees no placeholder.
  lemma QuotedVariableLost(before: string, x: string, after: string)
    requires Past(Letters(before), Outside).Inside?
    ensures var value := Add(Add(Text(before), Variable(x)), Text(after));
            var body := [Assign(true, value)]; Spoiled(body, RunsOf(body), Outside)
  {
    var inner := Add(Text(before), Variable(x));
    var value := Add(inner, Text(after));
    var body := [Assign(true, value)];
    OneTree(body[0]);
    assert Decomposable(inner.left) && Decomposable(inner.right) && Decomposable(value.right);
    assert Decomposable(inner) && Decomposable(value);
    NoFStrings(body, [value]);
    var builds := [Set(value)];
    assert ValuesOf(builds) == [value] && builds[..1] == builds;
    AllWordOne(builds[0]);
    assert WordOf(inner) == Letters(before) + [Value(x)] && WordOf(value) == WordOf(inner) + Letters(after);
    assert !Fits([Value(x)], Past(Letters(before), Outside));
    FitsAppend(Letters(before), [Value(x)], Outside);
    FitsAppend(WordOf(inner), Letters(after), Outside);
    ConcatenationParameterizedIff(builds, 1, Outside);
  }
}
