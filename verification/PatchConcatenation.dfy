/**
 A query variable built by assignments and augmented assignments: the template the patch makes of the values
 it has found, and when binding it gives the variable's text where the query is executed. A literal that is
 just a question mark is taken for a placeholder.
 */
module PatchConcatenation {
  import opened Wrappers
  import opened PatchQuery

  datatype Node =
    | Text(text: string)
      // A name, an attribute access or a subscript, by its source text.
    | Variable(expr: string)
    | Add(left: Node, right: Node)
    | Formatted(pieces: seq<Piece>)
      // Anything else, such as a call, by its source text.
    | Opaque(source: string)

  // One element of a decomposed concatenation; the text "?" marks a placeholder.
  datatype Segment = Segment(literal: string, expr: string)

  // ---------------------------------------------------------------- what a node evaluates to

  function WordOf(n: Node): (w: Word)
  {
    match n
    case Text(text) => Letters(text)
    case Variable(expr) => [Value(expr)]
    case Add(left, right) => WordOf(left) + WordOf(right)
    case Formatted(pieces) => FStringShown(pieces)
    case Opaque(source) => [Value(source)]
  }

  function Evaluate(n: Node, env: Env): (text: string)
  {
    match n
    case Text(text) => text
    case Variable(expr) => env(expr)
    case Add(left, right) => Evaluate(left, env) + Evaluate(right, env)
    case Formatted(pieces) => Spell(FStringShown(pieces), env)
    case Opaque(source) => env(source)
  }

  lemma {:induction false} EvaluateSpells(n: Node, env: Env)
    ensures Evaluate(n, env) == Spell(WordOf(n), env)
  {
    match n
    case Text(text) => SpellLetters(text, env);
    case Add(left, right) =>
      EvaluateSpells(left, env);
      EvaluateSpells(right, env);
      SpellAppend(WordOf(left), WordOf(right), env);
    case Variable(expr) => assert env(expr) + "" == env(expr);
    case Opaque(source) => assert env(source) + "" == env(source);
    case Formatted(_) =>
  }

  // ---------------------------------------------------------------- flattening, and the segments

  function ConcatParts(n: Node): (parts: seq<Node>)
  {
    if n.Add? then ConcatParts(n.left) + ConcatParts(n.right) else [n]
  }

  function AllParts(nodes: seq<Node>): (parts: seq<Node>)
  {
    if nodes == [] then [] else AllParts(nodes[..|nodes| - 1]) + ConcatParts(nodes[|nodes| - 1])
  }

  function PartsText(parts: seq<Node>, env: Env): (text: string)
  {
    if parts == [] then "" else PartsText(parts[..|parts| - 1], env) + Evaluate(parts[|parts| - 1], env)
  }

  lemma {:induction false} PartsTextAppend(a: seq<Node>, b: seq<Node>, env: Env)
    ensures PartsText(a + b, env) == PartsText(a, env) + PartsText(b, env)
    decreases |b|
  {
    if b == [] {
      assert a + b == a;
      assert PartsText(a, env) + "" == PartsText(a, env);
    } else {
      var n := |b| - 1;
      assert (a + b)[..|a| + n] == a + b[..n];
      PartsTextAppend(a, b[..n], env);
      Associate(PartsText(a, env), PartsText(b[..n], env), Evaluate(b[n], env));
    }
  }

  lemma {:induction false} ConcatPartsText(n: Node, env: Env)
    ensures PartsText(ConcatParts(n), env) == Evaluate(n, env)
  {
    if n.Add? {
      ConcatPartsText(n.left, env);
      ConcatPartsText(n.right, env);
      PartsTextAppend(ConcatParts(n.left), ConcatParts(n.right), env);
    } else {
      assert [n][..0] == [];
      assert "" + Evaluate(n, env) == Evaluate(n, env);
    }
  }

  // The segments of a list of parts, or nothing as soon as one part is not a literal or a variable.
  function SegmentsOf(parts: seq<Node>): (segments: Option<seq<Segment>>)
  {
    if parts == [] then Some([])
    else
      var front := SegmentsOf(parts[..|parts| - 1]);
      if front.None? then None
      else
        match parts[|parts| - 1]
        case Text(text) => Some(front.value + [Segment(text, "")])
        case Variable(expr) => Some(front.value + [Segment("?", expr)])
        case _ => None
  }

  // The parts of one value after those found before.
  method AddParts(n: Node, found: seq<Segment>, ghost before: seq<Node>) returns (more: Option<seq<Segment>>)
    requires SegmentsOf(before) == Some(found)
    ensures more == SegmentsOf(before + ConcatParts(n))
  {
    var parts := ConcatParts(n);
    var segments := found;
    ghost var done := before;
    assert before + parts[..0] == before;
    for k := 0 to |parts|
      invariant done == before + parts[..k] && SegmentsOf(done) == Some(segments)
    {
      SegmentsSnoc(done, parts[k]);
      SplitAt(before, parts, k);
      match parts[k] {
        case Text(text) =>
          segments := segments + [Segment(text, "")];
        case Variable(expr) =>
          segments := segments + [Segment("?", expr)];
        case _ =>
          BadPart(done + [parts[k]], parts[k + 1..]);
          return None;
      }
      done := done + [parts[k]];
    }
    assert parts[..|parts|] == parts;
    more := Some(segments);
  }

  method ResolveConcatenation(nodes: seq<Node>) returns (segments: Option<seq<Segment>>)
    ensures segments == SegmentsOf(AllParts(nodes))
  {
    var found: seq<Segment> := [];
    assert nodes[..0] == [];
    for i := 0 to |nodes|
      invariant SegmentsOf(AllParts(nodes[..i])) == Some(found)
    {
      assert nodes[..i + 1][..i] == nodes[..i];
      var more := AddParts(nodes[i], found, AllParts(nodes[..i]));
      if more.None? {
        ghost var rest := PartsPrefix(nodes, i + 1);
        BadPart(AllParts(nodes[..i + 1]), rest);
        return None;
      }
      found := more.value;
    }
    assert nodes[..|nodes|] == nodes;
    segments := Some(found);
  }

  lemma SegmentsSnoc(parts: seq<Node>, n: Node)
    ensures SegmentsOf(parts + [n]) ==
            if SegmentsOf(parts).None? then None
            else match n
                 case Text(text) => Some(SegmentsOf(parts).value + [Segment(text, "")])
                 case Variable(expr) => Some(SegmentsOf(parts).value + [Segment("?", expr)])
                 case _ => None
  {
    assert (parts + [n])[..|parts|] == parts;
  }

  // One bad part anywhere and nothing is resolved.
  lemma {:induction false} BadPart(parts: seq<Node>, more: seq<Node>)
    requires SegmentsOf(parts).None?
    ensures SegmentsOf(parts + more).None?
    decreases |more|
  {
    if more == [] {
      assert parts + more == parts;
    } else {
      var n := |more| - 1;
      BadPart(parts, more[..n]);
      SegmentsSnoc(parts + more[..n], more[n]);
      assert parts + more[..n] + [more[n]] == parts + more;
    }
  }

  lemma {:induction false} PartsPrefix(nodes: seq<Node>, i: nat) returns (rest: seq<Node>)
    requires i <= |nodes|
    ensures AllParts(nodes) == AllParts(nodes[..i]) + rest
    decreases |nodes|
  {
    if i == |nodes| {
      rest := [];
      assert nodes[..i] == nodes;
    } else {
      var n := |nodes| - 1;
      var front := PartsPrefix(nodes[..n], i);
      assert nodes[..n][..i] == nodes[..i];
      rest := front + ConcatParts(nodes[n]);
    }
  }

  lemma SplitAt(before: seq<Node>, parts: seq<Node>, k: nat)
    requires k < |parts|
    ensures before + parts[..k + 1] == before + parts[..k] + [parts[k]]
    ensures before + parts[..k] + [parts[k]] + parts[k + 1..] == before + parts
  {
    assert parts == parts[..k] + [parts[k]] + parts[k + 1..];
  }

  // What the template builder takes the segments for.
  function SegmentWord(s: Segment): (w: Word)
  {
    if s.literal == "?" then [Value(s.expr)] else Letters(s.literal)
  }

  function SegmentsWord(segments: seq<Segment>): (w: Word)
  {
    if segments == [] then []
    else SegmentsWord(segments[..|segments| - 1]) + SegmentWord(segments[|segments| - 1])
  }

  method BuildTemplate(segments: seq<Segment>) returns (t: Template)
    ensures t == TemplateOf(SegmentsWord(segments))
  {
    var query, params := "", [];
    ghost var done: seq<Segment> := [];
    for i := 0 to |segments|
      invariant done == segments[..i] && Template(query, params) == TemplateOf(SegmentsWord(done))
    {
      SegmentsTemplateSnoc(done, segments[i]);
      assert segments[..i + 1] == done + [segments[i]];
      if segments[i].literal == "?" {
        query := query + "?";
        params := params + [segments[i].expr];
      } else {
        query := query + segments[i].literal;
      }
      done := done + [segments[i]];
    }
    assert done == segments;
    t := Template(query, params);
  }

  lemma SegmentsTemplateSnoc(segments: seq<Segment>, s: Segment)
    ensures var t := TemplateOf(SegmentsWord(segments));
            TemplateOf(SegmentsWord(segments + [s])) ==
            if s.literal == "?" then Template(t.query + "?", t.params + [s.expr])
            else Template(t.query + s.literal, t.params)
  {
    assert (segments + [s])[..|segments|] == segments;
    TemplateAppend(SegmentsWord(segments), SegmentWord(s));
    if s.literal == "?" {
      PieceParts(Field(s.expr, ""));
    } else {
      PieceParts(Literal(s.literal));
    }
  }

  // ---------------------------------------------------------------- the template of the values found

  predicate Decomposable(n: Node)
  {
    match n
    case Text(_) => true
    case Variable(_) => true
    case Add(left, right) => Decomposable(left) && Decomposable(right)
    case _ => false
  }

  // The node as the template builder reads it.
  function Taken(n: Node): (w: Word)
  {
    match n
    case Text(text) => if text == "?" then [Value("")] else Letters(text)
    case Add(left, right) => Taken(left) + Taken(right)
    case _ => WordOf(n)
  }

  function AllTaken(nodes: seq<Node>): (w: Word)
  {
    if nodes == [] then [] else AllTaken(nodes[..|nodes| - 1]) + Taken(nodes[|nodes| - 1])
  }

  lemma {:induction false} AllTakenAppend(a: seq<Node>, b: seq<Node>)
    ensures AllTaken(a + b) == AllTaken(a) + AllTaken(b)
    decreases |b|
  {
    if b == [] {
      assert a + b == a;
    } else {
      var n := |b| - 1;
      assert (a + b)[..|a| + n] == a + b[..n];
      AllTakenAppend(a, b[..n]);
      Associate(AllTaken(a), AllTaken(b[..n]), Taken(b[n]));
    }
  }

  lemma {:induction false} ConcatPartsTaken(n: Node)
    ensures AllTaken(ConcatParts(n)) == Taken(n)
  {
    if n.Add? {
      ConcatPartsTaken(n.left);
      ConcatPartsTaken(n.right);
      AllTakenAppend(ConcatParts(n.left), ConcatParts(n.right));
    } else {
      assert [n][..0] == [];
    }
  }

  lemma {:induction false} AllPartsTaken(nodes: seq<Node>)
    ensures AllTaken(AllParts(nodes)) == AllTaken(nodes)
    decreases |nodes|
  {
    if nodes != [] {
      var n := |nodes| - 1;
      AllPartsTaken(nodes[..n]);
      ConcatPartsTaken(nodes[n]);
      AllTakenAppend(AllParts(nodes[..n]), ConcatParts(nodes[n]));
    }
  }

  predicate Leaves(parts: seq<Node>)
  {
    forall k :: 0 <= k < |parts| ==> parts[k].Text? || parts[k].Variable?
  }

  lemma {:induction false} PartsAreLeaves(n: Node)
    ensures Leaves(ConcatParts(n)) <==> Decomposable(n)
  {
    if n.Add? {
      PartsAreLeaves(n.left);
      PartsAreLeaves(n.right);
      LeavesAppend(ConcatParts(n.left), ConcatParts(n.right));
    } else {
      assert ConcatParts(n) == [n] && [n][0] == n;
    }
  }

  lemma LeavesAppend(a: seq<Node>, b: seq<Node>)
    ensures Leaves(a + b) <==> Leaves(a) && Leaves(b)
  {
    if Leaves(a + b) {
      assert forall k :: 0 <= k < |a| ==> a[k] == (a + b)[k];
      assert forall k :: 0 <= k < |b| ==> b[k] == (a + b)[|a| + k];
    }
  }

  predicate AllDecomposable(nodes: seq<Node>)
  {
    forall k :: 0 <= k < |nodes| ==> Decomposable(nodes[k])
  }

  lemma {:induction false} AllPartsAreLeaves(nodes: seq<Node>)
    ensures Leaves(AllParts(nodes)) <==> AllDecomposable(nodes)
    decreases |nodes|
  {
    if nodes != [] {
      var n := |nodes| - 1;
      AllPartsAreLeaves(nodes[..n]);
      PartsAreLeaves(nodes[n]);
      LeavesAppend(AllParts(nodes[..n]), ConcatParts(nodes[n]));
      assert AllDecomposable(nodes) <==> AllDecomposable(nodes[..n]) && Decomposable(nodes[n]);
    }
  }

  lemma {:induction false} LeavesResolve(parts: seq<Node>)
    ensures SegmentsOf(parts).Some? <==> Leaves(parts)
    ensures SegmentsOf(parts).Some? ==> SegmentsWord(SegmentsOf(parts).value) == AllTaken(parts)
    decreases |parts|
  {
    if parts != [] {
      var n := |parts| - 1;
      LeavesResolve(parts[..n]);
      assert Leaves(parts) <==> Leaves(parts[..n]) && (parts[n].Text? || parts[n].Variable?);
      if SegmentsOf(parts).Some? {
        var before := SegmentsOf(parts[..n]).value;
        var s := if parts[n].Text? then Segment(parts[n].text, "") else Segment("?", parts[n].expr);
        assert (before + [s])[..|before|] == before;
      }
    }
  }

  // The values found resolve exactly if all of them are sums of literals and variables.
  lemma ValuesResolve(nodes: seq<Node>)
    ensures var segments := SegmentsOf(AllParts(nodes));
            && (segments.Some? <==> AllDecomposable(nodes))
            && (segments.Some? ==> SegmentsWord(segments.value) == AllTaken(nodes))
  {
    AllPartsAreLeaves(nodes);
    LeavesResolve(AllParts(nodes));
    AllPartsTaken(nodes);
  }

  // ---------------------------------------------------------------- assignments and what they leave

  // A statement that builds the query variable: a plain assignment or an augmented one.
  datatype Build = Set(value: Node) | Append(value: Node)

  // The variable's text after straight-line statements that find it with some text.
  function FinalFrom(builds: seq<Build>, start: string, env: Env): (text: string)
  {
    if builds == [] then start
    else
      var last := builds[|builds| - 1];
      (if last.Set? then "" else FinalFrom(builds[..|builds| - 1], start, env)) + Evaluate(last.value, env)
  }

  predicate HasSet(builds: seq<Build>)
  {
    exists k :: 0 <= k < |builds| && builds[k].Set?
  }

  // Where the last plain assignment is, or the start.
  function LastSet(builds: seq<Build>): (k: nat)
    ensures k <= |builds|
    ensures HasSet(builds) ==> k < |builds| && builds[k].Set?
  {
    if builds == [] then 0
    else if builds[|builds| - 1].Set? then |builds| - 1
    else LastSet(builds[..|builds| - 1])
  }

  // What has been put into the variable since its last plain assignment.
  function FinalWord(builds: seq<Build>): (w: Word)
  {
    if builds == [] then []
    else
      var last := builds[|builds| - 1];
      (if last.Set? then [] else FinalWord(builds[..|builds| - 1])) + WordOf(last.value)
  }

  lemma {:induction false} FinalSpells(builds: seq<Build>, start: string, env: Env)
    ensures FinalFrom(builds, start, env) == (if HasSet(builds) then "" else start) + Spell(FinalWord(builds), env)
    decreases |builds|
  {
    if builds == [] {
      assert start + "" == start;
    } else {
      var front, last := builds[..|builds| - 1], builds[|builds| - 1];
      EvaluateSpells(last.value, env);
      if last.Set? {
        assert builds[|builds| - 1].Set?;
        assert [] + WordOf(last.value) == WordOf(last.value);
      } else {
        FinalSpells(front, start, env);
        assert HasSet(builds) <==> HasSet(front);
        SpellAppend(FinalWord(front), WordOf(last.value), env);
        Associate(if HasSet(builds) then "" else start, Spell(FinalWord(front), env), Spell(WordOf(last.value), env));
      }
    }
  }

  // Binding the template of a word gives the variable's text, whatever it was before.
  ghost predicate QueryKept(w: Word, run: seq<Build>, lex: Lex, start: string, env: Env)
  {
    Bind(Query(w), Values(Params(w), env), lex) == Some(FinalFrom(run, start, env))
  }

  ghost predicate AlwaysKept(w: Word, run: seq<Build>, lex: Lex)
  {
    forall env, start :: QueryKept(w, run, lex, start, env)
  }

  // For all values and all earlier texts, exactly when the variable has been assigned and a driver reads the
  // template as what has been put into it since.
  lemma QueryKeptIff(w: Word, run: seq<Build>, lex: Lex)
    ensures AlwaysKept(w, run, lex) <==>
            HasSet(run) && Reading(w, Params(w), lex) == Some(FinalWord(run))
  {
    var text := FinalWord(run);
    KeepsIff(w, text, lex);
    if HasSet(run) {
      forall env, start
        ensures QueryKept(w, run, lex, start, env) <==> Keeps(w, text, lex, env)
      {
        FinalSpells(run, start, env);
        assert "" + Spell(text, env) == Spell(text, env);
      }
      if AlwaysKept(w, run, lex) {
        forall env
          ensures Keeps(w, text, lex, env)
        {
          assert QueryKept(w, run, lex, "", env);
        }
      }
    } else {
      var any: Env := x => "";
      FinalSpells(run, "", any);
      FinalSpells(run, "x", any);
      assert |FinalFrom(run, "x", any)| == 1 + |FinalFrom(run, "", any)|;
      assert !QueryKept(w, run, lex, "", any) || !QueryKept(w, run, lex, "x", any);
    }
  }

  // ---------------------------------------------------------------- assignments that are all found

  function ValuesOf(builds: seq<Build>): (nodes: seq<Node>)
    ensures |nodes| == |builds|
  {
    seq(|builds|, i requires 0 <= i < |builds| => builds[i].value)
  }

  function AllWord(builds: seq<Build>): (w: Word)
  {
    if builds == [] then [] else AllWord(builds[..|builds| - 1]) + WordOf(builds[|builds| - 1].value)
  }

  lemma {:induction false} AllWordAppend(a: seq<Build>, b: seq<Build>)
    ensures AllWord(a + b) == AllWord(a) + AllWord(b)
    decreases |b|
  {
    if b == [] {
      assert a + b == a;
    } else {
      var n := |b| - 1;
      assert (a + b)[..|a| + n] == a + b[..n];
      AllWordAppend(a, b[..n]);
      Associate(AllWord(a), AllWord(b[..n]), WordOf(b[n].value));
    }
  }

  // What was put in before the last plain assignment, and what stayed.
  lemma {:induction false} AllWordSplits(builds: seq<Build>)
    requires HasSet(builds)
    ensures AllWord(builds) == AllWord(builds[..LastSet(builds)]) + FinalWord(builds)
    decreases |builds|
  {
    var front, last := builds[..|builds| - 1], builds[|builds| - 1];
    if last.Append? {
      assert HasSet(front);
      AllWordSplits(front);
      assert front[..LastSet(builds)] == builds[..LastSet(builds)];
    }
  }

  // The literals that are just a question mark.
  function LoneMarks(n: Node): (count: nat)
  {
    match n
    case Text(text) => if text == "?" then 1 else 0
    case Add(left, right) => LoneMarks(left) + LoneMarks(right)
    case _ => 0
  }

  function AllLoneMarks(builds: seq<Build>): (count: nat)
  {
    if builds == [] then 0 else AllLoneMarks(builds[..|builds| - 1]) + LoneMarks(builds[|builds| - 1].value)
  }

  // A lone question mark is one parameter more, in the same place.
  lemma {:induction false} TakenCounts(n: Node)
    ensures |Taken(n)| == |WordOf(n)| && |Params(Taken(n))| == |Params(WordOf(n))| + LoneMarks(n)
    ensures LoneMarks(n) == 0 ==> Taken(n) == WordOf(n)
  {
    match n
    case Text(text) =>
      LettersHaveNoParams(text);
      PieceParts(Field("", ""));
    case Add(left, right) =>
      TakenCounts(left);
      TakenCounts(right);
      ParamsAppend(Taken(left), Taken(right));
      ParamsAppend(WordOf(left), WordOf(right));
    case _ =>
  }

  lemma {:induction false} AllTakenCounts(builds: seq<Build>)
    ensures var w := AllTaken(ValuesOf(builds));
            && |w| == |AllWord(builds)| && |Params(w)| == |Params(AllWord(builds))| + AllLoneMarks(builds)
            && (AllLoneMarks(builds) == 0 ==> w == AllWord(builds))
    decreases |builds|
  {
    if builds != [] {
      var front, last := builds[..|builds| - 1], builds[|builds| - 1];
      assert ValuesOf(builds)[..|front|] == ValuesOf(front);
      AllTakenCounts(front);
      TakenCounts(last.value);
      ParamsAppend(AllTaken(ValuesOf(front)), Taken(last.value));
      ParamsAppend(AllWord(front), WordOf(last.value));
    }
  }

  // No literal is just a question mark, every variable stands where a driver sees a placeholder, and no
  // question mark of the literals does.
  predicate Parameterizable(builds: seq<Build>, lex: Lex)
  {
    AllLoneMarks(builds) == 0 && Fits(AllWord(builds), lex)
  }

  // A value that is empty whatever the variables hold: nothing but empty literals.
  predicate AlwaysEmpty(n: Node)
  {
    match n
    case Text(text) => text == ""
    case Add(left, right) => AlwaysEmpty(left) && AlwaysEmpty(right)
    case Formatted(pieces) => FStringShown(pieces) == []
    case _ => false
  }

  predicate AllEmpty(builds: seq<Build>)
  {
    forall k :: 0 <= k < |builds| ==> AlwaysEmpty(builds[k].value)
  }

  lemma {:induction false} EmptyNode(n: Node)
    ensures AlwaysEmpty(n) <==> WordOf(n) == []
  {
    if n.Add? {
      EmptyNode(n.left);
      EmptyNode(n.right);
    }
  }

  lemma {:induction false} EmptyWord(builds: seq<Build>)
    ensures AllEmpty(builds) <==> AllWord(builds) == []
    decreases |builds|
  {
    if builds != [] {
      var front, last := builds[..|builds| - 1], builds[|builds| - 1];
      EmptyWord(front);
      EmptyNode(last.value);
      assert AllEmpty(builds) <==> AllEmpty(front) && AlwaysEmpty(last.value);
    }
  }

  lemma PiecesOfRun(builds: seq<Build>, cut: nat)
    requires cut <= |builds| && HasSet(builds[..cut])
    ensures AllWord(builds)
         == AllWord(builds[..cut][..LastSet(builds[..cut])]) + FinalWord(builds[..cut]) + AllWord(builds[cut..])
  {
    assert builds == builds[..cut] + builds[cut..];
    AllWordAppend(builds[..cut], builds[cut..]);
    AllWordSplits(builds[..cut]);
  }

  // A template of as many atoms as it has letters reads as the whole text only if nothing in it is lone.
  lemma ReadsAsWhole(builds: seq<Build>, lex: Lex)
    ensures var w := AllTaken(ValuesOf(builds));
            Reading(w, Params(w), lex) == Some(AllWord(builds)) <==> Parameterizable(builds, lex)
  {
    var w := AllTaken(ValuesOf(builds));
    AllTakenCounts(builds);
    FitsReads(w, Params(w), lex);
    if Reading(w, Params(w), lex) == Some(AllWord(builds)) {
      ReadingUsesAll(w, Params(w), lex);
    }
  }

  lemma NothingAround(early: Word, w: Word, late: Word)
    ensures |early + w + late| == |w| <==> early == [] && late == []
    ensures |early + w + late| == |w| ==> early + w + late == w
  {
  }

  // The assignments found are all there are, and the query is executed after the first cut of them: the text
  // is kept exactly when it can be parameterized, the variable has been assigned by then, and all that was
  // put in before its last plain assignment, or after the query, is empty.
  lemma ConcatenationParameterizedIff(builds: seq<Build>, cut: nat, lex: Lex)
    requires cut <= |builds|
    ensures var w, run := AllTaken(ValuesOf(builds)), builds[..cut];
            AlwaysKept(w, run, lex) <==>
            && Parameterizable(builds, lex) && HasSet(run)
            && AllEmpty(run[..LastSet(run)]) && AllEmpty(builds[cut..])
  {
    var w, run := AllTaken(ValuesOf(builds)), builds[..cut];
    QueryKeptIff(w, run, lex);
    if HasSet(run) {
      var early, late := AllWord(run[..LastSet(run)]), AllWord(builds[cut..]);
      PiecesOfRun(builds, cut);
      EmptyWord(run[..LastSet(run)]);
      EmptyWord(builds[cut..]);
      AllTakenCounts(builds);
      ReadsAsWhole(builds, lex);
      NothingAround(early, FinalWord(run), late);
    }
  }

  // For a driver that takes every question mark there must be none in the literals.
  lemma ParameterizableAnywhere(builds: seq<Build>)
    ensures Parameterizable(builds, Anywhere) <==> Char('?') !in AllWord(builds)
  {
    FitsAnywhere(AllWord(builds));
    LoneMarksShow(builds);
  }

  lemma {:induction false} LoneMarkShows(n: Node)
    ensures LoneMarks(n) > 0 ==> Char('?') in WordOf(n)
  {
    match n
    case Text(text) => assert text == "?" ==> Letters(text)[0] == Char('?');
    case Add(left, right) =>
      LoneMarkShows(left);
      LoneMarkShows(right);
    case _ =>
  }

  lemma {:induction false} LoneMarksShow(builds: seq<Build>)
    ensures AllLoneMarks(builds) > 0 ==> Char('?') in AllWord(builds)
    decreases |builds|
  {
    if builds != [] {
      LoneMarksShow(builds[..|builds| - 1]);
      LoneMarkShows(builds[|builds| - 1].value);
    }
  }

  // One assignment followed by augmented ones up to the query: the text is kept for all values, and there are
  // as many placeholders as parameters.
  lemma ConcatenationParameterized(builds: seq<Build>, lex: Lex, start: string, env: Env)
    requires Parameterizable(builds, lex) && builds != [] && builds[0].Set? && LastSet(builds) == 0
    ensures var w := AllTaken(ValuesOf(builds));
            QueryKept(w, builds, lex, start, env) && Marks(Query(w), lex) == |Params(w)|
  {
    var w := AllTaken(ValuesOf(builds));
    assert builds[0].Set? && builds[..|builds|] == builds && builds[..0] == [] && builds[|builds|..] == [];
    ConcatenationParameterizedIff(builds, |builds|, lex);
    BindsIffCounts(Query(w), Values(Params(w), env), lex);
  }

  // ---------------------------------------------------------------- inputs that are not kept

  // Only augmented assignments are found: whatever the variable held before is dropped.
  lemma IncomingTextDropped(builds: seq<Build>, lex: Lex, start: string, env: Env)
    requires Parameterizable(builds, lex) && !HasSet(builds) && start != ""
    ensures !QueryKept(AllTaken(ValuesOf(builds)), builds, lex, start, env)
  {
    var w := AllTaken(ValuesOf(builds));
    ReadsAsWhole(builds, lex);
    BindReads(w, Params(w), lex, env);
    FinalSpells(builds, start, env);
    OnlyAppended(builds);
    assert |FinalFrom(builds, start, env)| == |start| + |Spell(AllWord(builds), env)|;
  }

  lemma AllWordOne(b: Build)
    ensures AllWord([b]) == WordOf(b.value) && AllLoneMarks([b]) == LoneMarks(b.value)
  {
    assert [b][..0] == [] && [] + WordOf(b.value) == WordOf(b.value);
  }

  lemma {:induction false} OnlyAppended(builds: seq<Build>)
    requires !HasSet(builds)
    ensures FinalWord(builds) == AllWord(builds)
    decreases |builds|
  {
    if builds != [] {
      var front := builds[..|builds| - 1];
      assert builds[|builds| - 1].Append?;
      assert forall k :: 0 <= k < |front| ==> front[k] == builds[k];
      OnlyAppended(front);
    }
  }

  // What is put into the variable after the query comes into the template too.
  lemma LaterTextTaken(builds: seq<Build>, cut: nat, lex: Lex, start: string, env: Env)
    requires Parameterizable(builds, lex) && cut <= |builds| && HasSet(builds[..cut]) && LastSet(builds[..cut]) == 0
    requires Spell(AllWord(builds[cut..]), env) != ""
    ensures !QueryKept(AllTaken(ValuesOf(builds)), builds[..cut], lex, start, env)
  {
    var w, run, late := AllTaken(ValuesOf(builds)), builds[..cut], AllWord(builds[cut..]);
    ReadsAsWhole(builds, lex);
    BindReads(w, Params(w), lex, env);
    FinalSpells(run, start, env);
    PiecesOfRun(builds, cut);
    assert run[..0] == [] && [] + FinalWord(run) == FinalWord(run);
    SpellAppend(FinalWord(run), late, env);
    assert |FinalFrom(run, start, env)| == |Spell(FinalWord(run), env)|;
  }

  // ---------------------------------------------------------------- a literal that is just "?"

  // Every variable has a source text.
  predicate Written(n: Node)
  {
    match n
    case Variable(expr) => expr != ""
    case Add(left, right) => Written(left) && Written(right)
    case _ => true
  }

  predicate AllWritten(builds: seq<Build>)
  {
    forall k :: 0 <= k < |builds| ==> Written(builds[k].value)
  }

  // The parameters of the new call, each of which has to parse as an expression; else the patch raises.
  function NewArguments(t: Template, parses: string -> bool): (params: Option<seq<string>>)
  {
    if forall p :: p in t.params ==> parses(p) then Some(t.params) else None
  }

  lemma {:induction false} EmptyParameter(n: Node)
    requires Written(n) && Decomposable(n)
    ensures "" in Params(Taken(n)) <==> LoneMarks(n) > 0
  {
    match n
    case Text(text) =>
      LettersHaveNoParams(text);
      PieceParts(Field("", ""));
    case Variable(expr) => PieceParts(Field(expr, ""));
    case Add(left, right) =>
      EmptyParameter(left);
      EmptyParameter(right);
      ParamsAppend(Taken(left), Taken(right));
  }

  lemma {:induction false} EmptyParameters(builds: seq<Build>)
    requires AllWritten(builds) && AllDecomposable(ValuesOf(builds))
    ensures "" in Params(AllTaken(ValuesOf(builds))) <==> AllLoneMarks(builds) > 0
    decreases |builds|
  {
    if builds != [] {
      var front, last := builds[..|builds| - 1], builds[|builds| - 1];
      assert ValuesOf(builds)[..|front|] == ValuesOf(front);
      assert ValuesOf(builds)[|front|] == last.value;
      assert forall k :: 0 <= k < |front| ==> ValuesOf(front)[k] == ValuesOf(builds)[k];
      EmptyParameters(front);
      EmptyParameter(last.value);
      ParamsAppend(AllTaken(ValuesOf(front)), Taken(last.value));
    }
  }

  // A literal of just a question mark somewhere leaves an empty parameter, and no text is no expression:
  // the patch raises exactly then.
  lemma MarkLiteralRaises(builds: seq<Build>, parses: string -> bool)
    requires AllDecomposable(ValuesOf(builds)) && AllWritten(builds) && !parses("")
    requires forall p :: p in Params(AllTaken(ValuesOf(builds))) && p != "" ==> parses(p)
    ensures NewArguments(TemplateOf(AllTaken(ValuesOf(builds))), parses).None? <==> AllLoneMarks(builds) > 0
  {
    EmptyParameters(builds);
  }
}
