/**
 Moving the values out of a query string: a template with placeholders, and the parameters to bind to them
 from left to right, as the qmark style of PEP 249 (Module Interface, Globals, paramstyle) does. Binding is
 to give the original text back. A text under construction is a word: characters, and values whose text
 is only known when the query is built.
 */
module PatchQuery {
  import opened Wrappers

  // A piece of an f-string; the format of a field is its conversion and format specification, if any.
  // An odd piece is neither literal nor field, or its expression cannot be written out.
  datatype Piece = Literal(text: string) | Field(expr: string, format: string) | Odd

  datatype Template = Template(query: string, params: seq<string>)

  // The text of every expression while the query is built and executed.
  type Env = string -> string

  datatype Atom = Char(c: char) | Value(expr: string)

  type Word = seq<Atom>

  // ---------------------------------------------------------------- words and their texts

  function Letters(text: string): (w: Word)
    ensures |w| == |text|
  {
    seq(|text|, i requires 0 <= i < |text| => Char(text[i]))
  }

  function Shown(a: Atom, env: Env): (text: string)
  {
    match a
    case Char(c) => [c]
    case Value(expr) => env(expr)
  }

  function Spell(w: Word, env: Env): (text: string)
  {
    if w == [] then "" else Shown(w[0], env) + Spell(w[1..], env)
  }

  lemma Associate<T>(a: seq<T>, b: seq<T>, c: seq<T>)
    ensures a + (b + c) == a + b + c && a + [] == a
  {
  }

  lemma {:induction false} SpellAppend(a: Word, b: Word, env: Env)
    ensures Spell(a + b, env) == Spell(a, env) + Spell(b, env)
  {
    if a == [] {
      assert a + b == b;
    } else {
      assert (a + b)[1..] == a[1..] + b;
      SpellAppend(a[1..], b, env);
      Associate(Shown(a[0], env), Spell(a[1..], env), Spell(b, env));
    }
  }

  lemma {:induction false} SpellLetters(text: string, env: Env)
    ensures Spell(Letters(text), env) == text
  {
    if text != "" {
      assert Letters(text)[1..] == Letters(text[1..]);
      SpellLetters(text[1..], env);
      assert [text[0]] + text[1..] == text;
    }
  }

  // Two words that differ have different texts for some values.
  lemma {:induction false} Telling(u: Word, v: Word) returns (env: Env)
    requires u != v
    ensures Spell(u, env) != Spell(v, env)
  {
    if u == [] || v == [] {
      env := x => "x";
      assert u == [] ==> Shown(v[0], env) != "";
      assert v == [] ==> Shown(u[0], env) != "";
    } else if u[0] == v[0] {
      assert u == [u[0]] + u[1..] && v == [v[0]] + v[1..];
      env := Telling(u[1..], v[1..]);
      SameHead(Shown(u[0], env), Spell(u[1..], env), Spell(v[1..], env));
    } else {
      env := TellingHead(u[0], v[0]);
      assert Spell(u, env)[0] == Shown(u[0], env)[0] && Spell(v, env)[0] == Shown(v[0], env)[0];
    }
  }

  lemma SameHead(head: string, a: string, b: string)
    requires a != b
    ensures head + a != head + b
  {
    assert (head + a)[|head|..] == a && (head + b)[|head|..] == b;
  }

  lemma TellingHead(a: Atom, b: Atom) returns (env: Env)
    requires a != b
    ensures |Shown(a, env)| > 0 && |Shown(b, env)| > 0 && Shown(a, env)[0] != Shown(b, env)[0]
  {
    match a {
      case Value(expr) =>
        if b.Value? {
          env := x => if x == expr then "x" else "y";
        } else {
          env := x => if b.c == 'x' then "y" else "x";
        }
      case Char(c) =>
        env := x => if c == 'x' then "y" else "x";
    }
  }

  // ---------------------------------------------------------------- binding parameters

  // Where a driver looks for placeholders: anywhere, or outside string literals and quoted names only.
  datatype Lex = Anywhere | Outside | Inside(quote: char)

  function Next(lex: Lex, c: char): (next: Lex)
  {
    match lex
    case Anywhere => Anywhere
    case Outside => if c == '\'' || c == '"' then Inside(c) else Outside
    case Inside(quote) => if c == quote then Outside else lex
  }

  predicate Placeholder(c: char, lex: Lex)
  {
    c == '?' && !lex.Inside?
  }

  function Prepend(head: string, rest: Option<string>): (r: Option<string>)
  {
    if rest.None? then None else Some(head + rest.value)
  }

  // Replace the placeholders by the values, left to right; too few or too many values bind nothing.
  function Bind(query: string, values: seq<string>, lex: Lex): (r: Option<string>)
  {
    if query == "" then if values == [] then Some("") else None
    else if Placeholder(query[0], lex) then
      if values == [] then None else Prepend(values[0], Bind(query[1..], values[1..], lex))
    else Prepend([query[0]], Bind(query[1..], values, Next(lex, query[0])))
  }

  function Marks(query: string, lex: Lex): (n: nat)
  {
    if query == "" then 0
    else (if Placeholder(query[0], lex) then 1 else 0) + Marks(query[1..], Next(lex, query[0]))
  }

  lemma {:induction false} BindsIffCounts(query: string, values: seq<string>, lex: Lex)
    ensures Bind(query, values, lex).Some? <==> Marks(query, lex) == |values|
  {
    if query != "" {
      if !Placeholder(query[0], lex) {
        BindsIffCounts(query[1..], values, Next(lex, query[0]));
      } else if values != [] {
        BindsIffCounts(query[1..], values[1..], lex);
      }
    }
  }

  function Values(params: seq<string>, env: Env): (values: seq<string>)
    ensures |values| == |params|
  {
    seq(|params|, i requires 0 <= i < |params| => env(params[i]))
  }

  // ---------------------------------------------------------------- the template of a word

  function Letter(a: Atom): (c: char)
  {
    if a.Char? then a.c else '?'
  }

  function Query(w: Word): (query: string)
    ensures |query| == |w|
  {
    seq(|w|, i requires 0 <= i < |w| => Letter(w[i]))
  }

  function Params(w: Word): (params: seq<string>)
  {
    if w == [] then [] else (if w[0].Value? then [w[0].expr] else []) + Params(w[1..])
  }

  function TemplateOf(w: Word): (t: Template)
  {
    Template(Query(w), Params(w))
  }

  lemma {:induction false} ParamsAppend(a: Word, b: Word)
    ensures Params(a + b) == Params(a) + Params(b)
  {
    if a == [] {
      assert a + b == b;
    } else {
      assert (a + b)[1..] == a[1..] + b;
      ParamsAppend(a[1..], b);
      Associate(if a[0].Value? then [a[0].expr] else [], Params(a[1..]), Params(b));
    }
  }

  lemma {:induction false} LettersHaveNoParams(text: string)
    ensures Query(Letters(text)) == text && Params(Letters(text)) == []
  {
    if text != "" {
      assert Letters(text)[1..] == Letters(text[1..]);
      LettersHaveNoParams(text[1..]);
    }
  }

  lemma TemplateAppend(a: Word, b: Word)
    ensures TemplateOf(a + b) == Template(Query(a) + Query(b), Params(a) + Params(b))
  {
    ParamsAppend(a, b);
    assert Query(a + b) == Query(a) + Query(b);
  }

  // What a driver makes of the template of a word: each placeholder it sees is the next parameter.
  function Reading(w: Word, params: seq<string>, lex: Lex): (r: Option<Word>)
    ensures r.Some? ==> |r.value| == |w|
  {
    if w == [] then if params == [] then Some([]) else None
    else if Placeholder(Letter(w[0]), lex) then
      if params == [] then None
      else
        var rest := Reading(w[1..], params[1..], lex);
        if rest.None? then None else Some([Value(params[0])] + rest.value)
    else
      var rest := Reading(w[1..], params, Next(lex, Letter(w[0])));
      if rest.None? then None else Some([Char(Letter(w[0]))] + rest.value)
  }

  lemma {:induction false} BindReads(w: Word, params: seq<string>, lex: Lex, env: Env)
    ensures var r := Reading(w, params, lex);
            Bind(Query(w), Values(params, env), lex) == if r.None? then None else Some(Spell(r.value, env))
    decreases |w|
  {
    if w != [] {
      assert Query(w)[0] == Letter(w[0]) && Query(w)[1..] == Query(w[1..]);
      if !Placeholder(Letter(w[0]), lex) {
        BindReads(w[1..], params, Next(lex, Letter(w[0])), env);
      } else if params != [] {
        assert Values(params, env)[1..] == Values(params[1..], env);
        BindReads(w[1..], params[1..], lex, env);
      }
    }
  }

  lemma {:induction false} ReadingUsesAll(w: Word, params: seq<string>, lex: Lex)
    requires Reading(w, params, lex).Some?
    ensures Params(Reading(w, params, lex).value) == params
    decreases |w|
  {
    if w != [] {
      var v := Reading(w, params, lex).value;
      if Placeholder(Letter(w[0]), lex) {
        ReadingUsesAll(w[1..], params[1..], lex);
        assert v[1..] == Reading(w[1..], params[1..], lex).value;
      } else {
        ReadingUsesAll(w[1..], params, Next(lex, Letter(w[0])));
        assert v[1..] == Reading(w[1..], params, Next(lex, Letter(w[0]))).value;
      }
    }
  }

  // Every value stands where a driver sees a placeholder, and no question mark of the text does.
  predicate Fits(w: Word, lex: Lex)
  {
    w != [] ==>
      match w[0]
      case Value(_) => !lex.Inside? && Fits(w[1..], lex)
      case Char(c) => !Placeholder(c, lex) && Fits(w[1..], Next(lex, c))
  }

  // Where a driver is after a word.
  function Past(w: Word, lex: Lex): (after: Lex)
  {
    if w == [] then lex else Past(w[1..], if w[0].Char? then Next(lex, w[0].c) else lex)
  }

  lemma {:induction false} FitsAppend(a: Word, b: Word, lex: Lex)
    ensures Fits(a + b, lex) <==> Fits(a, lex) && Fits(b, Past(a, lex))
  {
    if a == [] {
      assert a + b == b;
    } else {
      assert (a + b)[1..] == a[1..] + b;
      FitsAppend(a[1..], b, if a[0].Char? then Next(lex, a[0].c) else lex);
    }
  }

  lemma {:induction false} FitsReads(w: Word, params: seq<string>, lex: Lex)
    ensures Reading(w, params, lex) == Some(w) <==> Fits(w, lex) && params == Params(w)
    decreases |w|
  {
    if w != [] {
      assert w == [w[0]] + w[1..];
      if !Placeholder(Letter(w[0]), lex) {
        FitsReads(w[1..], params, Next(lex, Letter(w[0])));
      } else if params != [] {
        FitsReads(w[1..], params[1..], lex);
        assert params == [params[0]] + params[1..];
      }
    }
  }

  // Binding the template of one word gives the text of another.
  ghost predicate Keeps(w: Word, text: Word, lex: Lex, env: Env)
  {
    Bind(Query(w), Values(Params(w), env), lex) == Some(Spell(text, env))
  }

  // It does so for all values exactly when that is how a driver reads the template.
  lemma KeepsIff(w: Word, text: Word, lex: Lex)
    ensures (forall env :: Keeps(w, text, lex, env)) <==> Reading(w, Params(w), lex) == Some(text)
  {
    var r := Reading(w, Params(w), lex);
    forall env
      ensures Keeps(w, text, lex, env) <==> r.Some? && Spell(r.value, env) == Spell(text, env)
    {
      BindReads(w, Params(w), lex, env);
    }
    var any: Env := x => "";
    if r.None? {
      assert !Keeps(w, text, lex, any);
    } else if r.value != text {
      var env := Telling(r.value, text);
      assert !Keeps(w, text, lex, env);
    }
  }

  // ---------------------------------------------------------------- f-strings

  function PieceWord(p: Piece): (w: Word)
  {
    match p
    case Literal(text) => Letters(text)
    case Field(expr, _) => [Value(expr)]
    case Odd => []
  }

  // What the template is made of: the format of a field is dropped.
  function FStringWord(pieces: seq<Piece>): (w: Word)
  {
    if pieces == [] then [] else FStringWord(pieces[..|pieces| - 1]) + PieceWord(pieces[|pieces| - 1])
  }

  function FStringTemplate(pieces: seq<Piece>): (t: Template)
  {
    TemplateOf(FStringWord(pieces))
  }

  function PieceShown(p: Piece): (w: Word)
  {
    if p.Field? then [Value(p.expr + p.format)] else PieceWord(p)
  }

  // What the f-string evaluates to: a field with a format shows another text than the bare expression.
  function FStringShown(pieces: seq<Piece>): (w: Word)
  {
    if pieces == [] then [] else FStringShown(pieces[..|pieces| - 1]) + PieceShown(pieces[|pieces| - 1])
  }

  predicate Unformatted(pieces: seq<Piece>)
  {
    forall p :: p in pieces && p.Field? ==> p.format == ""
  }

  // The question marks in the literal pieces.
  function FStringMarks(pieces: seq<Piece>): (n: nat)
  {
    if pieces == [] then 0
    else
      var last := pieces[|pieces| - 1];
      FStringMarks(pieces[..|pieces| - 1]) + if last.Literal? then Marks(last.text, Anywhere) else 0
  }

  method DecomposeFString(pieces: seq<Piece>) returns (t: Option<Template>)
    ensures t == if Odd in pieces then None else Some(FStringTemplate(pieces))
  {
    var query, params := "", [];
    ghost var done: seq<Piece> := [];
    for i := 0 to |pieces|
      invariant done == pieces[..i] && Odd !in done && Template(query, params) == FStringTemplate(done)
    {
      FStringSnoc(done, pieces[i]);
      match pieces[i] {
        case Literal(text) =>
          query := query + text;
        case Field(expr, _) =>
          params := params + [expr];
          query := query + "?";
        case Odd =>
          assert pieces[i] in pieces;
          return None;
      }
      done := done + [pieces[i]];
    }
    assert done == pieces;
    t := Some(Template(query, params));
  }

  function PieceTemplate(p: Piece): (t: Template)
  {
    match p
    case Literal(text) => Template(text, [])
    case Field(expr, _) => Template("?", [expr])
    case Odd => Template("", [])
  }

  lemma PieceParts(p: Piece)
    ensures TemplateOf(PieceWord(p)) == PieceTemplate(p)
  {
    match p
    case Literal(text) => LettersHaveNoParams(text);
    case Field(expr, _) =>
      var w := [Value(expr)];
      assert Query(w) == "?" && w[1..] == [] && Params(w) == [expr] + [];
    case Odd =>
  }

  lemma FStringSnoc(pieces: seq<Piece>, p: Piece)
    ensures FStringWord(pieces + [p]) == FStringWord(pieces) + PieceWord(p)
    ensures FStringShown(pieces + [p]) == FStringShown(pieces) + PieceShown(p)
    ensures var t, last := FStringTemplate(pieces), PieceTemplate(p);
            FStringTemplate(pieces + [p]) == Template(t.query + last.query, t.params + last.params)
    ensures p.Literal? ==> FStringTemplate(pieces + [p]).params == FStringTemplate(pieces).params
  {
    assert (pieces + [p])[..|pieces|] == pieces;
    TemplateAppend(FStringWord(pieces), PieceWord(p));
    PieceParts(p);
  }

  lemma {:induction false} MarksAppend(a: string, b: string)
    ensures Marks(a + b, Anywhere) == Marks(a, Anywhere) + Marks(b, Anywhere)
  {
    if a == "" {
      assert a + b == b;
    } else {
      assert (a + b)[1..] == a[1..] + b;
      MarksAppend(a[1..], b);
    }
  }

  lemma {:induction false} FStringCounts(pieces: seq<Piece>)
    ensures var t := FStringTemplate(pieces); Marks(t.query, Anywhere) == |t.params| + FStringMarks(pieces)
    decreases |pieces|
  {
    if pieces != [] {
      var front, last := pieces[..|pieces| - 1], pieces[|pieces| - 1];
      assert pieces == front + [last];
      FStringCounts(front);
      FStringSnoc(front, last);
      match last {
        case Literal(text) => MarksAppend(FStringTemplate(front).query, text);
        case Field(_, _) => MarksAppend(FStringTemplate(front).query, "?");
        case Odd =>
          assert FStringTemplate(front).query + "" == FStringTemplate(front).query;
      }
    }
  }

  lemma PieceParams(p: Piece)
    ensures |PieceWord(p)| == |PieceShown(p)| && |Params(PieceWord(p))| == |Params(PieceShown(p))|
    ensures Params(PieceWord(p)) == Params(PieceShown(p)) <==> (p.Field? ==> p.format == "")
  {
    if p.Field? {
      var shown := p.expr + p.format;
      assert Params([Value(p.expr)]) == [p.expr] && Params([Value(shown)]) == [shown];
      assert [p.expr][0] == p.expr && [shown][0] == shown && |shown| == |p.expr| + |p.format|;
      assert p.format == "" ==> shown == p.expr;
    }
  }

  lemma {:induction false} SameParamsUnformatted(pieces: seq<Piece>)
    ensures |Params(FStringWord(pieces))| == |Params(FStringShown(pieces))|
    ensures Params(FStringWord(pieces)) == Params(FStringShown(pieces)) <==> Unformatted(pieces)
    decreases |pieces|
  {
    if pieces != [] {
      var front, last := pieces[..|pieces| - 1], pieces[|pieces| - 1];
      assert pieces == front + [last];
      SameParamsUnformatted(front);
      ParamsAppend(FStringWord(front), PieceWord(last));
      ParamsAppend(FStringShown(front), PieceShown(last));
      SameEnds(Params(FStringWord(front)), Params(PieceWord(last)), Params(FStringShown(front)),
          Params(PieceShown(last)));
      PieceParams(last);
      assert Unformatted(pieces) <==> Unformatted(front) && (last.Field? ==> last.format == "");
    }
  }

  lemma {:induction false} UnformattedSame(pieces: seq<Piece>)
    requires Unformatted(pieces)
    ensures FStringWord(pieces) == FStringShown(pieces)
    decreases |pieces|
  {
    if pieces != [] {
      var front, last := pieces[..|pieces| - 1], pieces[|pieces| - 1];
      UnformattedSame(front);
      assert last in pieces && (last.Field? ==> last.expr + last.format == last.expr);
    }
  }

  lemma SameEnds(a: seq<string>, b: seq<string>, c: seq<string>, d: seq<string>)
    requires |a| == |c|
    ensures a + b == c + d <==> a == c && b == d
  {
    if a + b == c + d {
      assert a == (a + b)[..|a|] == c && b == (a + b)[|a|..] == d;
    }
  }

  // Binding the values of the expressions gives the f-string's own text back.
  ghost predicate FStringKept(pieces: seq<Piece>, lex: Lex, env: Env)
  {
    var t := FStringTemplate(pieces);
    Bind(t.query, Values(t.params, env), lex) == Some(Spell(FStringShown(pieces), env))
  }

  lemma {:induction false} SameLength(pieces: seq<Piece>)
    ensures |FStringWord(pieces)| == |FStringShown(pieces)|
    decreases |pieces|
  {
    if pieces != [] {
      SameLength(pieces[..|pieces| - 1]);
    }
  }

  // A driver reads the template as the f-string exactly when no field has a format and the f-string fits.
  lemma FStringReads(pieces: seq<Piece>, lex: Lex)
    ensures var w := FStringWord(pieces);
            Reading(w, Params(w), lex) == Some(FStringShown(pieces)) <==>
            Unformatted(pieces) && Fits(FStringShown(pieces), lex)
  {
    var w := FStringWord(pieces);
    SameParamsUnformatted(pieces);
    if Unformatted(pieces) {
      UnformattedSame(pieces);
    }
    FitsReads(w, Params(w), lex);
    if Reading(w, Params(w), lex) == Some(FStringShown(pieces)) {
      ReadingUsesAll(w, Params(w), lex);
    }
  }

  // For all values the text is kept exactly when no field has a format, every field stands where a driver
  // sees a placeholder, and no question mark of the literals does.
  lemma FStringParameterizationIff(pieces: seq<Piece>, lex: Lex)
    requires Odd !in pieces
    ensures (forall env :: FStringKept(pieces, lex, env)) <==>
            Unformatted(pieces) && Fits(FStringShown(pieces), lex)
  {
    var w, text := FStringWord(pieces), FStringShown(pieces);
    assert forall env :: FStringKept(pieces, lex, env) <==> Keeps(w, text, lex, env);
    KeepsIff(w, text, lex);
    FStringReads(pieces, lex);
  }

  lemma {:induction false} FitsAnywhere(w: Word)
    ensures Fits(w, Anywhere) <==> Char('?') !in w
  {
    if w != [] {
      FitsAnywhere(w[1..]);
      assert w == [w[0]] + w[1..];
    }
  }

  lemma {:induction false} UnmarkedText(text: string)
    ensures Marks(text, Anywhere) == 0 <==> Char('?') !in Letters(text)
  {
    if text != "" {
      UnmarkedText(text[1..]);
      assert Letters(text) == [Char(text[0])] + Letters(text[1..]);
    }
  }

  lemma {:induction false} UnmarkedPieces(pieces: seq<Piece>)
    ensures FStringMarks(pieces) == 0 <==> Char('?') !in FStringShown(pieces)
    decreases |pieces|
  {
    if pieces != [] {
      UnmarkedPieces(pieces[..|pieces| - 1]);
      if pieces[|pieces| - 1].Literal? {
        UnmarkedText(pieces[|pieces| - 1].text);
      }
    }
  }

  // For a driver that takes every question mark, that is: no question mark in the literals.
  lemma FStringAnywhereIff(pieces: seq<Piece>)
    requires Odd !in pieces && Unformatted(pieces)
    ensures (forall env :: FStringKept(pieces, Anywhere, env)) <==> FStringMarks(pieces) == 0
  {
    FStringParameterizationIff(pieces, Anywhere);
    FitsAnywhere(FStringShown(pieces));
    UnmarkedPieces(pieces);
  }

  // f"... '{x}' ...": a driver that minds quotes sees no placeholder there.
  lemma QuotedFieldLost(before: string, x: string, after: string)
    requires Past(Letters(before), Outside).Inside?
    ensures !forall env :: FStringKept([Literal(before), Field(x, ""), Literal(after)], Outside, env)
  {
    var pieces := [Literal(before), Field(x, ""), Literal(after)];
    QuotedField(before, x, after);
    FitsAppend(Letters(before), [Value(x)], Outside);
    FitsAppend(Letters(before) + [Value(x)], Letters(after), Outside);
    FStringParameterizationIff(pieces, Outside);
  }

  lemma QuotedField(before: string, x: string, after: string)
    ensures FStringShown([Literal(before), Field(x, ""), Literal(after)])
            == Letters(before) + [Value(x)] + Letters(after)
  {
    var a, b, c := Literal(before), Field(x, ""), Literal(after);
    assert [] + [a] == [a] && [a] + [b] == [a, b] && [a, b] + [c] == [a, b, c] && x + "" == x;
    assert FStringShown([a]) == Letters(before) by {
      FStringSnoc([], a);
      assert [] + Letters(before) == Letters(before);
    }
    assert FStringShown([a, b]) == Letters(before) + [Value(x)] by {
      FStringSnoc([a], b);
    }
    FStringSnoc([a, b], c);
  }
}
