/**
 A finding's signature: six texts with bars between them, two of which are normal forms and may hold bars
 themselves. The fingerprint is its hash.
 */
module Signature {
  import opened Fingerprint

  datatype Subject = Subject(vulnerability: string, source: string, sink: string,
                             sourceSnippet: Snippet, sinkSnippet: Snippet, steps: seq<string>)

  function Arrowed(steps: seq<string>): (text: string)
  {
    if steps == [] then "" else if |steps| == 1 then steps[0] else steps[0] + "->" + Arrowed(steps[1..])
  }

  function Signature(f: Subject): (text: string)
  {
    f.vulnerability + "|" + f.source + "|" + f.sink + "|" + NormalForm(f.sourceSnippet) + "|"
    + NormalForm(f.sinkSnippet) + "|" + Arrowed(f.steps)
  }

  // ---------------------------------------------------------------- what the fields look like

  // A field of a fixed vocabulary.
  predicate Plain(text: string)
  {
    text != "" && forall c :: c in text ==> c != '|' && c != '-'
  }

  // The operators that hold a bar are | and |=, and no name holds one.
  predicate BarsLexed(tokens: seq<Token>)
  {
    forall i :: 0 <= i < |tokens| && '|' in tokens[i].text ==>
      match tokens[i].kind
      case Operator => tokens[i].text == "|" || tokens[i].text == "|="
      case Identifier => false
      case _ => true
  }

  predicate ReadSnippet(s: Snippet)
  {
    LexedSnippet(s) && (s.Tokenized? ==> BarsLexed(s.tokens))
  }

  predicate Read(f: Subject)
  {
    && Plain(f.vulnerability) && Plain(f.source) && Plain(f.sink)
    && ReadSnippet(f.sourceSnippet) && ReadSnippet(f.sinkSnippet)
    && forall k :: 0 <= k < |f.steps| ==> Plain(f.steps[k])
  }

  lemma {:induction false} StepsApart(a: seq<string>, b: seq<string>)
    requires forall k :: 0 <= k < |a| ==> Plain(a[k])
    requires forall k :: 0 <= k < |b| ==> Plain(b[k])
    requires Arrowed(a) == Arrowed(b)
    ensures a == b
    decreases |a|
  {
    HasArrow(a);
    HasArrow(b);
    if a != [] && b != [] {
      assert Plain(a[0]) && Plain(b[0]);
      if |a| > 1 {
        assert a[0] + "->" + Arrowed(a[1..]) == a[0] + "-" + (">" + Arrowed(a[1..]));
        assert b[0] + "->" + Arrowed(b[1..]) == b[0] + "-" + (">" + Arrowed(b[1..]));
        SplitAtFirst('-', a[0], b[0], ">" + Arrowed(a[1..]), ">" + Arrowed(b[1..]));
        assert Arrowed(a[1..]) == (">" + Arrowed(a[1..]))[1..] && Arrowed(b[1..]) == (">" + Arrowed(b[1..]))[1..];
        StepsApart(a[1..], b[1..]);
        assert a == [a[0]] + a[1..] && b == [b[0]] + b[1..];
      }
    }
  }

  lemma {:induction false} HasArrow(steps: seq<string>)
    requires forall k :: 0 <= k < |steps| ==> Plain(steps[k])
    ensures '-' in Arrowed(steps) <==> |steps| > 1
    ensures Arrowed(steps) == "" <==> steps == []
    ensures '|' !in Arrowed(steps)
  {
    if |steps| > 1 {
      HasArrow(steps[1..]);
      assert Plain(steps[0]) && steps[0] + "->" + Arrowed(steps[1..]) == steps[0] + "-" + (">" + Arrowed(steps[1..]));
      FirstMark('-', steps[0], ">" + Arrowed(steps[1..]));
    }
  }

  // ---------------------------------------------------------------- bars inside a normal form

  predicate BarWord(p: string)
  {
    Word(p) && ('|' in p ==> p == "|" || p == "|=")
  }

  predicate BarWords(parts: seq<string>)
  {
    forall k :: 0 <= k < |parts| ==> BarWord(parts[k])
  }

  // A text that begins and ends without a blank, and in which a bar stands only at the beginning or after a blank.
  predicate BarsApart(text: string)
  {
    && (text != "" ==> text[0] != ' ' && text[|text| - 1] != ' ')
    && forall i :: 0 < i < |text| && text[i] == '|' ==> text[i - 1] == ' '
  }

  lemma {:induction false} JoinedBarsApart(parts: seq<string>)
    requires BarWords(parts)
    ensures BarsApart(Joined(parts)) && (parts != [] ==> Joined(parts) != "")
    decreases |parts|
  {
    if parts != [] {
      assert BarWord(parts[0]);
      var p := parts[0];
      assert p[0] in p && p[|p| - 1] in p;
      assert forall i :: 0 < i < |p| ==> p[i] in p;
      if |parts| > 1 {
        var rest := Joined(parts[1..]);
        JoinedBarsApart(parts[1..]);
        var text := p + " " + rest;
        forall i | 0 < i < |text| && text[i] == '|'
          ensures text[i - 1] == ' '
        {
          if i > |p| {
            assert text[i] == rest[i - |p| - 1];
          }
        }
      }
    }
  }

  lemma {:induction false} NormalizedBars(tokens: seq<Token>)
    requires Lexed(tokens) && BarsLexed(tokens)
    ensures BarWords(Normalized(tokens))
    decreases |tokens|
  {
    if tokens != [] {
      var k := Width(tokens, 0);
      assert forall i :: 0 <= i < |tokens| - k ==> tokens[k..][i] == tokens[i + k];
      NormalizedBars(tokens[k..]);
      assert LexedToken(tokens[0].kind, tokens[0].text);
      if AttributeAt(tokens, 0) {
        assert LexedToken(tokens[1].kind, tokens[1].text) && BarWord("." + tokens[1].text);
      }
    }
  }

  lemma FormBarsApart(s: Snippet)
    requires ReadSnippet(s)
    ensures BarsApart(NormalForm(s))
  {
    if s.Tokenized? {
      NormalizedBars(s.tokens);
      JoinedBarsApart(Normalized(s.tokens));
    }
  }

  // ---------------------------------------------------------------- taking a signature apart

  // The one way to put the bar between the two forms elsewhere.
  predicate BarMoved(first: string, second: string, first': string, second': string)
  {
    first == "" && first' == "|" && second == "|" + second'
  }

  lemma LaterBar(first: string, second: string, first': string, second': string)
    requires BarsApart(first) && BarsApart(second) && BarsApart(first')
    requires first + "|" + second == first' + "|" + second' && |first| < |first'|
    ensures BarMoved(first, second, first', second')
  {
    var text := first + "|" + second;
    var n := |first'|;
    assert text == first' + "|" + second';
    assert forall i :: 0 <= i < n ==> text[i] == first'[i];
    assert forall i :: 0 <= i < |first| ==> text[i] == first[i];
    assert first'[|first|] == '|';
    assert first == "";
    assert forall i :: 0 <= i < |second| ==> text[i + 1] == second[i];
    assert second[n - 1] == text[n] == '|';
    assert n == 1;
    assert second == text[1..] && second' == text[2..];
  }

  lemma FormsApart(first: string, second: string, first': string, second': string)
    requires BarsApart(first) && BarsApart(second) && BarsApart(first') && BarsApart(second')
    ensures first + "|" + second == first' + "|" + second' <==>
            (first == first' && second == second')
            || BarMoved(first, second, first', second') || BarMoved(first', second', first, second)
  {
    var text, text' := first + "|" + second, first' + "|" + second';
    if BarMoved(first, second, first', second') || BarMoved(first', second', first, second) {
      assert text == text';
    } else if text == text' {
      if |first| < |first'| {
        LaterBar(first, second, first', second');
      } else if |first'| < |first| {
        LaterBar(first', second', first, second);
      } else {
        assert first == text[..|first|] && first' == text[..|first|];
        assert second == text[|first| + 1..] && second' == text[|first| + 1..];
      }
    }
  }

  // What stands before the last separator, and what after it.
  lemma SplitAtLast(sep: char, p: string, q: string, more: string, rest: string)
    requires sep !in more && sep !in rest && p + [sep] + more == q + [sep] + rest
    ensures p == q && more == rest
  {
    var text := p + [sep] + more;
    assert text == q + [sep] + rest;
    assert forall i :: |p| < i < |text| ==> text[i] == more[i - |p| - 1];
    assert forall i :: |q| < i < |text| ==> text[i] == rest[i - |q| - 1];
    assert text[|p|] == sep && text[|q|] == sep;
    assert p == text[..|p|] && q == text[..|q|];
    assert more == text[|p| + 1..] && rest == text[|q| + 1..];
  }

  function Forms(f: Subject): (text: string)
  {
    NormalForm(f.sourceSnippet) + "|" + NormalForm(f.sinkSnippet)
  }

  lemma SignatureSplits(f: Subject)
    ensures Signature(f) ==
            f.vulnerability + "|" + (f.source + "|" + (f.sink + "|" + (Forms(f) + "|" + Arrowed(f.steps))))
  {
  }

  lemma FieldsApart(f: Subject, g: Subject)
    requires Read(f) && Read(g) && Signature(f) == Signature(g)
    ensures f.vulnerability == g.vulnerability && f.source == g.source && f.sink == g.sink && f.steps == g.steps
    ensures Forms(f) == Forms(g)
  {
    SignatureSplits(f);
    SignatureSplits(g);
    var a, b := Forms(f) + "|" + Arrowed(f.steps), Forms(g) + "|" + Arrowed(g.steps);
    SplitAtFirst('|', f.vulnerability, g.vulnerability, f.source + "|" + (f.sink + "|" + a),
        g.source + "|" + (g.sink + "|" + b));
    SplitAtFirst('|', f.source, g.source, f.sink + "|" + a, g.sink + "|" + b);
    SplitAtFirst('|', f.sink, g.sink, a, b);
    HasArrow(f.steps);
    HasArrow(g.steps);
    SplitAtLast('|', Forms(f), Forms(g), Arrowed(f.steps), Arrowed(g.steps));
    StepsApart(f.steps, g.steps);
  }

  // ---------------------------------------------------------------- what a signature tells

  predicate SameShape(s: Snippet, t: Snippet)
  {
    s.Unparsable? == t.Unparsable? && SameStructure(Structure(s), Structure(t))
  }

  predicate SameKinds(f: Subject, g: Subject)
  {
    f.vulnerability == g.vulnerability && f.source == g.source && f.sink == g.sink && f.steps == g.steps
  }

  lemma ShapeIff(s: Snippet, t: Snippet)
    requires ReadSnippet(s) && ReadSnippet(t)
    ensures NormalForm(s) == NormalForm(t) <==> SameShape(s, t)
  {
    if NormalForm(s) == NormalForm(t) {
      NothingElseInvisible(s, t);
    }
    if SameShape(s, t) {
      RenamingInvisible(s, t);
    }
  }

  predicate BarShifted(f: Subject, g: Subject)
  {
    BarMoved(NormalForm(f.sourceSnippet), NormalForm(f.sinkSnippet), NormalForm(g.sourceSnippet),
        NormalForm(g.sinkSnippet))
  }

  // Two findings have one signature exactly when their kinds, steps and the structure of both snippets
  // agree, or else when one's source snippet is empty and the other's is a single bar.
  lemma SignatureIff(f: Subject, g: Subject)
    requires Read(f) && Read(g)
    ensures Signature(f) == Signature(g) <==>
            SameKinds(f, g)
            && ((SameShape(f.sourceSnippet, g.sourceSnippet) && SameShape(f.sinkSnippet, g.sinkSnippet))
                || BarShifted(f, g) || BarShifted(g, f))
  {
    ShapeIff(f.sourceSnippet, g.sourceSnippet);
    ShapeIff(f.sinkSnippet, g.sinkSnippet);
    FormBarsApart(f.sourceSnippet);
    FormBarsApart(f.sinkSnippet);
    FormBarsApart(g.sourceSnippet);
    FormBarsApart(g.sinkSnippet);
    FormsApart(NormalForm(f.sourceSnippet), NormalForm(f.sinkSnippet), NormalForm(g.sourceSnippet),
        NormalForm(g.sinkSnippet));
    SignatureSplits(f);
    SignatureSplits(g);
    if Signature(f) == Signature(g) {
      FieldsApart(f, g);
    }
  }

  // Such a pair: nothing and a bar against a bar and nothing.
  lemma BarCollision(kind: string)
    requires Plain(kind)
    ensures var bar := Tokenized([Token(Operator, "|")]);
            var f, g := Subject(kind, kind, kind, Blank, bar, []), Subject(kind, kind, kind, bar, Blank, []);
            Read(f) && Read(g) && Signature(f) == Signature(g) && !SameShape(f.sourceSnippet, g.sourceSnippet)
  {
    var bar := Tokenized([Token(Operator, "|")]);
    var f, g := Subject(kind, kind, kind, Blank, bar, []), Subject(kind, kind, kind, bar, Blank, []);
    assert Normalized(bar.tokens) == ["|"] + Normalized([]);
    assert Structure(bar) == [Item(Operator, "|", false)] + Items([], false);
    SignatureIff(f, g);
  }
}
