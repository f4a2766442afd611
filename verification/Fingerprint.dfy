/** The structural identity of a snippet: its tokens with names and literals blanked out. */
module Fingerprint {

  // Layout is every token that is neither operator, name nor literal: comments, line ends, indentation.
  datatype TokenKind = Operator | Identifier | Literal | Layout

  datatype Token = Token(kind: TokenKind, text: string)

  // What the tokenizer makes of a snippet.
  datatype Snippet = Blank | Unparsable | Tokenized(tokens: seq<Token>)

  const NAME := "_n_"
  const LITERAL := "_lit_"
  const UNPARSABLE := "_unparsable_"

  predicate Dot(t: Token)
  {
    t.kind.Operator? && t.text == "."
  }

  predicate AttributeAt(tokens: seq<Token>, i: nat)
  {
    i + 1 < |tokens| && Dot(tokens[i]) && tokens[i + 1].kind.Identifier?
  }

  // What a token contributes on its own.
  function Part(kind: TokenKind, text: string): (parts: seq<string>)
  {
    match kind
    case Operator => [text]
    case Identifier => [NAME]
    case Literal => [LITERAL]
    case Layout => []
  }

  // Attribute names survive, together with their dot; other names and all literals do not.
  function Normalized(tokens: seq<Token>): (parts: seq<string>)
    decreases |tokens|
  {
    if tokens == [] then []
    else if AttributeAt(tokens, 0) then ["." + tokens[1].text] + Normalized(tokens[2..])
    else Part(tokens[0].kind, tokens[0].text) + Normalized(tokens[1..])
  }

  function Joined(parts: seq<string>): (text: string)
  {
    if parts == [] then "" else if |parts| == 1 then parts[0] else parts[0] + " " + Joined(parts[1..])
  }

  function NormalForm(s: Snippet): (form: string)
  {
    match s
    case Blank => ""
    case Unparsable => UNPARSABLE
    case Tokenized(tokens) => Joined(Normalized(tokens))
  }

  // How far the loop moves on.
  function Width(tokens: seq<Token>, i: nat): (n: nat)
    requires i < |tokens|
    ensures 0 < n <= |tokens| - i
  {
    if AttributeAt(tokens, i) then 2 else 1
  }

  lemma NormalizedFrom(tokens: seq<Token>, i: nat)
    requires i < |tokens|
    ensures Normalized(tokens[i..]) ==
            (if AttributeAt(tokens, i) then ["." + tokens[i + 1].text] else Part(tokens[i].kind, tokens[i].text))
            + Normalized(tokens[i + Width(tokens, i)..])
  {
    var rest := tokens[i..];
    assert rest[0] == tokens[i] && rest[1..] == tokens[i + 1..];
    if AttributeAt(tokens, i) {
      assert rest[1] == tokens[i + 1] && rest[2..] == tokens[i + 2..];
    }
  }

  method NormalizeTokens(tokens: seq<Token>) returns (parts: seq<string>)
    ensures parts == Normalized(tokens)
  {
    parts := [];
    var i := 0;
    while i < |tokens|
      invariant 0 <= i <= |tokens|
      invariant Normalized(tokens) == parts + Normalized(tokens[i..])
    {
      NormalizedFrom(tokens, i);
      Regroup(parts,
              if AttributeAt(tokens, i) then ["." + tokens[i + 1].text] else Part(tokens[i].kind, tokens[i].text),
              Normalized(tokens[i + Width(tokens, i)..]));
      match tokens[i].kind {
        case Operator =>
          if tokens[i].text == "." && i + 1 < |tokens| && tokens[i + 1].kind.Identifier? {
            parts := parts + ["." + tokens[i + 1].text];
            i := i + 2;
            continue;
          }
          parts := parts + [tokens[i].text];
        case Identifier =>
          parts := parts + [NAME];
        case Literal =>
          parts := parts + [LITERAL];
        case Layout =>
      }
      i := i + 1;
    }
    assert tokens[i..] == [];
  }

  method NormalizeSnippet(s: Snippet) returns (form: string)
    ensures form == NormalForm(s)
  {
    match s {
      case Blank =>
        return "";
      case Unparsable =>
        return UNPARSABLE;
      case Tokenized(tokens) =>
        var parts := NormalizeTokens(tokens);
        form := Joined(parts);
    }
  }

  lemma Regroup(a: seq<string>, b: seq<string>, c: seq<string>)
    ensures a + (b + c) == (a + b) + c
    ensures b == [] ==> a + b == a
  {
  }

  // ---------------------------------------------------------------- the structure a form is of

  // A token that is not layout; attribute says that it is a name right after a dot.
  datatype Item = Item(kind: TokenKind, text: string, attribute: bool)

  function Items(tokens: seq<Token>, dotted: bool): (items: seq<Item>)
  {
    if tokens == [] then []
    else
      var t := tokens[0];
      var rest := Items(tokens[1..], Dot(t));
      if t.kind.Layout? then rest else [Item(t.kind, t.text, dotted && t.kind.Identifier?)] + rest
  }

  function Structure(s: Snippet): (items: seq<Item>)
  {
    if s.Tokenized? then Items(s.tokens, false) else []
  }

  // The same up to the spelling of literals and of names that do not follow a dot.
  predicate Alike(x: Item, y: Item)
  {
    x.kind == y.kind && x.attribute == y.attribute && (x.kind.Operator? || x.attribute ==> x.text == y.text)
  }

  predicate SameStructure(a: seq<Item>, b: seq<Item>)
  {
    |a| == |b| && forall i :: 0 <= i < |a| ==> Alike(a[i], b[i])
  }

  predicate DotItem(x: Item)
  {
    x.kind.Operator? && x.text == "."
  }

  predicate Merges(items: seq<Item>)
  {
    |items| > 1 && DotItem(items[0]) && items[1].attribute
  }

  function Parts(items: seq<Item>): (parts: seq<string>)
    decreases |items|
  {
    if items == [] then []
    else if Merges(items) then ["." + items[1].text] + Parts(items[2..])
    else Part(items[0].kind, items[0].text) + Parts(items[1..])
  }

  lemma {:induction false} FirstBare(tokens: seq<Token>)
    ensures var items := Items(tokens, false); items != [] ==> !items[0].attribute
  {
    if tokens != [] && tokens[0].kind.Layout? {
      FirstBare(tokens[1..]);
    }
  }

  lemma AttributeItems(tokens: seq<Token>)
    requires AttributeAt(tokens, 0)
    ensures var items := Items(tokens, false);
            Merges(items) && items[1].text == tokens[1].text && items[2..] == Items(tokens[2..], false)
  {
    var rest := Items(tokens[2..], false);
    assert tokens[1..][1..] == tokens[2..];
    assert Items(tokens[1..], true) == [Item(Identifier, tokens[1].text, true)] + rest;
    assert Items(tokens, false) == [Item(Operator, ".", false)] + Items(tokens[1..], true);
  }

  lemma {:induction false} NormalizedIsParts(tokens: seq<Token>)
    ensures Normalized(tokens) == Parts(Items(tokens, false))
    decreases |tokens|
  {
    if tokens != [] {
      var items := Items(tokens, false);
      if AttributeAt(tokens, 0) {
        NormalizedIsParts(tokens[2..]);
        AttributeItems(tokens);
      } else {
        NormalizedIsParts(tokens[1..]);
        FirstBare(tokens[1..]);
        if !tokens[0].kind.Layout? {
          assert items[1..] == Items(tokens[1..], false);
        }
      }
    }
  }

  // ---------------------------------------------------------------- lexical shape

  predicate Word(p: string)
  {
    p != "" && ' ' !in p
  }

  // ! % & ( ) * + , - . / : ; < = > @ [ ] ^ { | } ~
  predicate OperatorChar(c: char)
  {
    || c == '!' || '%' <= c <= '&' || '(' <= c <= '/' || ':' <= c <= '>' || c == '@' || c == '['
    || ']' <= c <= '^' || '{' <= c <= '~'
  }

  predicate LexedToken(kind: TokenKind, text: string)
  {
    match kind
    case Operator => text != "" && forall c :: c in text ==> OperatorChar(c)
    case Identifier => text != "" && !OperatorChar(text[0]) && ' ' !in text
    case _ => true
  }

  // Operators are made of operator characters; names hold no blank and begin with another character.
  predicate Lexed(tokens: seq<Token>)
  {
    forall i :: 0 <= i < |tokens| ==> LexedToken(tokens[i].kind, tokens[i].text)
  }

  predicate LexedItem(x: Item)
  {
    !x.kind.Layout? && LexedToken(x.kind, x.text)
  }

  // An attribute name is a name right after a dot; dotted says whether a dot stands before the first item.
  predicate LexedAt(items: seq<Item>, i: nat, dotted: bool)
    requires i < |items|
  {
    && LexedItem(items[i])
    && (items[i].attribute ==> items[i].kind.Identifier? && if i == 0 then dotted else DotItem(items[i - 1]))
  }

  predicate LexedItems(items: seq<Item>, dotted: bool)
  {
    forall i :: 0 <= i < |items| ==> LexedAt(items, i, dotted)
  }

  lemma ItemThenLexed(x: Item, rest: seq<Item>, dotted: bool)
    requires LexedItem(x) && (x.attribute ==> x.kind.Identifier? && dotted) && LexedItems(rest, DotItem(x))
    ensures LexedItems([x] + rest, dotted)
  {
    forall i | 0 < i <= |rest|
      ensures LexedAt([x] + rest, i, dotted)
    {
      assert LexedAt(rest, i - 1, DotItem(x));
    }
  }

  lemma {:induction false} ItemsLexed(tokens: seq<Token>, dotted: bool)
    requires Lexed(tokens)
    ensures LexedItems(Items(tokens, dotted), dotted)
  {
    if tokens != [] {
      assert forall i :: 0 <= i < |tokens| - 1 ==> tokens[1..][i] == tokens[i + 1];
      ItemsLexed(tokens[1..], Dot(tokens[0]));
      var t, rest := tokens[0], Items(tokens[1..], Dot(tokens[0]));
      if t.kind.Layout? {
        assert forall i :: 0 <= i < |rest| && LexedAt(rest, i, false) ==> LexedAt(rest, i, dotted);
      } else {
        ItemThenLexed(Item(t.kind, t.text, dotted && t.kind.Identifier?), rest, dotted);
      }
    }
  }

  // The items after those that make up the first part.
  function AfterFirst(items: seq<Item>): (rest: seq<Item>)
    requires items != []
  {
    if Merges(items) then items[2..] else items[1..]
  }

  lemma TailLexed(items: seq<Item>)
    requires LexedItems(items, false) && items != []
    ensures LexedItems(AfterFirst(items), false)
  {
    var k := if Merges(items) then 2 else 1;
    forall i | 0 <= i < |items| - k
      ensures LexedAt(items[k..], i, false)
    {
      assert LexedAt(items, i + k, false) && LexedAt(items, k - 1, false);
    }
  }

  // What a part gives away about what is behind it: the kind of item, and whether an attribute name is with it.
  function Reading(p: string): (reading: (TokenKind, bool))
  {
    if p != "" && OperatorChar(p[0]) then (Operator, |p| > 1 && !OperatorChar(p[1]))
    else (if p == NAME then Identifier else Literal, false)
  }

  lemma FirstPart(items: seq<Item>)
    requires items != [] && LexedItems(items, false)
    ensures Parts(items) != [] && Parts(items)[1..] == Parts(AfterFirst(items))
    ensures var p := Parts(items)[0];
            && Word(p) && p != UNPARSABLE && Reading(p) == (items[0].kind, Merges(items))
            && (items[0].kind.Operator? ==> p == if Merges(items) then "." + items[1].text else items[0].text)
  {
    assert NAME[0] == LITERAL[0] == UNPARSABLE[0] == '_' && NAME[1] == 'n' && LITERAL[1] == 'l' && UNPARSABLE[1] == 'u';
    assert LexedAt(items, 0, false);
    if Merges(items) {
      assert LexedAt(items, 1, false);
    } else if items[0].kind.Operator? {
      var p := items[0].text;
      assert p[0] in p && (|p| > 1 ==> p[1] in p);
    }
  }

  lemma HeadsAgree(a: seq<Item>, b: seq<Item>)
    requires a != [] && b != [] && LexedItems(a, false) && LexedItems(b, false)
    requires Parts(a) != [] && Parts(b) != [] && Parts(a)[0] == Parts(b)[0]
    ensures Merges(a) <==> Merges(b)
    ensures Alike(a[0], b[0]) && (Merges(a) ==> Alike(a[1], b[1]))
  {
    FirstPart(a);
    FirstPart(b);
    assert LexedAt(a, 0, false) && LexedAt(b, 0, false);
    if Merges(a) {
      assert LexedAt(a, 1, false) && LexedAt(b, 1, false);
      assert a[1].text == ("." + a[1].text)[1..] && b[1].text == ("." + b[1].text)[1..];
    }
  }

  // ---------------------------------------------------------------- what the parts tell

  lemma {:induction false} SameStructureSameParts(a: seq<Item>, b: seq<Item>)
    requires SameStructure(a, b)
    ensures Parts(a) == Parts(b)
    decreases |a|
  {
    if a != [] {
      assert Alike(a[0], b[0]);
      if Merges(a) {
        assert Alike(a[1], b[1]);
        SameStructureSameParts(a[2..], b[2..]);
      } else {
        assert |a| > 1 ==> Alike(a[1], b[1]);
        SameStructureSameParts(a[1..], b[1..]);
      }
    }
  }

  lemma {:induction false} SamePartsSameStructure(a: seq<Item>, b: seq<Item>)
    requires LexedItems(a, false) && LexedItems(b, false) && Parts(a) == Parts(b)
    ensures SameStructure(a, b)
    decreases |a|
  {
    if a == [] || b == [] {
      if a != [] {
        FirstPart(a);
      }
      if b != [] {
        FirstPart(b);
      }
    } else {
      FirstPart(a);
      FirstPart(b);
      HeadsAgree(a, b);
      TailLexed(a);
      TailLexed(b);
      SamePartsSameStructure(AfterFirst(a), AfterFirst(b));
      var k := if Merges(a) then 2 else 1;
      forall i | 0 <= i < |a|
        ensures Alike(a[i], b[i])
      {
        if i >= k {
          assert a[i] == AfterFirst(a)[i - k] && b[i] == AfterFirst(b)[i - k];
        }
      }
    }
  }

  // ---------------------------------------------------------------- joining with blanks

  predicate Words(parts: seq<string>)
  {
    forall k :: 0 <= k < |parts| ==> Word(parts[k])
  }

  lemma FirstMark(sep: char, p: string, more: string)
    requires sep !in p
    ensures var text := p + [sep] + more; text[|p|] == sep && forall i :: 0 <= i < |p| ==> text[i] != sep
  {
    assert forall i :: 0 <= i < |p| ==> (p + [sep] + more)[i] == p[i];
  }

  // What stands before the first separator, and what after it.
  lemma SplitAtFirst(sep: char, p: string, q: string, more: string, rest: string)
    requires sep !in p && sep !in q && p + [sep] + more == q + [sep] + rest
    ensures p == q && more == rest
  {
    var text := p + [sep] + more;
    FirstMark(sep, p, more);
    FirstMark(sep, q, rest);
    assert p == text[..|p|] && q == text[..|q|];
    assert more == text[|p| + 1..] && rest == text[|q| + 1..];
  }

  lemma HasBlank(parts: seq<string>)
    requires Words(parts) && parts != []
    ensures ' ' in Joined(parts) <==> |parts| > 1
  {
    assert Word(parts[0]);
    if |parts| > 1 {
      FirstMark(' ', parts[0], Joined(parts[1..]));
    }
  }

  lemma {:induction false} WordsApart(a: seq<string>, b: seq<string>)
    requires Words(a) && Words(b) && Joined(a) == Joined(b)
    ensures a == b
    decreases |a|
  {
    if a != [] && b != [] {
      assert Word(a[0]) && Word(b[0]);
      HasBlank(a);
      HasBlank(b);
      if |a| > 1 {
        SplitAtFirst(' ', a[0], b[0], Joined(a[1..]), Joined(b[1..]));
        WordsApart(a[1..], b[1..]);
        assert a == [a[0]] + a[1..] && b == [b[0]] + b[1..];
      }
    }
  }

  lemma {:induction false} PartsAreWords(items: seq<Item>)
    requires LexedItems(items, false)
    ensures Words(Parts(items)) && UNPARSABLE !in Parts(items)
    decreases |items|
  {
    if items != [] {
      FirstPart(items);
      TailLexed(items);
      PartsAreWords(AfterFirst(items));
      assert Parts(items) == [Parts(items)[0]] + Parts(items)[1..];
    }
  }

  // ---------------------------------------------------------------- what the normal form identifies

  predicate LexedSnippet(s: Snippet)
  {
    s.Tokenized? ==> Lexed(s.tokens)
  }

  lemma FormOfParts(s: Snippet)
    requires LexedSnippet(s)
    ensures LexedItems(Structure(s), false) && Words(Parts(Structure(s))) && UNPARSABLE !in Parts(Structure(s))
    ensures !s.Unparsable? ==> NormalForm(s) == Joined(Parts(Structure(s)))
  {
    if s.Tokenized? {
      ItemsLexed(s.tokens, false);
      NormalizedIsParts(s.tokens);
    }
    PartsAreWords(Structure(s));
  }

  // Layout, literals, and names not right after a dot do not show.
  lemma RenamingInvisible(s: Snippet, t: Snippet)
    requires s.Unparsable? == t.Unparsable? && SameStructure(Structure(s), Structure(t))
    ensures NormalForm(s) == NormalForm(t)
  {
    if s.Tokenized? {
      NormalizedIsParts(s.tokens);
    }
    if t.Tokenized? {
      NormalizedIsParts(t.tokens);
    }
    SameStructureSameParts(Structure(s), Structure(t));
  }

  // And nothing else is invisible: equal normal forms mean the same structure.
  lemma NothingElseInvisible(s: Snippet, t: Snippet)
    requires LexedSnippet(s) && LexedSnippet(t) && NormalForm(s) == NormalForm(t)
    ensures s.Unparsable? == t.Unparsable? && SameStructure(Structure(s), Structure(t))
  {
    FormOfParts(s);
    FormOfParts(t);
    if s.Unparsable? != t.Unparsable? {
      var parts := Parts(Structure(if s.Unparsable? then t else s));
      assert Words([UNPARSABLE]) && Joined([UNPARSABLE]) == UNPARSABLE;
      WordsApart(parts, [UNPARSABLE]);
      assert false;
    }
    if !s.Unparsable? {
      WordsApart(Parts(Structure(s)), Parts(Structure(t)));
    }
    SamePartsSameStructure(Structure(s), Structure(t));
  }

  // What shows of one token, of an attribute name, and of a snippet that is blank, without tokens or unreadable.
  lemma FormOfOne(t: Token)
    ensures NormalForm(Tokenized([t])) ==
            match t.kind
            case Operator => t.text
            case Identifier => "_n_"
            case Literal => "_lit_"
            case Layout => ""
    ensures NormalForm(Blank) == NormalForm(Tokenized([])) == "" && NormalForm(Unparsable) == "_unparsable_"
  {
    var part := Part(t.kind, t.text);
    assert [t][1..] == [] && Normalized([t]) == part + [] == part;
  }

  lemma FormOfAttribute(name: string)
    ensures NormalForm(Tokenized([Token(Operator, "."), Token(Identifier, name)])) == "." + name
  {
    var tokens := [Token(Operator, "."), Token(Identifier, name)];
    assert tokens[2..] == [] && AttributeAt(tokens, 0);
    assert Normalized(tokens) == ["." + name] + [] == ["." + name];
  }

  // Parts are set apart by one blank each.
  lemma JoinedByBlanks(first: string, second: string, rest: seq<string>)
    ensures Joined([first]) == first && Joined([first, second] + rest) == first + " " + Joined([second] + rest)
  {
    assert ([first, second] + rest)[1..] == [second] + rest;
  }
}
