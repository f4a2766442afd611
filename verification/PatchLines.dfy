/**
 Applying a line-anchored patch: the anchor line, and the deeper-indented lines that continue it, are
 replaced; every other line survives. Text is split into lines with their terminators kept.
 */
module PatchLines {
  import opened Wrappers

  // ---------------------------------------------------------------- lines

  predicate IsBreak(c: char)
  {
    c == '\n' || c == '\r' || c == '\U{B}' || c == '\U{C}' || '\U{1C}' <= c <= '\U{1E}' ||
    c == '\U{85}' || c == '\U{2028}' || c == '\U{2029}'
  }

  // How many characters the first line takes up, its terminator included.
  function LineEnd(s: string): (k: nat)
    requires s != ""
    ensures 1 <= k <= |s|
  {
    if s[0] == '\r' && |s| > 1 && s[1] == '\n' then 2
    else if IsBreak(s[0]) || |s| == 1 then 1
    else 1 + LineEnd(s[1..])
  }

  function SplitLines(s: string): (r: seq<string>)
  {
    if s == "" then [] else [s[..LineEnd(s)]] + SplitLines(s[LineEnd(s)..])
  }

  function Join(lines: seq<string>): (r: string)
  {
    if lines == [] then "" else lines[0] + Join(lines[1..])
  }

  lemma {:induction false} JoinAppend(a: seq<string>, b: seq<string>)
    ensures Join(a + b) == Join(a) + Join(b)
  {
    if a == [] {
      assert a + b == b;
      assert "" + Join(b) == Join(b);
    } else {
      assert (a + b)[1..] == a[1..] + b;
      JoinAppend(a[1..], b);
      Associate(a[0], Join(a[1..]), Join(b));
    }
  }

  lemma Associate(a: string, b: string, c: string)
    ensures a + (b + c) == a + b + c
  {
  }

  // Splitting loses nothing.
  lemma {:induction false} JoinSplit(s: string)
    ensures Join(SplitLines(s)) == s
    decreases |s|
  {
    if s != "" {
      var k := LineEnd(s);
      JoinSplit(s[k..]);
      assert SplitLines(s)[1..] == SplitLines(s[k..]);
      assert s[..k] + s[k..] == s;
    }
  }

  // The text ends with a terminator that the next character does not complete.
  predicate Seals(x: string, y: string)
  {
    x == "" || y == "" || (IsBreak(x[|x| - 1]) && !(x[|x| - 1] == '\r' && y[0] == '\n'))
  }

  lemma {:induction false} LineEndAppend(x: string, y: string)
    requires x != "" && Seals(x, y)
    ensures LineEnd(x + y) == LineEnd(x)
    decreases |x|
  {
    if |x| > 1 {
      assert (x + y)[1..] == x[1..] + y;
      LineEndAppend(x[1..], y);
    } else {
      assert y == "" ==> x + y == x;
    }
  }

  // Sealed texts split independently.
  lemma {:induction false} SplitAppend(x: string, y: string)
    requires Seals(x, y)
    ensures SplitLines(x + y) == SplitLines(x) + SplitLines(y)
    decreases |x|
  {
    if x == "" {
      assert x + y == y;
    } else {
      var k := LineEnd(x);
      LineEndAppend(x, y);
      assert (x + y)[..k] == x[..k] && (x + y)[k..] == x[k..] + y;
      SplitAppend(x[k..], y);
    }
  }

  // A line ends where it must, and the rest of the text cannot run into it.
  lemma {:induction false} LineSeals(s: string)
    requires s != ""
    ensures Seals(s[..LineEnd(s)], s[LineEnd(s)..])
    ensures SplitLines(s[..LineEnd(s)]) == [s[..LineEnd(s)]]
    decreases |s|
  {
    var k := LineEnd(s);
    if k > 1 && !(s[0] == '\r' && s[1] == '\n') {
      LineSeals(s[1..]);
      assert s[1..][..k - 1] == s[..k][1..] && s[1..][k - 1..] == s[k..];
    }
    LineAlone(s);
  }

  lemma {:induction false} LineAlone(s: string)
    requires s != ""
    ensures LineEnd(s[..LineEnd(s)]) == LineEnd(s)
    ensures SplitLines(s[..LineEnd(s)]) == [s[..LineEnd(s)]]
    decreases |s|
  {
    var k := LineEnd(s);
    var line := s[..k];
    if k > 1 && !(s[0] == '\r' && s[1] == '\n') {
      LineAlone(s[1..]);
      assert s[1..][..k - 1] == line[1..];
    }
    assert line[..k] == line && line[k..] == "";
  }

  // The text before and from line i on: two parts that split independently.
  lemma {:induction false} SplitAt(s: string, i: nat) returns (n: nat)
    requires i <= |SplitLines(s)|
    ensures n <= |s| && SplitLines(s[..n]) == SplitLines(s)[..i] && SplitLines(s[n..]) == SplitLines(s)[i..]
    ensures Seals(s[..n], s[n..])
    decreases |s|
  {
    if i == 0 {
      n := 0;
      assert s[..0] == "" && s[0..] == s;
    } else {
      var k := LineEnd(s);
      var m := SplitAt(s[k..], i - 1);
      n := k + m;
      LineSeals(s);
      LastSeals(s, k, m);
      SplitAppend(s[..k], s[k..][..m]);
      Shift(s, k, m);
      Drop(s[..k], SplitLines(s[k..]), i);
    }
  }

  lemma Shift(s: string, k: nat, m: nat)
    requires k + m <= |s|
    ensures s[..k + m] == s[..k] + s[k..][..m] && s[k + m..] == s[k..][m..]
  {
  }

  lemma Drop(head: string, tail: seq<string>, i: nat)
    requires 0 < i <= |tail| + 1
    ensures ([head] + tail)[..i] == [head] + tail[..i - 1] && ([head] + tail)[i..] == tail[i - 1..]
  {
  }

  lemma LastSeals(s: string, k: nat, m: nat)
    requires k <= |s| && m <= |s[k..]| && k > 0
    requires Seals(s[..k], s[k..]) && Seals(s[k..][..m], s[k..][m..])
    ensures Seals(s[..k], s[k..][..m]) && Seals(s[..k + m], s[k + m..])
  {
    assert s[k..][m..] == s[k + m..];
  }

  // ---------------------------------------------------------------- the patch

  function Rstrip(line: string): (r: string)
  {
    if line != "" && (line[|line| - 1] == '\n' || line[|line| - 1] == '\r') then Rstrip(line[..|line| - 1])
    else line
  }

  function Indent(line: string): (k: nat)
    ensures k <= |line|
  {
    if line != "" && (line[0] == ' ' || line[0] == '\t') then 1 + Indent(line[1..]) else 0
  }

  // The characters Python strips.
  predicate IsSpace(c: char)
  {
    || c == ' ' || '\t' <= c <= '\r' || '\U{1C}' <= c <= '\U{1F}' || c == '\U{85}' || c == '\U{A0}'
    || c == '\U{1680}' || '\U{2000}' <= c <= '\U{200A}' || '\U{2028}' <= c <= '\U{2029}' || c == '\U{202F}'
    || c == '\U{205F}' || c == '\U{3000}'
  }

  function Strip(s: string): (r: string)
    decreases |s|
  {
    if s != "" && IsSpace(s[0]) then Strip(s[1..])
    else if s != "" && IsSpace(s[|s| - 1]) then Strip(s[..|s| - 1])
    else s
  }

  predicate ClosingBracket(line: string)
  {
    Strip(line) == ")" || Strip(line) == "]" || Strip(line) == "}"
  }

  // A line that continues a statement indented this far.
  predicate Continues(line: string, indent: nat)
  {
    Rstrip(line) != "" && Indent(Rstrip(line)) > indent
  }

  predicate Closes(line: string, indent: nat)
  {
    Rstrip(line) != "" && Indent(Rstrip(line)) == indent && ClosingBracket(Rstrip(line))
  }

  // Where the run of continuing lines from line i on ends: one closing bracket belongs to it.
  function RunEnd(lines: seq<string>, i: nat, indent: nat): (end: nat)
    requires i <= |lines|
    ensures i <= end <= |lines|
    decreases |lines| - i
  {
    if i == |lines| then i
    else if Continues(lines[i], indent) then RunEnd(lines, i + 1, indent)
    else if Closes(lines[i], indent) then i + 1
    else i
  }

  // The replacement's lines, the last one made to end.
  function NewLines(after: string): (r: seq<string>)
  {
    var lines := SplitLines(after);
    if lines == [] then []
    else
      var last := lines[|lines| - 1];
      if last != "" && (last[|last| - 1] == '\n' || last[|last| - 1] == '\r') then lines
      else lines[..|lines| - 1] + [last + "\n"]
  }

  datatype Proposal = Proposal(
    automatic: bool, line: int, before: string, after: string, importToAdd: Option<string>)

  datatype PatchError = NoAutomaticFix | LineOutside | SourceChanged | DoesNotParse

  // What the parser makes of a source: whether it parses, and after how many lines an import belongs.
  datatype Parser = Parser(parses: string -> bool, importAt: string -> nat)

  function Spliced(p: Proposal, lines: seq<string>): (r: seq<string>)
    requires 0 < p.line <= |lines|
  {
    var idx := p.line - 1;
    var end := RunEnd(lines, idx + 1, Indent(Rstrip(lines[idx])));
    lines[..idx] + NewLines(p.after) + lines[end..]
  }

  function InsertImport(source: string, importLine: string, parser: Parser): (r: string)
  {
    if !parser.parses(source) then source
    else
      var lines := SplitLines(source);
      var at := ImportLine(source, parser);
      Join(lines[..at] + [importLine + "\n"] + lines[at..])
  }

  function Patched(p: Proposal, source: string, parser: Parser): (r: Result<string, PatchError>)
  {
    var lines := SplitLines(source);
    if !p.automatic then Err(NoAutomaticFix)
    else if p.line <= 0 || p.line > |lines| then Err(LineOutside)
    else if Rstrip(lines[p.line - 1]) != p.before then Err(SourceChanged)
    else
      var text := Join(Spliced(p, lines));
      var result := if p.importToAdd.Some? then InsertImport(text, p.importToAdd.value, parser) else text;
      if parser.parses(result) then Ok(result) else Err(DoesNotParse)
  }

  // Why a patch is refused: there is none, its line is not in the file, the line has changed, or the outcome does not
  // parse.
  lemma PatchRefused(p: Proposal, source: string, parser: Parser)
    ensures var r, lines := Patched(p, source, parser), SplitLines(source);
            var anchored := p.automatic && 0 < p.line <= |lines| && Rstrip(lines[p.line - 1]) == p.before;
            && (r == Err(NoAutomaticFix) <==> !p.automatic)
            && (r == Err(LineOutside) <==> p.automatic && !(0 < p.line <= |lines|))
            && (r == Err(SourceChanged) <==> p.automatic && 0 < p.line <= |lines| && !anchored)
            && (r.Ok? || r == Err(DoesNotParse) <==> anchored)
            && (r.Ok? ==> parser.parses(r.value))
            && (r == Err(DoesNotParse) && p.importToAdd.None? ==> !parser.parses(Join(Spliced(p, lines))))
  {
  }

  method ApplyProposal(p: Proposal, source: string, parser: Parser) returns (r: Result<string, PatchError>)
    ensures r == Patched(p, source, parser)
  {
    if !p.automatic {
      return Err(NoAutomaticFix);
    }
    var lines := SplitLines(source);
    var idx := p.line - 1;
    if idx < 0 || idx >= |lines| {
      return Err(LineOutside);
    }
    var current := Rstrip(lines[idx]);
    if current != p.before {
      return Err(SourceChanged);
    }
    var endIdx := EndOfRun(lines, idx, Indent(current));
    var newLines := SplitLines(p.after);
    if newLines != [] {
      var last := newLines[|newLines| - 1];
      if !(last != "" && (last[|last| - 1] == '\n' || last[|last| - 1] == '\r')) {
        newLines := newLines[..|newLines| - 1] + [last + "\n"];
      }
    }
    lines := lines[..idx] + newLines + lines[endIdx..];
    var newSource := Join(lines);
    if p.importToAdd.Some? {
      newSource := InsertImport(newSource, p.importToAdd.value, parser);
    }
    if !parser.parses(newSource) {
      return Err(DoesNotParse);
    }
    r := Ok(newSource);
  }

  method EndOfRun(lines: seq<string>, idx: nat, startIndent: nat) returns (endIdx: nat)
    requires idx < |lines|
    ensures endIdx == RunEnd(lines, idx + 1, startIndent)
  {
    endIdx := idx + 1;
    while endIdx < |lines|
      invariant idx + 1 <= endIdx <= |lines|
      invariant RunEnd(lines, endIdx, startIndent) == RunEnd(lines, idx + 1, startIndent)
    {
      var nxt := Rstrip(lines[endIdx]);
      if nxt == "" {
        return;
      }
      var nxtIndent := Indent(nxt);
      if nxtIndent > startIndent {
        endIdx := endIdx + 1;
        continue;
      }
      if nxtIndent == startIndent && ClosingBracket(nxt) {
        return endIdx + 1;
      }
      return;
    }
  }

  // ---------------------------------------------------------------- the frame

  predicate Deeper(line: string, indent: nat)
  {
    var text := Rstrip(line);
    text != "" && Indent(text) > indent
  }

  predicate Bracket(line: string, indent: nat)
  {
    var text := Rstrip(line);
    text != "" && Indent(text) == indent && ClosingBracket(text)
  }

  // The replaced run: deeper-indented lines, and at most one closing bracket at the anchor's own
  // indentation, which is the last; the line after it would not have been taken.
  lemma {:induction false} RunShape(lines: seq<string>, i: nat, indent: nat)
    requires i <= |lines|
    ensures var end := RunEnd(lines, i, indent);
            (forall k :: i <= k < end - 1 ==> Deeper(lines[k], indent)) &&
            (end > i ==> Deeper(lines[end - 1], indent) || Bracket(lines[end - 1], indent)) &&
            (end < |lines| ==>
               (!Deeper(lines[end], indent) && !Bracket(lines[end], indent)) ||
               (end > i && Bracket(lines[end - 1], indent)))
    decreases |lines| - i
  {
    if i < |lines| && Continues(lines[i], indent) {
      RunShape(lines, i + 1, indent);
    }
  }

  // The replacement's text is the proposal's, ended with a newline where it had no end.
  lemma NewLinesText(after: string)
    ensures Join(NewLines(after)) == after + Ending(after)
  {
    JoinSplit(after);
    var lines := SplitLines(after);
    if after == "" {
      assert Join(NewLines(after)) == "";
    } else {
      LastLine(after);
      if Ending(after) == "" {
        assert after + "" == after;
      } else {
        ExtendLast(lines, "\n");
      }
    }
  }

  // What is added to end a replacement that has no end.
  function Ending(after: string): (r: string)
  {
    if after == "" || after[|after| - 1] == '\n' || after[|after| - 1] == '\r' then "" else "\n"
  }

  lemma ExtendLast(lines: seq<string>, end: string)
    requires lines != []
    ensures Join(lines[..|lines| - 1] + [lines[|lines| - 1] + end]) == Join(lines) + end
  {
    var front, last := lines[..|lines| - 1], lines[|lines| - 1];
    assert lines == front + [last];
    JoinAppend(front, [last]);
    JoinAppend(front, [last + end]);
    JoinOne(last);
    JoinOne(last + end);
    Associate(Join(front), last, end);
  }

  lemma JoinOne(line: string)
    ensures Join([line]) == line
  {
    assert Join([line]) == line + Join([line][1..]);
  }

  // A text ends the way its last line does.
  lemma {:induction false} LastLine(s: string)
    requires s != ""
    ensures SplitLines(s) != []
    ensures var last := SplitLines(s)[|SplitLines(s)| - 1]; last != "" && last[|last| - 1] == s[|s| - 1]
    decreases |s|
  {
    var k := LineEnd(s);
    if k < |s| {
      LastLine(s[k..]);
      LastOfTwo(s[..k], SplitLines(s[k..]));
    }
  }

  lemma LastOfTwo(first: string, rest: seq<string>)
    requires rest != []
    ensures ([first] + rest)[|[first] + rest| - 1] == rest[|rest| - 1]
  {
  }

  // The middle of the file and its surroundings: three stretches of the source, split independently.
  lemma Stretches(source: string, i: nat, j: nat) returns (n: nat, m: nat)
    requires i <= j <= |SplitLines(source)|
    ensures n <= m <= |source|
    ensures SplitLines(source[..n]) == SplitLines(source)[..i] && SplitLines(source[n..]) == SplitLines(source)[i..]
    ensures SplitLines(source[m..]) == SplitLines(source)[j..]
    ensures Join(SplitLines(source)[..i]) == source[..n] && Join(SplitLines(source)[j..]) == source[m..]
    ensures Seals(source[..n], source[n..]) && (i < |SplitLines(source)| ==> n < |source|)
  {
    n := SplitAt(source, i);
    var rest := source[n..];
    var k := SplitAt(rest, j - i);
    m := n + k;
    assert rest[k..] == source[m..];
    assert SplitLines(source)[i..][j - i..] == SplitLines(source)[j..];
    JoinSplit(source[..n]);
    JoinSplit(source[m..]);
  }

  // A patch without an import: the anchor line is the expected one, everything before it and everything
  // after the replaced run is kept character for character, and the replacement stands in between.
  lemma PatchFrame(p: Proposal, source: string, parser: Parser) returns (n: nat, m: nat)
    requires Patched(p, source, parser).Ok? && p.importToAdd.None?
    ensures var lines := SplitLines(source);
            0 < p.line <= |lines| && Rstrip(lines[p.line - 1]) == p.before && n <= m <= |source| &&
            SplitLines(source[..n]) == lines[..p.line - 1] &&
            SplitLines(source[m..]) == lines[RunEnd(lines, p.line, Indent(p.before))..] &&
            Patched(p, source, parser).value == source[..n] + Join(NewLines(p.after)) + source[m..]
    ensures n < |source| && Seals(source[..n], source[n..])
  {
    var lines := SplitLines(source);
    var idx := p.line - 1;
    var end := RunEnd(lines, idx + 1, Indent(p.before));
    n, m := Stretches(source, idx, end);
    JoinAppend(lines[..idx] + NewLines(p.after), lines[end..]);
    JoinAppend(lines[..idx], NewLines(p.after));
  }

  // With an import, the same text has one line more, put where the parser says, or at the end of a shorter text.
  lemma ImportFrame(p: Proposal, source: string, parser: Parser) returns (q: nat)
    requires Patched(p, source, parser).Ok? && p.importToAdd.Some?
    ensures var text := Join(Spliced(p, SplitLines(source)));
            q <= |text| && SplitLines(text[..q]) + SplitLines(text[q..]) == SplitLines(text) &&
            |SplitLines(text[..q])| == Least(parser.importAt(text), |SplitLines(text)|) &&
            Patched(p, source, parser).value ==
            if parser.parses(text) then text[..q] + (p.importToAdd.value + "\n") + text[q..] else text
  {
    q := InsertedLine(Join(Spliced(p, SplitLines(source))), p.importToAdd.value, parser);
  }

  function Least(a: nat, b: nat): (r: nat)
    ensures r <= a && r <= b && (r == a || r == b)
  {
    if a < b then a else b
  }

  function ImportLine(source: string, parser: Parser): (at: nat)
    ensures at <= |SplitLines(source)|
  {
    if parser.importAt(source) <= |SplitLines(source)| then parser.importAt(source) else |SplitLines(source)|
  }

  lemma InsertedLine(text: string, importLine: string, parser: Parser) returns (q: nat)
    ensures q <= |text| && SplitLines(text[..q]) + SplitLines(text[q..]) == SplitLines(text)
    ensures |SplitLines(text[..q])| == Least(parser.importAt(text), |SplitLines(text)|)
    ensures InsertImport(text, importLine, parser) ==
            if parser.parses(text) then text[..q] + (importLine + "\n") + text[q..] else text
  {
    var at := ImportLine(text, parser);
    q := SplitAt(text, at);
    Rejoined(text, q, at, importLine + "\n");
    assert SplitLines(text) == SplitLines(text)[..at] + SplitLines(text)[at..];
  }

  lemma Rejoined(text: string, q: nat, at: nat, line: string)
    requires q <= |text| && at <= |SplitLines(text)|
    requires SplitLines(text[..q]) == SplitLines(text)[..at] && SplitLines(text[q..]) == SplitLines(text)[at..]
    ensures Join(SplitLines(text)[..at] + [line] + SplitLines(text)[at..]) == text[..q] + line + text[q..]
  {
    JoinSplit(text[..q]);
    JoinSplit(text[q..]);
    JoinBetween(SplitLines(text)[..at], line, SplitLines(text)[at..]);
  }

  lemma JoinBetween(a: seq<string>, line: string, b: seq<string>)
    ensures Join(a + [line] + b) == Join(a) + line + Join(b)
  {
    JoinAppend(a + [line], b);
    JoinAppend(a, [line]);
    JoinOne(line);
  }

  // ---------------------------------------------------------------- applying twice

  // However the text goes on, its first line stays the first, at most completed by a newline.
  lemma {:induction false} FirstLineKept(after: string, z: string)
    requires after != ""
    requires z == "" || after[|after| - 1] == '\n' || after[|after| - 1] == '\r' || z[0] == '\n'
    ensures var line := after[..LineEnd(after)];
            var first := (after + z)[..LineEnd(after + z)];
            first == line || first == line + "\n"
    decreases |after|
  {
    if z == "" {
      assert after + z == after;
    } else if |after| > 1 && !(after[0] == '\r' && after[1] == '\n') && !IsBreak(after[0]) {
      FirstLineKept(after[1..], z);
      assert (after + z)[1..] == after[1..] + z;
      var k, l := LineEnd(after), LineEnd(after + z);
      assert after[..k] == [after[0]] + after[1..][..k - 1];
      assert (after + z)[..l] == [after[0]] + (after + z)[1..][..l - 1];
    } else if |after| == 1 {
      SingleFirst(after, z);
    } else {
      assert (after + z)[0] == after[0] && (after + z)[1] == after[1];
      assert LineEnd(after + z) == LineEnd(after);
      assert (after + z)[..LineEnd(after)] == after[..LineEnd(after)];
    }
  }

  lemma SingleFirst(after: string, z: string)
    requires |after| == 1 && z != "" && (after[0] == '\n' || after[0] == '\r' || z[0] == '\n')
    ensures var first := (after + z)[..LineEnd(after + z)]; first == after || first == after + "\n"
  {
    var s := after + z;
    assert s[1..] == z && s[0] == after[0] && s[1] == z[0];
    assert LineEnd(z) == 1 || z[0] != '\n';
    assert s[..1] == after;
    assert z[0] == '\n' ==> s[..2] == after + "\n";
  }

  lemma RstripNewline(line: string)
    ensures Rstrip(line + "\n") == Rstrip(line)
  {
    assert (line + "\n")[..|line|] == line;
  }

  // Unless the line before the anchor ends in a bare return that the replacement's first character
  // completes, a patch whose first line differs from the anchor is refused when applied again.
  lemma SecondApplicationRefused(p: Proposal, source: string, parser: Parser)
    requires Patched(p, source, parser).Ok? && p.importToAdd.None? && p.after != ""
    requires Rstrip(SplitLines(p.after)[0]) != p.before
    requires p.after[0] == '\n' && p.line > 1 ==>
               var above := SplitLines(source)[p.line - 2]; above != "" && above[|above| - 1] != '\r'
    ensures Patched(p, Patched(p, source, parser).value, parser) == Err(SourceChanged)
  {
    var n, m := PatchFrame(p, source, parser);
    var z := Ending(p.after) + source[m..];
    SplicedText(source[..n], p.after, source[m..]);
    PrefixOf(p.after, z);
    SealsAbove(p, source, n, p.after + z);
    AnchorAfter(source[..n], p.after, z, p.line - 1);
  }

  lemma SplicedText(above: string, after: string, below: string)
    ensures above + Join(NewLines(after)) + below == above + (after + (Ending(after) + below))
  {
    NewLinesText(after);
    Associate(above, after + Ending(after), below);
    Associate(after, Ending(after), below);
  }

  lemma PrefixOf(a: string, b: string)
    ensures a <= a + b
  {
  }

  // The line at the anchor's position once the replacement is in place.
  lemma AnchorAfter(above: string, after: string, z: string, i: nat)
    requires after != "" && Seals(above, after + z) && |SplitLines(above)| == i
    requires z == "" || Ending(after) == "" || z[0] == '\n'
    ensures i < |SplitLines(above + (after + z))|
    ensures Rstrip(SplitLines(above + (after + z))[i]) == Rstrip(SplitLines(after)[0])
  {
    SplitAppend(above, after + z);
    FirstLineKept(after, z);
    RstripNewline(after[..LineEnd(after)]);
    assert SplitLines(after + z)[0] == (after + z)[..LineEnd(after + z)];
  }

  lemma SealsAbove(p: Proposal, source: string, n: nat, rest: string)
    requires 0 < p.line <= |SplitLines(source)| && n < |source|
    requires SplitLines(source[..n]) == SplitLines(source)[..p.line - 1] && Seals(source[..n], source[n..])
    requires p.after != "" && p.after <= rest
    requires p.after[0] == '\n' && p.line > 1 ==>
               var above := SplitLines(source)[p.line - 2]; above != "" && above[|above| - 1] != '\r'
    ensures Seals(source[..n], rest)
  {
    if n > 0 {
      LastLine(source[..n]);
      assert SplitLines(source[..n])[p.line - 2] == SplitLines(source)[p.line - 2];
    }
  }

  // ---------------------------------------------------------------- exactly when it is refused

  predicate EndsInReturn(s: string)
  {
    s != "" && s[|s| - 1] == '\r'
  }

  // The text that takes the place of the anchor line and all below it.
  function Remainder(p: Proposal, lines: seq<string>): (r: string)
    requires 0 < p.line <= |lines|
  {
    Join(NewLines(p.after)) + Join(lines[RunEnd(lines, p.line, Indent(Rstrip(lines[p.line - 1])))..])
  }

  // What then starts at the anchor's line number: a newline that completes the line above is not part of it.
  function AtAnchor(p: Proposal, lines: seq<string>): (r: string)
    requires 0 < p.line <= |lines|
  {
    var text := Remainder(p, lines);
    if p.line > 1 && EndsInReturn(lines[p.line - 2]) && text != "" && text[0] == '\n' then text[1..] else text
  }

  lemma {:induction false} WholeLineCompleted(x: string)
    requires EndsInReturn(x) && LineEnd(x) == |x|
    ensures LineEnd(x + "\n") == |x| + 1
  {
    assert (x + "\n")[1..] == x[1..] + "\n";
    if |x| > 1 {
      WholeLineCompleted(x[1..]);
    }
  }

  // Completing a bare return at the end of a text gives it no further line.
  lemma {:induction false} ReturnCompleted(x: string)
    requires EndsInReturn(x)
    ensures |SplitLines(x + "\n")| == |SplitLines(x)|
    decreases |x|
  {
    var k := LineEnd(x);
    if k == |x| {
      WholeLineCompleted(x);
      OneLine(x);
      OneLine(x + "\n");
    } else {
      LineSeals(x);
      ReturnCompleted(x[k..]);
      SplitAppend(x[..k], x[k..] + "\n");
      assert x + "\n" == x[..k] + (x[k..] + "\n");
    }
  }

  // Below a text that it does not run on from, a text starts on the next line.
  lemma LineBelow(above: string, text: string, i: nat)
    requires |SplitLines(above)| == i && Seals(above, text)
    ensures if text == "" then |SplitLines(above + text)| == i
            else i < |SplitLines(above + text)| && SplitLines(above + text)[i] == text[..LineEnd(text)]
  {
    SplitAppend(above, text);
  }

  predicate AnchorMoved(r: Result<string, PatchError>)
  {
    r == Err(SourceChanged) || r == Err(LineOutside)
  }

  lemma MovedIff(p: Proposal, source: string, parser: Parser)
    requires p.automatic && p.line > 0
    ensures AnchorMoved(Patched(p, source, parser)) <==>
            p.line > |SplitLines(source)| || Rstrip(SplitLines(source)[p.line - 1]) != p.before
  {
  }

  // The patched text: what was above the anchor, and what takes the place of the rest.
  lemma PatchedText(p: Proposal, source: string, parser: Parser) returns (above: string)
    requires Patched(p, source, parser).Ok? && p.importToAdd.None?
    ensures p.automatic && 0 < p.line <= |SplitLines(source)| && |SplitLines(above)| == p.line - 1
    ensures Patched(p, source, parser).value == above + Remainder(p, SplitLines(source))
    ensures above == "" || IsBreak(above[|above| - 1])
    ensures EndsInReturn(above) <==> p.line > 1 && EndsInReturn(SplitLines(source)[p.line - 2])
  {
    var n, m := PatchFrame(p, source, parser);
    above := source[..n];
    JoinSplit(source[m..]);
    Associate(above, Join(NewLines(p.after)), source[m..]);
    if above != "" {
      LastLine(above);
      assert SplitLines(above)[p.line - 2] == SplitLines(source)[p.line - 2];
    }
  }

  lemma BelowCompleted(above: string, rest: string, i: nat)
    requires |SplitLines(above)| == i && EndsInReturn(above)
    ensures var all := above + ("\n" + rest);
            if rest == "" then |SplitLines(all)| == i
            else i < |SplitLines(all)| && SplitLines(all)[i] == rest[..LineEnd(rest)]
  {
    ReturnCompleted(above);
    Associate(above, "\n", rest);
    LineBelow(above + "\n", rest, i);
  }

  // The line at a given place of a text put together from what is above it and the rest.
  lemma LineAtSeam(above: string, text: string, i: nat)
    requires |SplitLines(above)| == i && (above == "" || IsBreak(above[|above| - 1]))
    ensures var rest := if EndsInReturn(above) && text != "" && text[0] == '\n' then text[1..] else text;
            if rest == "" then |SplitLines(above + text)| == i
            else i < |SplitLines(above + text)| && SplitLines(above + text)[i] == rest[..LineEnd(rest)]
  {
    if EndsInReturn(above) && text != "" && text[0] == '\n' {
      assert text == "\n" + text[1..];
      BelowCompleted(above, text[1..], i);
    } else {
      LineBelow(above, text, i);
    }
  }

  // A patch without an import finds its anchor gone when applied again exactly if what the first
  // application put at the anchor's line number does not begin with the anchor line itself.
  lemma SecondApplicationIff(p: Proposal, source: string, parser: Parser)
    requires Patched(p, source, parser).Ok? && p.importToAdd.None?
    ensures 0 < p.line <= |SplitLines(source)|
    ensures var text := AtAnchor(p, SplitLines(source));
            AnchorMoved(Patched(p, Patched(p, source, parser).value, parser))
            <==> text == "" || Rstrip(text[..LineEnd(text)]) != p.before
  {
    var above := PatchedText(p, source, parser);
    LineAtSeam(above, Remainder(p, SplitLines(source)), p.line - 1);
    MovedIff(p, Patched(p, source, parser).value, parser);
  }

  // A first line cut off right after its terminator.
  lemma FirstLine(line: string, rest: string)
    requires line != "" && LineEnd(line) == |line| && Seals(line, rest)
    ensures SplitLines(line + rest) == [line] + SplitLines(rest)
  {
    SplitAppend(line, rest);
    assert line[|line|..] == "" && line[..|line|] == line;
  }

  lemma ShortLines(a: char, x: char)
    requires !IsBreak(a) && !IsBreak(x)
    ensures LineEnd([x]) == 1 && LineEnd(['\n']) == 1 && LineEnd([a, '\r']) == 2 && LineEnd([x, '\n']) == 2
    ensures LineEnd([a, '\r', '\n']) == 3
  {
    assert [a, '\r'][1..] == ['\r'] && [x, '\n'][1..] == ['\n'];
    assert [a, '\r', '\n'][1..] == ['\r', '\n'];
  }

  lemma OneLine(line: string)
    requires line != "" && LineEnd(line) == |line|
    ensures SplitLines(line) == [line]
  {
    assert line[|line|..] == "" && line[..|line|] == line;
  }

  // Where it does complete it, the same patch may be applied again: replacing x below a bare return by
  // an empty line and x turns the return and the empty line into one terminator.
  lemma SeamReapplied(a: char, x: char, parser: Parser, p: Proposal, source: string, patched: string)
    requires !IsBreak(a) && !IsBreak(x) && parser.parses(patched)
    requires source == [a, '\r'] + [x] && patched == [a, '\r', '\n'] + [x, '\n']
    requires p.automatic && p.line == 2 && p.before == [x] && p.after == ['\n'] + [x] && p.importToAdd.None?
    ensures SplitLines(p.after) != [] && Rstrip(SplitLines(p.after)[0]) != p.before
    ensures Patched(p, source, parser) == Ok(patched) && Patched(p, patched, parser) != Err(SourceChanged)
  {
    ShortLines(a, x);
    OneLine([x]);
    OneLine([x, '\n']);
    FirstLine([a, '\r'], [x]);
    FirstLine(['\n'], [x]);
    FirstLine([a, '\r', '\n'], [x, '\n']);
    RstripNewline([x]);
    assert [x] + "\n" == [x, '\n'] && Rstrip([x]) == [x];
    assert Rstrip(['\n']) == "" by { assert ['\n'][..0] == ""; }
    var lines := SplitLines(source);
    assert lines == [[a, '\r'], [x]] && lines[..1] == [[a, '\r']] && lines[2..] == [];
    SeamSpliced(a, x, p, lines);
    SeamJoined(a, x);
    assert SplitLines(patched)[1] == [x, '\n'];
  }

  lemma SeamSpliced(a: char, x: char, p: Proposal, lines: seq<string>)
    requires lines == [[a, '\r'], [x]] && p.line == 2 && !IsBreak(x)
    requires SplitLines(p.after) == [['\n'], [x]]
    ensures Spliced(p, lines) == [[a, '\r'], ['\n'], [x, '\n']]
  {
    assert [x] + "\n" == [x, '\n'];
    assert SplitLines(p.after)[..1] == [['\n']];
    assert NewLines(p.after) == [['\n'], [x, '\n']];
    assert lines[..1] == [[a, '\r']] && lines[2..] == [];
  }

  lemma SeamJoined(a: char, x: char)
    ensures Join([[a, '\r'], ['\n'], [x, '\n']]) == [a, '\r', '\n'] + [x, '\n']
  {
    JoinOne([x, '\n']);
    assert [['\n'], [x, '\n']][1..] == [[x, '\n']];
    assert [[a, '\r'], ['\n'], [x, '\n']][1..] == [['\n'], [x, '\n']];
    assert [a, '\r'] + (['\n'] + [x, '\n']) == [a, '\r', '\n'] + [x, '\n'];
  }
}
