/**
 What the small text functions of patching mean, character by character: which characters end a line or count as
 blank, what a line of a split text looks like, and what is taken off the ends of a line.
 */
module PatchText {
  import opened PatchLines

  // The code points at which Python splits lines, and those it strips.
  const BREAKS := {10, 11, 12, 13, 28, 29, 30, 133, 8232, 8233}
  const BLANKS := {9, 10, 11, 12, 13, 28, 29, 30, 31, 32, 133, 160, 5760, 8192, 8193, 8194, 8195, 8196, 8197, 8198,
    8199, 8200, 8201, 8202, 8232, 8233, 8239, 8287, 12288}

  predicate Breaks(c: char)
  {
    c as int in BREAKS
  }

  predicate IsBlank(c: char)
  {
    c as int in BLANKS
  }

  lemma BreaksAre(c: char)
    ensures IsBreak(c) <==> Breaks(c)
  {
  }

  lemma BlanksAre(c: char)
    ensures IsSpace(c) <==> IsBlank(c)
  {
  }

  // ---------------------------------------------------------------- lines

  // Only its end ends a line: one character that breaks lines, or a return and a newline.
  predicate OneLine(line: string)
  {
    line != "" && forall j :: 0 <= j < |line| - 1 && Breaks(line[j]) ==> j == |line| - 2 && line[j..] == "\r\n"
  }

  lemma {:induction false} FirstLineShape(s: string)
    requires s != ""
    ensures var line := s[..LineEnd(s)]; OneLine(line) && (LineEnd(s) < |s| ==> Breaks(line[|line| - 1]))
    decreases |s|
  {
    var k := LineEnd(s);
    BreaksAre(s[0]);
    if k == 2 && s[0] == '\r' && s[1] == '\n' {
      assert s[..2] == "\r\n" && s[..2][0..] == "\r\n";
    } else if k > 1 {
      FirstLineShape(s[1..]);
      var rest := s[1..][..k - 1];
      forall j | 0 <= j < k - 1 && Breaks(s[..k][j])
        ensures j == k - 2 && s[..k][j..] == "\r\n"
      {
        assert j > 0 && rest[j - 1] == s[..k][j];
        assert rest[j - 1..] == s[..k][j..];
      }
    }
  }

  // Every line is one, and every line but the last is ended.
  lemma {:induction false} LineShape(s: string, i: nat)
    requires i < |SplitLines(s)|
    ensures var line := SplitLines(s)[i];
            OneLine(line) && (i < |SplitLines(s)| - 1 ==> Breaks(line[|line| - 1]))
    decreases |s|
  {
    FirstLineShape(s);
    if i > 0 {
      LineShape(s[LineEnd(s)..], i - 1);
    }
  }

  // ---------------------------------------------------------------- ends of a line

  lemma {:induction false} RstripIs(line: string)
    ensures var r := Rstrip(line);
            && r <= line && (forall c :: c in line[|r|..] ==> c == '\n' || c == '\r')
            && (r != "" ==> r[|r| - 1] != '\n' && r[|r| - 1] != '\r')
    decreases |line|
  {
    if line != "" && (line[|line| - 1] == '\n' || line[|line| - 1] == '\r') {
      var front := line[..|line| - 1];
      RstripIs(front);
      var r := Rstrip(front);
      assert line[|r|..] == front[|r|..] + [line[|line| - 1]];
    } else {
      assert line[|line|..] == "";
    }
  }

  // The indentation is the leading blanks and tabs, all of them.
  lemma {:induction false} IndentIs(line: string)
    ensures forall j :: 0 <= j < Indent(line) ==> line[j] == ' ' || line[j] == '\t'
    ensures Indent(line) < |line| ==> line[Indent(line)] != ' ' && line[Indent(line)] != '\t'
    decreases |line|
  {
    if line != "" && (line[0] == ' ' || line[0] == '\t') {
      IndentIs(line[1..]);
    }
  }

  // What is left between the blanks at both ends.
  predicate Core(s: string, i: nat, j: nat)
  {
    && i <= j <= |s|
    && (forall k :: 0 <= k < i ==> IsBlank(s[k])) && (forall k :: j <= k < |s| ==> IsBlank(s[k]))
    && (i < j ==> !IsBlank(s[i]) && !IsBlank(s[j - 1]))
  }

  lemma CoreFront(s: string, i: nat, j: nat)
    requires s != "" && IsBlank(s[0]) && Core(s[1..], i, j)
    ensures Core(s, i + 1, j + 1) && s[1..][i..j] == s[i + 1..j + 1]
  {
    forall k | j + 1 <= k < |s|
      ensures IsBlank(s[k])
    {
      assert s[1..][k - 1] == s[k];
    }
    forall k | 0 < k < i + 1
      ensures IsBlank(s[k])
    {
      assert s[1..][k - 1] == s[k];
    }
  }

  lemma CoreBack(s: string, i: nat, j: nat)
    requires s != "" && IsBlank(s[|s| - 1]) && Core(s[..|s| - 1], i, j)
    ensures Core(s, i, j) && s[..|s| - 1][i..j] == s[i..j]
  {
    forall k | 0 <= k < |s| - 1
      ensures s[..|s| - 1][k] == s[k]
    {
    }
  }

  // Stripping takes the blanks off both ends, all of them and nothing else.
  lemma {:induction false} StripIs(s: string) returns (i: nat, j: nat)
    ensures Core(s, i, j) && Strip(s) == s[i..j]
    decreases |s|
  {
    if s == "" {
      i, j := 0, 0;
    } else {
      var n := |s|;
      BlanksAre(s[0]);
      BlanksAre(s[n - 1]);
      if IsSpace(s[0]) {
        i, j := StripIs(s[1..]);
        CoreFront(s, i, j);
        i, j := i + 1, j + 1;
      } else if IsSpace(s[n - 1]) {
        i, j := StripIs(s[..n - 1]);
        CoreBack(s, i, j);
      } else {
        i, j := 0, n;
      }
    }
  }

  // A line that is one closing bracket among blanks.
  lemma ClosingBracketIff(line: string)
    ensures ClosingBracket(line) <==>
            exists k :: 0 <= k < |line| && (line[k] == ')' || line[k] == ']' || line[k] == '}')
                        && forall l :: 0 <= l < |line| && l != k ==> IsBlank(line[l])
  {
    var i, j := StripIs(line);
    if ClosingBracket(line) {
      assert j == i + 1 && line[i] == Strip(line)[0];
    }
    if k :| 0 <= k < |line| && (line[k] == ')' || line[k] == ']' || line[k] == '}')
            && forall l :: 0 <= l < |line| && l != k ==> IsBlank(line[l])
    {
      assert !IsBlank(line[k]);
      assert i <= k < j;
      assert i == k && j == k + 1;
      assert Strip(line) == [line[k]];
    }
  }
}
