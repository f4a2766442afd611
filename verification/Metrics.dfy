/**
 Precision, recall and F1 over the rationals, each rounded to four decimals with ties to even. The
 reported F1 is built from ratios that were rounded already; it still lies within 0.00015 of the exact value.
 */
module Metrics {
  import opened Wrappers
  import opened Matching
  import opened Matcher

  // The nearest integer, an exact half going to the even neighbour.
  function Nearest(x: real): (r: int)
  {
    var below := x.Floor;
    var rest := x - below as real;
    if rest < 0.5 || (rest == 0.5 && below % 2 == 0) then below else below + 1
  }

  function Round4(x: real): (r: real)
    ensures -0.00005 <= r - x <= 0.00005
    ensures x == 0.0 ==> r == 0.0
    ensures x >= 0.0 ==> r >= 0.0
  {
    Nearest(x * 10000.0) as real / 10000.0
  }

  predicate IsNearest(k: int, y: real)
  {
    -0.5 <= y - k as real <= 0.5 && (y - k as real == 0.5 || y - k as real == -0.5 ==> k % 2 == 0)
  }

  lemma NearestIs(y: real)
    ensures IsNearest(Nearest(y), y)
  {
  }

  lemma NearestOnce(k: int, l: int, y: real)
    requires IsNearest(k, y) && IsNearest(l, y)
    ensures k == l
  {
  }

  function Decimals(k: int): (r: real)
  {
    k as real / 10000.0
  }

  // The number of four decimals nearest to x; of two equally near ones that with the even last digit.
  ghost predicate RoundedTo(r: real, x: real)
  {
    exists k: int :: r == Decimals(k) && IsNearest(k, x * 10000.0)
  }

  lemma Round4Rounds(x: real)
    ensures RoundedTo(Round4(x), x)
  {
    var k := Nearest(x * 10000.0);
    NearestIs(x * 10000.0);
    assert Round4(x) == Decimals(k);
  }

  // There is only one such number.
  lemma RoundedOnce(r: real, s: real, x: real)
    requires RoundedTo(r, x) && RoundedTo(s, x)
    ensures r == s
  {
    var k: int :| r == Decimals(k) && IsNearest(k, x * 10000.0);
    var l: int :| s == Decimals(l) && IsNearest(l, x * 10000.0);
    NearestOnce(k, l, x * 10000.0);
  }

  // A share of something is its rounded quotient, and of nothing there is none.
  ghost predicate IsShare(r: Option<real>, part: nat, whole: nat)
  {
    if whole == 0 then r == None else r.Some? && r.value >= 0.0 && RoundedTo(r.value, part as real / whole as real)
  }

  lemma RatioIs(part: nat, whole: nat)
    ensures IsShare(Ratio(part as real, whole as real), part, whole)
  {
    if whole > 0 {
      Round4Rounds(part as real / whole as real);
    }
  }

  function Ratio(numerator: real, denominator: real): (r: Option<real>)
  {
    if denominator == 0.0 then None else Some(Round4(numerator / denominator))
  }

  datatype BenchmarkMetrics = BenchmarkMetrics(
    tool: Text, truePositives: nat, falsePositives: nat, falseNegatives: int,
    precision: Option<real>, recall: Option<real>, f1: Option<real>, total: nat)

  function ReportedF1(tp: nat, fp: nat, fn: int): (f1: Option<real>)
  {
    F1(Ratio(tp as real, (tp + fp) as real), Ratio(tp as real, (tp + fn) as real))
  }

  function TwiceProduct(p: real, r: real): (result: real)
  {
    2.0 * p * r
  }

  function F1(precision: Option<real>, recall: Option<real>): (r: Option<real>)
  {
    if precision.Some? && recall.Some? && precision.value + recall.value > 0.0 then
      Ratio(TwiceProduct(precision.value, recall.value), precision.value + recall.value)
    else None
  }

  // The rounded harmonic mean, where there are a precision and a recall that are not both zero.
  ghost predicate IsMean(f1: Option<real>, precision: Option<real>, recall: Option<real>)
  {
    if precision.None? || recall.None? || precision.value + recall.value <= 0.0 then f1 == None
    else
      f1.Some?
      && RoundedTo(f1.value, TwiceProduct(precision.value, recall.value) / (precision.value + recall.value))
  }

  lemma F1Is(precision: Option<real>, recall: Option<real>)
    ensures IsMean(F1(precision, recall), precision, recall)
  {
    if precision.Some? && recall.Some? && precision.value + recall.value > 0.0 {
      Round4Rounds(TwiceProduct(precision.value, recall.value) / (precision.value + recall.value));
    }
  }

  // ---------------------------------------------------------------- the harmonic mean under rounding

  function Harmonic(p: real, r: real): (result: real)
    requires p + r > 0.0
  {
    TwiceProduct(p, r) / (p + r)
  }

  lemma QuotientAtMost(n: real, d: real, q: real)
    requires d > 0.0 && n <= q * d
    ensures n / d <= q
  {
    assert n / d * d == n;
    if n / d > q {
      Scale(q, n / d, d);
    }
  }

  lemma Scale(a: real, b: real, c: real)
    requires a < b && c > 0.0
    ensures a * c < b * c
  {
  }

  lemma ScaleWeakly(a: real, b: real, c: real)
    requires a <= b && c >= 0.0
    ensures a * c <= b * c
  {
  }

  // Any weighting of the two arguments bounds their harmonic mean from above.
  lemma WeightedBound(p: real, r: real, t: real)
    requires p + r > 0.0
    ensures Harmonic(p, r) <= 2.0 * (t * t * p + (1.0 - t) * (1.0 - t) * r)
  {
    var u := 1.0 - t;
    var gap := t * p - u * r;
    assert gap * gap >= 0.0;
    var tt, uu, tu := t * t, u * u, t * u;
    assert tt + uu + 2.0 * tu == 1.0;
    assert gap * gap == tt * (p * p) - 2.0 * tu * (p * r) + uu * (r * r) by {
      assert (t * p) * (t * p) == tt * (p * p);
      assert (u * r) * (u * r) == uu * (r * r);
      assert (t * p) * (u * r) == tu * (p * r);
    }
    Expand(p, r, tt, uu, tu);
    QuotientAtMost(2.0 * p * r, p + r, 2.0 * (tt * p + uu * r));
  }

  lemma Expand(p: real, r: real, tt: real, uu: real, tu: real)
    requires tt + uu + 2.0 * tu == 1.0
    requires tt * (p * p) - 2.0 * tu * (p * r) + uu * (r * r) >= 0.0
    ensures 2.0 * p * r <= 2.0 * (tt * p + uu * r) * (p + r)
  {
    assert (tt * p + uu * r) * (p + r) == tt * (p * p) + (tt + uu) * (p * r) + uu * (r * r);
    assert (tt + uu) * (p * r) == p * r - 2.0 * tu * (p * r);
  }

  // The weighting that is attained.
  lemma WeightedExact(p: real, r: real)
    requires p >= 0.0 && r >= 0.0 && p + r > 0.0
    ensures var t := r / (p + r);
            0.0 <= t <= 1.0 && Harmonic(p, r) == 2.0 * (t * t * p + (1.0 - t) * (1.0 - t) * r)
  {
    var s := p + r;
    var t := r / s;
    var u := p / s;
    assert t * s == r && u * s == p;
    assert t + u == 1.0 by {
      assert (t + u) * s == t * s + u * s;
      if t + u > 1.0 {
        Scale(1.0, t + u, s);
      } else if t + u < 1.0 {
        Scale(t + u, 1.0, s);
      }
    }
    assert t * t * p + u * u * r == t * u * s by {
      assert t * t * p == t * u * (t * s);
      assert u * u * r == t * u * (u * s);
      assert t * u * (t * s) + t * u * (u * s) == t * u * s * (t + u);
    }
    assert t * u * s * s == p * r by {
      assert t * u * s * s == (t * s) * (u * s);
    }
    assert 2.0 * p * r == 2.0 * (t * u * s) * s;
    assert Harmonic(p, r) == 2.0 * (t * u * s);
  }

  lemma ShiftTerm(w: real, x: real, y: real, d: real)
    requires w >= 0.0 && y <= x + d
    ensures w * y <= w * x + w * d
  {
    ScaleWeakly(y, x + d, w);
    assert (x + d) * w == w * x + w * d;
  }

  lemma WeightsBounded(t: real)
    requires 0.0 <= t <= 1.0
    ensures t * t >= 0.0 && (1.0 - t) * (1.0 - t) >= 0.0
    ensures t * t + (1.0 - t) * (1.0 - t) <= 1.0
  {
    var u := 1.0 - t;
    var squares, cross := t * t + u * u, t * u;
    assert squares + 2.0 * cross == 1.0;
    ScaleWeakly(0.0, t, u);
    AtMostOne(squares, cross);
  }

  lemma AtMostOne(squares: real, cross: real)
    requires squares + 2.0 * cross == 1.0 && cross >= 0.0
    ensures squares <= 1.0
  {
  }

  // Moving both arguments up by at most d moves the harmonic mean up by at most 2d.
  lemma HarmonicShift(p: real, r: real, p': real, r': real, d: real)
    requires p >= 0.0 && r >= 0.0 && p + r > 0.0 && p' + r' > 0.0 && d >= 0.0
    requires p' <= p + d && r' <= r + d
    ensures Harmonic(p', r') <= Harmonic(p, r) + 2.0 * d
  {
    var t := r / (p + r);
    WeightedExact(p, r);
    WeightedBound(p', r', t);
    WeightsBounded(t);
    Combine(t * t, (1.0 - t) * (1.0 - t), p, r, p', r', d);
  }

  lemma Combine(v: real, w: real, p: real, r: real, p': real, r': real, d: real)
    requires v >= 0.0 && w >= 0.0 && v + w <= 1.0 && d >= 0.0
    requires p' <= p + d && r' <= r + d
    ensures v * p' + w * r' <= v * p + w * r + d
  {
    ShiftTerm(v, p, p', d);
    ShiftTerm(w, r, r', d);
    ScaleWeakly(v + w, 1.0, d);
    assert v * d + w * d == (v + w) * d;
    AddUp(v * p', v * p, v * d, w * r', w * r, w * d, d);
  }

  lemma AddUp(a': real, a: real, x: real, b': real, b: real, y: real, d: real)
    requires a' <= a + x && b' <= b + y && x + y <= d
    ensures a' + b' <= a + b + d
  {
  }

  // ---------------------------------------------------------------- the reported F1

  lemma ExactF1(tp: nat, fp: nat, fn: nat)
    requires tp > 0
    ensures Harmonic(tp as real / (tp + fp) as real, tp as real / (tp + fn) as real) ==
            (2 * tp) as real / (2 * tp + fp + fn) as real
  {
    var n, a, b := tp as real, (tp + fp) as real, (tp + fn) as real;
    var p, r := n / a, n / b;
    assert p * a == n && r * b == n;
    assert p * r * (a + b) == n * (p + r) by {
      assert p * r * (a + b) == r * (p * a) + p * (r * b);
    }
    var q := (2 * tp) as real / (2 * tp + fp + fn) as real;
    assert q * (a + b) == 2.0 * n;
    assert q * (p + r) == 2.0 * p * r by {
      assert q * (p + r) * n == q * (p * r * (a + b));
      assert q * (p * r * (a + b)) == p * r * (2.0 * n);
    }
  }

  function ExactRatio(tp: nat, fp: nat, fn: nat): (r: real)
    requires tp > 0
  {
    (2 * tp) as real / (2 * tp + fp + fn) as real
  }

  lemma HarmonicClose(p: real, r: real, p': real, r': real)
    requires p > 0.0 && r > 0.0 && p' >= 0.0 && r' >= 0.0 && p' + r' > 0.0
    requires -0.00005 <= p' - p <= 0.00005 && -0.00005 <= r' - r <= 0.00005
    ensures -0.0001 <= Harmonic(p', r') - Harmonic(p, r) <= 0.0001
  {
    HarmonicShift(p, r, p', r', 0.00005);
    HarmonicShift(p', r', p, r, 0.00005);
  }

  // What is reported for at least one true positive, in terms of the unrounded ratios.
  lemma ReportShape(tp: nat, fp: nat, fn: nat) returns (p: real, r: real, p': real, r': real)
    requires tp > 0
    ensures p > 0.0 && r > 0.0 && p' >= 0.0 && r' >= 0.0
    ensures Harmonic(p, r) == ExactRatio(tp, fp, fn)
    ensures -0.00005 <= p' - p <= 0.00005 && -0.00005 <= r' - r <= 0.00005
    ensures ReportedF1(tp, fp, fn) == if p' + r' > 0.0 then Some(Round4(Harmonic(p', r'))) else None
  {
    var a, b := tp + fp, tp + fn;
    RatioShape(tp, a);
    RatioShape(tp, b);
    ExactF1(tp, fp, fn);
    p, r := tp as real / a as real, tp as real / b as real;
    p', r' := Round4(p), Round4(r);
    F1From(p', r');
  }

  lemma F1From(p: real, r: real)
    ensures F1(Some(p), Some(r)) == if p + r > 0.0 then Some(Round4(Harmonic(p, r))) else None
  {
    assert p + r > 0.0 ==> F1(Some(p), Some(r)) == Ratio(TwiceProduct(p, r), p + r);
  }

  lemma RatioShape(n: nat, d: nat)
    requires 0 < n <= d
    ensures n as real / d as real > 0.0
    ensures Ratio(n as real, d as real) == Some(Round4(n as real / d as real))
  {
  }

  // Whenever an F1 is reported there is a true positive, and it is that close to 2TP / (2TP + FP + FN).
  lemma ReportedF1IsClose(tp: nat, fp: nat, fn: nat)
    requires ReportedF1(tp, fp, fn).Some?
    ensures tp > 0
    ensures -0.00015 <= ReportedF1(tp, fp, fn).value - ExactRatio(tp, fp, fn) <= 0.00015
  {
    if tp > 0 {
      var p, r, p', r' := ReportShape(tp, fp, fn);
      HarmonicClose(p, r, p', r');
    }
  }

  // With a true positive present it is withheld only when the exact value is next to nothing.
  lemma WithheldF1IsSmall(tp: nat, fp: nat, fn: nat)
    requires tp > 0 && ReportedF1(tp, fp, fn).None?
    ensures ExactRatio(tp, fp, fn) <= 0.00005
  {
    var p, r, p', r' := ReportShape(tp, fp, fn);
    WeightedBound(p, r, 0.5);
  }

  // ---------------------------------------------------------------- over a fixture

  lemma {:induction false} WhereAppend(cases: seq<Case>, more: seq<Case>, vulnerable: bool)
    ensures CasesWhere(cases + more, vulnerable) == CasesWhere(cases, vulnerable) + CasesWhere(more, vulnerable)
  {
    if cases == [] {
      assert cases + more == more;
    } else {
      assert (cases + more)[1..] == cases[1..] + more;
      WhereAppend(cases[1..], more, vulnerable);
    }
  }

  lemma {:induction false} WhereUniform(cases: seq<Case>, vulnerable: bool)
    requires forall k :: 0 <= k < |cases| ==> cases[k].expectedVulnerable == vulnerable
    ensures CasesWhere(cases, true) == if vulnerable then cases else []
  {
    if cases != [] {
      WhereUniform(cases[1..], vulnerable);
    }
  }

  lemma {:induction false} WhereSplitsIds(cases: seq<Case>)
    requires DistinctIds(cases)
    ensures DistinctIds(CasesWhere(cases, true) + CasesWhere(cases, false))
  {
    var vulnerable, safe := CasesWhere(cases, true), CasesWhere(cases, false);
    DistinctWhere(cases, true);
    DistinctWhere(cases, false);
    forall j, k | 0 <= j < |vulnerable| && 0 <= k < |safe|
      ensures vulnerable[j].caseId != safe[k].caseId
    {
      assert vulnerable[j] in cases && safe[k] in cases;
    }
  }

  // The cases the metrics are computed on are the fixture's, vulnerable ones first.
  lemma FixtureCases(fixture: seq<Case>)
    requires DistinctIds(fixture)
    ensures var cases := CasesWhere(fixture, true) + CasesWhere(fixture, false);
            DistinctIds(cases) && CasesWhere(cases, true) == CasesWhere(fixture, true)
  {
    var vulnerable, safe := CasesWhere(fixture, true), CasesWhere(fixture, false);
    WhereAppend(vulnerable, safe, true);
    WhereUniform(vulnerable, true);
    WhereUniform(safe, false);
    WhereSplitsIds(fixture);
  }

  lemma Counts(findings: seq<Finding>, vulnerable: seq<Case>, tolerance: int)
    ensures var m := Greedy(CaseWithin(tolerance), findings, vulnerable);
            Count(m.partner) <= |vulnerable| && |Select(findings, m.partner, false)| == |findings| - Count(m.partner)
  {
    var m := Greedy(CaseWithin(tolerance), findings, vulnerable);
    SelectSizes(findings, m.partner);
    GreedyConsistent(CaseWithin(tolerance), findings, vulnerable);
  }

  // The vulnerable cases greedy matching finds.
  function TruePositives(findings: seq<Finding>, cases: seq<Case>, tolerance: int): (r: nat)
  {
    Count(Greedy(CaseWithin(tolerance), findings, CasesWhere(cases, true)).partner)
  }

  method Tally(findings: seq<Finding>, cases: seq<Case>, tolerance: int) returns (tp: nat, fp: nat)
    ensures tp + fp == |findings|
    ensures DistinctIds(cases) ==>
              tp == TruePositives(findings, cases, tolerance) && tp <= |CasesWhere(cases, true)|
  {
    Counts(findings, CasesWhere(cases, true), tolerance);
    var matchedIds, falsePositives := Classify(findings, cases, tolerance);
    tp, fp := |matchedIds|, |falsePositives|;
  }

  // The numbers add up in any case; with distinct case ids the hits are those of greedy matching.
  method ComputeMetrics(tool: Text, findings: seq<Finding>, fixture: seq<Case>, tolerance: int)
    returns (m: BenchmarkMetrics)
    ensures m.tool == tool && m.total == |findings|
    ensures m.truePositives + m.falsePositives == |findings|
    ensures m.truePositives + m.falseNegatives == |CasesWhere(fixture, true)|
    ensures m.precision == Ratio(m.truePositives as real, |findings| as real)
    ensures m.recall == Ratio(m.truePositives as real, |CasesWhere(fixture, true)| as real)
    ensures m.f1 == ReportedF1(m.truePositives, m.falsePositives, m.falseNegatives)
    ensures IsShare(m.precision, m.truePositives, |findings|)
    ensures IsShare(m.recall, m.truePositives, |CasesWhere(fixture, true)|)
    ensures IsMean(m.f1, m.precision, m.recall)
    ensures DistinctIds(fixture) ==>
              m.truePositives == TruePositives(findings, fixture, tolerance) && m.falseNegatives >= 0
  {
    var vulnerable, safe := CasesWhere(fixture, true), CasesWhere(fixture, false);
    if DistinctIds(fixture) {
      FixtureCases(fixture);
    }
    var tp, fp := Tally(findings, vulnerable + safe, tolerance);
    var fn := |vulnerable| - tp;
    var precision := Ratio(tp as real, (tp + fp) as real);
    var recall := Ratio(tp as real, (tp + fn) as real);
    RatioIs(tp, |findings|);
    RatioIs(tp, |vulnerable|);
    F1Is(precision, recall);
    m := BenchmarkMetrics(tool, tp, fp, fn, precision, recall, F1(precision, recall), |findings|);
  }
}
