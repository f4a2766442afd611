/**
 The benchmark's matcher: its loops over findings, proved to compute the greedy matching of module
 Matching, and what that means for the lists they return.
 */
module Matcher {
  import opened Wrappers
  import opened Matching

  // Texts are only compared for equality; one of them is the empty one.
  type Text = int

  const EMPTY: Text := 0

  datatype Finding = Finding(
    tool: Text, vulnerabilityType: Text, file: Text, line: int, functionName: Option<Text>, message: Text,
    fingerprint: Text)

  datatype Case = Case(
    caseId: Text, file: Text, functionName: Text, vulnerabilityType: Text, expectedVulnerable: bool,
    sourceLine: int, sinkLine: int)

  function Distance(a: int, b: int): (r: nat)
  {
    if a < b then b - a else a - b
  }

  // An absent or empty function name identifies nothing.
  predicate Same(a: Finding, b: Finding, tolerance: int)
  {
    a.file == b.file && a.vulnerabilityType == b.vulnerabilityType &&
    (Distance(a.line, b.line) <= tolerance ||
     (a.functionName.Some? && a.functionName.value != EMPTY && a.functionName == b.functionName))
  }

  predicate MatchesCase(f: Finding, c: Case, tolerance: int)
  {
    f.file == c.file && f.vulnerabilityType == c.vulnerabilityType &&
    (Distance(f.line, c.sourceLine) <= tolerance || Distance(f.line, c.sinkLine) <= tolerance ||
     (f.functionName.Some? && f.functionName.value != EMPTY && f.functionName.value == c.functionName))
  }

  predicate Named(name: Option<Text>)
  {
    name.Some? && name.value != EMPTY
  }

  predicate LinesWithin(a: int, b: int, tolerance: int)
  {
    b - tolerance <= a <= b + tolerance
  }

  // Findings are the same only in one file and of one type: on lines within the tolerance, or, however far apart,
  // in functions of one name. The order of the two does not matter.
  lemma SameTells(a: Finding, b: Finding, tolerance: int)
    ensures Same(a, b, tolerance) <==> Same(b, a, tolerance)
    ensures a.file != b.file || a.vulnerabilityType != b.vulnerabilityType ==> !Same(a, b, tolerance)
    ensures a.file == b.file && a.vulnerabilityType == b.vulnerabilityType ==>
              && (LinesWithin(a.line, b.line, tolerance) ==> Same(a, b, tolerance))
              && (Named(a.functionName) && a.functionName == b.functionName ==> Same(a, b, tolerance))
              && (!LinesWithin(a.line, b.line, tolerance)
                  && (!Named(a.functionName) || !Named(b.functionName) || a.functionName != b.functionName)
                  ==> !Same(a, b, tolerance))
  {
  }

  // A finding matches a case of its file and type whose source or sink is within the tolerance, or that is in the
  // function it names.
  lemma MatchesTells(f: Finding, c: Case, tolerance: int)
    ensures f.file != c.file || f.vulnerabilityType != c.vulnerabilityType ==> !MatchesCase(f, c, tolerance)
    ensures f.file == c.file && f.vulnerabilityType == c.vulnerabilityType ==>
              && (LinesWithin(f.line, c.sourceLine, tolerance) ==> MatchesCase(f, c, tolerance))
              && (LinesWithin(f.line, c.sinkLine, tolerance) ==> MatchesCase(f, c, tolerance))
              && (Named(f.functionName) && f.functionName == Some(c.functionName) ==> MatchesCase(f, c, tolerance))
              && (!LinesWithin(f.line, c.sourceLine, tolerance) && !LinesWithin(f.line, c.sinkLine, tolerance)
                  && (!Named(f.functionName) || f.functionName != Some(c.functionName))
                  ==> !MatchesCase(f, c, tolerance))
  {
  }

  function SameWithin(tolerance: int): (r: (Finding, Finding) -> bool)
  {
    (a, b) => Same(a, b, tolerance)
  }

  function CaseWithin(tolerance: int): (r: (Finding, Case) -> bool)
  {
    (f, c) => MatchesCase(f, c, tolerance)
  }

  // ---------------------------------------------------------------- lists picked by position

  // The elements that have, or have not, a partner.
  function Select<A>(xs: seq<A>, partner: seq<Option<nat>>, matched: bool): (r: seq<A>)
    requires |xs| == |partner|
  {
    if xs == [] then []
    else
      var n := |xs| - 1;
      Select(xs[..n], partner[..n], matched) + if partner[n].Some? == matched then [xs[n]] else []
  }

  function Gather<B>(xs: seq<B>, at: seq<nat>): (r: seq<B>)
    requires Positions(at, |xs|)
    ensures |r| == |at| && forall k :: 0 <= k < |at| ==> r[k] == xs[at[k]]
  {
    seq(|at|, k requires 0 <= k < |at| => xs[at[k]])
  }

  // The partners themselves, in the order they were chosen.
  function Partners<B>(xs: seq<B>, partner: seq<Option<nat>>): (r: seq<B>)
    requires Placed(partner, |xs|)
  {
    if partner == [] then []
    else
      var n := |partner| - 1;
      Partners(xs, partner[..n]) + if partner[n].Some? then [xs[partner[n].value]] else []
  }

  function RemoveFirst<A(==)>(xs: seq<A>, x: A): (r: seq<A>)
  {
    if xs == [] then [] else if xs[0] == x then xs[1..] else [xs[0]] + RemoveFirst(xs[1..], x)
  }

  // Removing by value removes the position meant, as long as no equal element comes earlier.
  lemma {:induction false} RemoveFirstAt<A>(xs: seq<A>, k: nat)
    requires k < |xs| && forall i :: 0 <= i < k ==> xs[i] != xs[k]
    ensures RemoveFirst(xs, xs[k]) == xs[..k] + xs[k + 1..]
  {
    if k > 0 {
      RemoveFirstAt(xs[1..], k - 1);
      assert xs[..k] + xs[k + 1..] == [xs[0]] + (xs[1..][..k - 1] + xs[1..][k..]);
    }
  }

  lemma SelectSnoc<A>(xs: seq<A>, x: A, partner: seq<Option<nat>>, p: Option<nat>, matched: bool)
    requires |xs| == |partner|
    ensures Select(xs + [x], partner + [p], matched) ==
            Select(xs, partner, matched) + if p.Some? == matched then [x] else []
  {
    assert (xs + [x])[..|xs|] == xs && (partner + [p])[..|xs|] == partner;
  }

  lemma {:induction false} SelectSizes<A>(xs: seq<A>, partner: seq<Option<nat>>)
    requires |xs| == |partner|
    ensures |Select(xs, partner, true)| == Count(partner)
    ensures |Select(xs, partner, false)| == |xs| - Count(partner)
    decreases |xs|
  {
    if xs != [] {
      SelectSizes(xs[..|xs| - 1], partner[..|xs| - 1]);
    }
  }

  lemma {:induction false} SelectSplits<A>(xs: seq<A>, partner: seq<Option<nat>>)
    requires |xs| == |partner|
    ensures multiset(xs) == multiset(Select(xs, partner, true)) + multiset(Select(xs, partner, false))
    decreases |xs|
  {
    if xs != [] {
      var n := |xs| - 1;
      SelectSplits(xs[..n], partner[..n]);
      assert xs == xs[..n] + [xs[n]];
      assert multiset(xs) == multiset(xs[..n]) + multiset{xs[n]};
      var front := Select(xs[..n], partner[..n], partner[n].Some?);
      assert Select(xs, partner, partner[n].Some?) == front + [xs[n]];
      assert multiset(front + [xs[n]]) == multiset(front) + multiset{xs[n]};
      assert Select(xs, partner, !partner[n].Some?) == Select(xs[..n], partner[..n], !partner[n].Some?);
    }
  }

  // ---------------------------------------------------------------- the two loops

  // The first remaining finding that is the same as f, and where it is.
  method FindPartner(f: Finding, remaining: seq<Finding>, tolerance: int)
    returns (partner: Option<Finding>, ghost at: nat)
    ensures partner.None? ==> forall k :: 0 <= k < |remaining| ==> !Same(f, remaining[k], tolerance)
    ensures partner.Some? ==> at < |remaining| && remaining[at] == partner.value && Same(f, partner.value, tolerance)
    ensures partner.Some? ==> forall k :: 0 <= k < at ==> !Same(f, remaining[k], tolerance)
  {
    at := 0;
    for i := 0 to |remaining|
      invariant forall k :: 0 <= k < i ==> !Same(f, remaining[k], tolerance)
    {
      if Same(f, remaining[i], tolerance) {
        return Some(remaining[i]), i;
      }
    }
    partner := None;
  }

  method MatchCrossTool(ours: seq<Finding>, theirs: seq<Finding>, tolerance: int)
    returns (shared: seq<Finding>, oursOnly: seq<Finding>, theirsOnly: seq<Finding>)
    ensures var m := Greedy(SameWithin(tolerance), ours, theirs);
            shared == Select(ours, m.partner, true) && oursOnly == Select(ours, m.partner, false) &&
            theirsOnly == Gather(theirs, m.free)
  {
    shared, oursOnly := [], [];
    var remaining := theirs;
    ghost var rel := SameWithin(tolerance);
    ghost var m := Greedy(rel, [], theirs);
    assert remaining == Gather(theirs, m.free);
    assert ours[..0] == [];
    for i := 0 to |ours|
      invariant m == Greedy(rel, ours[..i], theirs)
      invariant shared == Select(ours[..i], m.partner, true)
      invariant oursOnly == Select(ours[..i], m.partner, false)
      invariant remaining == Gather(theirs, m.free)
    {
      var partner, at := FindPartner(ours[i], remaining, tolerance);
      ghost var p := if partner.None? then None else Some(m.free[at]);
      assert ours[..i + 1] == ours[..i] + [ours[i]];
      SelectSnoc(ours[..i], ours[i], m.partner, p, true);
      SelectSnoc(ours[..i], ours[i], m.partner, p, false);
      if partner.None? {
        oursOnly := oursOnly + [ours[i]];
        NoneLeft(ours[..i], ours[i], theirs, tolerance, remaining);
        m := Matched(m.partner + [None], m.free);
      } else {
        shared := shared + [ours[i]];
        FirstLeft(ours[..i], ours[i], theirs, tolerance, remaining, at);
        remaining := RemoveFirst(remaining, partner.value);
        m := Matched(m.partner + [Some(m.free[at])], Without(m.free, at));
      }
    }
    assert ours[..|ours|] == ours;
    theirsOnly := remaining;
  }

  // Scanning what remains, in order, is scanning the free positions.
  lemma NoneLeft(done: seq<Finding>, f: Finding, theirs: seq<Finding>, tolerance: int, remaining: seq<Finding>)
    requires remaining == Gather(theirs, Greedy(SameWithin(tolerance), done, theirs).free)
    requires forall k :: 0 <= k < |remaining| ==> !Same(f, remaining[k], tolerance)
    ensures var m := Greedy(SameWithin(tolerance), done, theirs);
            Greedy(SameWithin(tolerance), done + [f], theirs) == Matched(m.partner + [None], m.free)
  {
    var m := Greedy(SameWithin(tolerance), done, theirs);
    forall j | j in m.free
      ensures !Same(f, theirs[j], tolerance)
    {
      var k :| 0 <= k < |m.free| && m.free[k] == j;
      assert remaining[k] == theirs[j];
    }
    GreedySkips(SameWithin(tolerance), done, f, theirs);
  }

  lemma FirstLeft(
    done: seq<Finding>, f: Finding, theirs: seq<Finding>, tolerance: int, remaining: seq<Finding>, at: nat)
    requires remaining == Gather(theirs, Greedy(SameWithin(tolerance), done, theirs).free)
    requires at < |remaining| && Same(f, remaining[at], tolerance)
    requires forall k :: 0 <= k < at ==> !Same(f, remaining[k], tolerance)
    ensures var m := Greedy(SameWithin(tolerance), done, theirs);
            Greedy(SameWithin(tolerance), done + [f], theirs) ==
              Matched(m.partner + [Some(m.free[at])], Without(m.free, at)) &&
            RemoveFirst(remaining, remaining[at]) == Gather(theirs, Without(m.free, at))
  {
    var m := Greedy(SameWithin(tolerance), done, theirs);
    forall k | 0 <= k < at
      ensures !Same(f, theirs[m.free[k]], tolerance)
    {
      assert remaining[k] == theirs[m.free[k]];
    }
    GreedyTakes(SameWithin(tolerance), done, f, theirs, at);
    EarlierDiffer(f, remaining, tolerance, at);
    RemoveFirstAt(remaining, at);
    GatherSkips(theirs, m.free, at);
  }

  // Everything before the first match differs from it, or it would have matched too.
  lemma EarlierDiffer(f: Finding, remaining: seq<Finding>, tolerance: int, at: nat)
    requires at < |remaining| && Same(f, remaining[at], tolerance)
    requires forall k :: 0 <= k < at ==> !Same(f, remaining[k], tolerance)
    ensures forall k :: 0 <= k < at ==> remaining[k] != remaining[at]
  {
  }

  lemma GatherSkips<B>(xs: seq<B>, at: seq<nat>, k: nat)
    requires Positions(at, |xs|) && k < |at|
    ensures Gather(xs, Without(at, k)) == Gather(xs, at)[..k] + Gather(xs, at)[k + 1..]
  {
  }

  // ---------------------------------------------------------------- what the cross-tool lists satisfy

  // The partners and what is left over make up the other list.
  lemma {:induction false} TheirsConserved(ours: seq<Finding>, theirs: seq<Finding>, tolerance: int)
    ensures var m := Greedy(SameWithin(tolerance), ours, theirs);
            multiset(Gather(theirs, m.free)) + multiset(Partners(theirs, m.partner)) == multiset(theirs)
    decreases |ours|
  {
    var rel := SameWithin(tolerance);
    var m := Greedy(rel, ours, theirs);
    if ours == [] {
      assert Gather(theirs, m.free) == theirs;
    } else {
      var n := |ours| - 1;
      var before := Greedy(rel, ours[..n], theirs);
      TheirsConserved(ours[..n], theirs, tolerance);
      var p := FirstFree(rel, ours[n], theirs, before.free);
      if p.None? {
        PartnersSnoc(theirs, before.partner, None);
      } else {
        PartnersSnoc(theirs, before.partner, Some(before.free[p.value]));
        GatherWithout(theirs, before.free, p.value);
      }
    }
  }

  ghost predicate Paired(tolerance: int, shared: seq<Finding>, partners: seq<Finding>)
  {
    |partners| == |shared| && forall k :: 0 <= k < |shared| ==> Same(shared[k], partners[k], tolerance)
  }

  lemma {:induction false} SelectedPaired(
    xs: seq<Finding>, ys: seq<Finding>, partner: seq<Option<nat>>, tolerance: int)
    requires |xs| == |partner| && Placed(partner, |ys|)
    requires forall i :: 0 <= i < |xs| && partner[i].Some? ==> Same(xs[i], ys[partner[i].value], tolerance)
    ensures Paired(tolerance, Select(xs, partner, true), Partners(ys, partner))
    decreases |xs|
  {
    if xs != [] {
      SelectedPaired(xs[..|xs| - 1], ys, partner[..|xs| - 1], tolerance);
    }
  }

  // Each shared finding stands with the partner it was matched to.
  lemma PartnersMatch(ours: seq<Finding>, theirs: seq<Finding>, tolerance: int)
    ensures var m := Greedy(SameWithin(tolerance), ours, theirs);
            Paired(tolerance, Select(ours, m.partner, true), Partners(theirs, m.partner))
  {
    var m := Greedy(SameWithin(tolerance), ours, theirs);
    forall i | 0 <= i < |ours| && m.partner[i].Some?
      ensures Same(ours[i], theirs[m.partner[i].value], tolerance)
    {
      GreedyRelated(SameWithin(tolerance), ours, theirs, i);
    }
    SelectedPaired(ours, theirs, m.partner, tolerance);
  }

  lemma PartnersSnoc<B>(xs: seq<B>, partner: seq<Option<nat>>, p: Option<nat>)
    requires Placed(partner + [p], |xs|) && Placed(partner, |xs|) && (p.Some? ==> p.value < |xs|)
    ensures Partners(xs, partner + [p]) == Partners(xs, partner) + if p.Some? then [xs[p.value]] else []
  {
    assert (partner + [p])[..|partner|] == partner;
  }

  lemma GatherWithout(xs: seq<Finding>, at: seq<nat>, k: nat)
    requires Positions(at, |xs|) && k < |at|
    ensures multiset(Gather(xs, Without(at, k))) + multiset{xs[at[k]]} == multiset(Gather(xs, at))
  {
    var all := Gather(xs, at);
    assert all == all[..k] + [all[k]] + all[k + 1..];
    GatherSkips(xs, at, k);
  }

  lemma LeftoversDiffer(ours: seq<Finding>, theirs: seq<Finding>, tolerance: int)
    ensures var m := Greedy(SameWithin(tolerance), ours, theirs);
            forall a, b :: a in Select(ours, m.partner, false) && b in Gather(theirs, m.free) ==> !Same(a, b, tolerance)
  {
    var rel := SameWithin(tolerance);
    var m := Greedy(rel, ours, theirs);
    GreedyConsistent(rel, ours, theirs);
    forall a, b | a in Select(ours, m.partner, false) && b in Gather(theirs, m.free)
      ensures !Same(a, b, tolerance)
    {
      var i := SelectedFrom(ours, m.partner, false, a);
      var k :| 0 <= k < |m.free| && Gather(theirs, m.free)[k] == b;
      GreedyMaximal(rel, ours, theirs, i, m.free[k]);
    }
  }

  // Both lists survive whole, each shared finding with a partner that is the same, nothing left over on
  // both sides matches, and no matching at all could share more than twice as many findings.
  lemma CrossToolGuarantee(ours: seq<Finding>, theirs: seq<Finding>, tolerance: int, pairs: set<(nat, nat)>)
    requires ValidMatching(SameWithin(tolerance), ours, theirs, pairs)
    ensures var m := Greedy(SameWithin(tolerance), ours, theirs);
            var shared, oursOnly, theirsOnly :=
              Select(ours, m.partner, true), Select(ours, m.partner, false), Gather(theirs, m.free);
            var partners := Partners(theirs, m.partner);
            multiset(ours) == multiset(shared) + multiset(oursOnly) &&
            multiset(theirs) == multiset(partners) + multiset(theirsOnly) &&
            Paired(tolerance, shared, partners) &&
            |ours| == |shared| + |oursOnly| && |theirs| == |shared| + |theirsOnly| &&
            (forall a, b :: a in oursOnly && b in theirsOnly ==> !Same(a, b, tolerance)) &&
            |pairs| <= 2 * |shared|
  {
    var rel := SameWithin(tolerance);
    var m := Greedy(rel, ours, theirs);
    SelectSplits(ours, m.partner);
    SelectSizes(ours, m.partner);
    TheirsConserved(ours, theirs, tolerance);
    PartnersMatch(ours, theirs, tolerance);
    GreedyConsistent(rel, ours, theirs);
    GreedyIsHalfOptimal(rel, ours, theirs, pairs);
    LeftoversDiffer(ours, theirs, tolerance);
  }

  lemma {:induction false} SelectedFrom<A>(xs: seq<A>, partner: seq<Option<nat>>, matched: bool, x: A) returns (i: nat)
    requires |xs| == |partner| && x in Select(xs, partner, matched)
    ensures i < |xs| && xs[i] == x && partner[i].Some? == matched
    decreases |xs|
  {
    var n := |xs| - 1;
    if partner[n].Some? == matched && xs[n] == x {
      i := n;
    } else {
      i := SelectedFrom(xs[..n], partner[..n], matched, x);
    }
  }

  // ---------------------------------------------------------------- ground truth

  function CasesWhere(cases: seq<Case>, vulnerable: bool): (r: seq<Case>)
    ensures forall c :: c in r ==> c in cases && c.expectedVulnerable == vulnerable
    ensures forall c :: c in cases && c.expectedVulnerable == vulnerable ==> c in r
  {
    if cases == [] then []
    else (if cases[0].expectedVulnerable == vulnerable then [cases[0]] else []) + CasesWhere(cases[1..], vulnerable)
  }

  predicate DistinctIds(cases: seq<Case>)
  {
    forall j, k :: 0 <= j < k < |cases| ==> cases[j].caseId != cases[k].caseId
  }

  lemma {:induction false} DistinctWhere(cases: seq<Case>, vulnerable: bool)
    requires DistinctIds(cases)
    ensures DistinctIds(CasesWhere(cases, vulnerable))
  {
    if cases != [] {
      var rest := CasesWhere(cases[1..], vulnerable);
      DistinctWhere(cases[1..], vulnerable);
      forall k | 0 <= k < |rest|
        ensures rest[k].caseId != cases[0].caseId
      {
        assert rest[k] in cases[1..];
      }
    }
  }

  function Ids(cases: seq<Case>): (r: seq<Text>)
  {
    seq(|cases|, k requires 0 <= k < |cases| => cases[k].caseId)
  }

  // The first case not consumed yet that the finding matches, and where it is.
  method FindCase(f: Finding, cases: seq<Case>, consumed: set<Text>, tolerance: int)
    returns (hit: Option<Case>, ghost at: nat)
    ensures hit.None? ==> forall k :: 0 <= k < |cases| && cases[k].caseId !in consumed ==>
                            !MatchesCase(f, cases[k], tolerance)
    ensures hit.Some? ==> at < |cases| && cases[at] == hit.value && MatchesCase(f, hit.value, tolerance)
    ensures hit.Some? ==> hit.value.caseId !in consumed &&
                          forall k :: 0 <= k < at && cases[k].caseId !in consumed ==>
                              !MatchesCase(f, cases[k], tolerance)
  {
    at := 0;
    for i := 0 to |cases|
      invariant forall k :: 0 <= k < i && cases[k].caseId !in consumed ==> !MatchesCase(f, cases[k], tolerance)
    {
      if cases[i].caseId !in consumed && MatchesCase(f, cases[i], tolerance) {
        return Some(cases[i]), i;
      }
    }
    hit := None;
  }

  // The free positions are those of the cases not consumed.
  ghost predicate FreeCases(cases: seq<Case>, free: seq<nat>, consumed: set<Text>)
  {
    forall j :: 0 <= j < |cases| ==> (j in free <==> cases[j].caseId !in consumed)
  }

  lemma CaseMissing(done: seq<Finding>, f: Finding, cases: seq<Case>, consumed: set<Text>, tolerance: int)
    requires FreeCases(cases, Greedy(CaseWithin(tolerance), done, cases).free, consumed)
    requires forall k :: 0 <= k < |cases| && cases[k].caseId !in consumed ==> !MatchesCase(f, cases[k], tolerance)
    ensures var m := Greedy(CaseWithin(tolerance), done, cases);
            Greedy(CaseWithin(tolerance), done + [f], cases) == Matched(m.partner + [None], m.free)
  {
    GreedySkips(CaseWithin(tolerance), done, f, cases);
  }

  lemma CaseFound(done: seq<Finding>, f: Finding, cases: seq<Case>, consumed: set<Text>, tolerance: int, at: nat)
    requires FreeCases(cases, Greedy(CaseWithin(tolerance), done, cases).free, consumed) && DistinctIds(cases)
    requires at < |cases| && cases[at].caseId !in consumed && MatchesCase(f, cases[at], tolerance)
    requires forall k :: 0 <= k < at && cases[k].caseId !in consumed ==> !MatchesCase(f, cases[k], tolerance)
    ensures var m, next := Greedy(CaseWithin(tolerance), done, cases), Greedy(CaseWithin(tolerance), done + [f], cases);
            next.partner == m.partner + [Some(at)] && FreeCases(cases, next.free, consumed + {cases[at].caseId})
  {
    var free := Greedy(CaseWithin(tolerance), done, cases).free;
    var p :| 0 <= p < |free| && free[p] == at;
    forall k | 0 <= k < p
      ensures !MatchesCase(f, cases[free[k]], tolerance)
    {
      assert free[k] in free && free[k] < at;
    }
    GreedyTakes(CaseWithin(tolerance), done, f, cases, p);
    forall j | 0 <= j < |cases|
      ensures j in Without(free, p) <==> cases[j].caseId !in consumed + {cases[at].caseId}
    {
      WithoutMembers(free, p, j);
    }
  }

  // The loop has classified a prefix of the findings as greedy matching against the cases does.
  ghost predicate Classified(
    done: seq<Finding>, cases: seq<Case>, tolerance: int, consumed: set<Text>, ids: seq<Text>, rest: seq<Finding>)
  {
    var m := Greedy(CaseWithin(tolerance), done, cases);
    FreeCases(cases, m.free, consumed) && ids == Ids(Partners(cases, m.partner)) &&
    rest == Select(done, m.partner, false)
  }

  lemma ClassifiedFirst(cases: seq<Case>, tolerance: int)
    ensures Classified([], cases, tolerance, {}, [], [])
  {
    var free := Greedy(CaseWithin(tolerance), [], cases).free;
    forall j | 0 <= j < |cases|
      ensures j in free
    {
      assert free[j] == j;
    }
  }

  lemma HitLists(done: seq<Finding>, f: Finding, cases: seq<Case>, partner: seq<Option<nat>>, at: nat)
    requires |partner| == |done| && Placed(partner, |cases|) && at < |cases|
    ensures Placed(partner + [Some(at)], |cases|)
    ensures Ids(Partners(cases, partner + [Some(at)])) == Ids(Partners(cases, partner)) + [cases[at].caseId]
    ensures Select(done + [f], partner + [Some(at)], false) == Select(done, partner, false)
  {
    PartnersSnoc(cases, partner, Some(at));
    SelectSnoc(done, f, partner, Some(at), false);
  }

  lemma ClassifiedHit(
    done: seq<Finding>, f: Finding, cases: seq<Case>, tolerance: int, consumed: set<Text>, ids: seq<Text>,
    rest: seq<Finding>, at: nat)
    requires Classified(done, cases, tolerance, consumed, ids, rest) && DistinctIds(cases)
    requires at < |cases| && cases[at].caseId !in consumed && MatchesCase(f, cases[at], tolerance)
    requires forall k :: 0 <= k < at && cases[k].caseId !in consumed ==> !MatchesCase(f, cases[k], tolerance)
    ensures Classified(done + [f], cases, tolerance, consumed + {cases[at].caseId}, ids + [cases[at].caseId], rest)
  {
    var m, next := Greedy(CaseWithin(tolerance), done, cases), Greedy(CaseWithin(tolerance), done + [f], cases);
    CaseFound(done, f, cases, consumed, tolerance, at);
    HitLists(done, f, cases, m.partner, at);
  }

  lemma ClassifiedMiss(
    done: seq<Finding>, f: Finding, cases: seq<Case>, tolerance: int, consumed: set<Text>, ids: seq<Text>,
    rest: seq<Finding>)
    requires Classified(done, cases, tolerance, consumed, ids, rest)
    requires forall k :: 0 <= k < |cases| && cases[k].caseId !in consumed ==> !MatchesCase(f, cases[k], tolerance)
    ensures Classified(done + [f], cases, tolerance, consumed, ids, rest + [f])
  {
    var m := Greedy(CaseWithin(tolerance), done, cases);
    CaseMissing(done, f, cases, consumed, tolerance);
    assert Placed(m.partner + [None], |cases|);
    PartnersSnoc(cases, m.partner, None);
    SelectSnoc(done, f, m.partner, None, false);
  }

  // One finding against the vulnerable cases: it consumes the first one it matches, or is a false positive.
  method ClassifyNext(
    ghost done: seq<Finding>, f: Finding, vulnerable: seq<Case>, tolerance: int, consumed: set<Text>,
    ids: seq<Text>, rest: seq<Finding>)
    returns (hit: bool, consumed': set<Text>, ids': seq<Text>, rest': seq<Finding>)
    ensures |ids'| + |rest'| == |ids| + |rest| + 1
    ensures DistinctIds(vulnerable) && Classified(done, vulnerable, tolerance, consumed, ids, rest) ==>
              Classified(done + [f], vulnerable, tolerance, consumed', ids', rest')
  {
    var found, at := FindCase(f, vulnerable, consumed, tolerance);
    ghost var going := DistinctIds(vulnerable) && Classified(done, vulnerable, tolerance, consumed, ids, rest);
    hit := found.Some?;
    if hit {
      consumed', ids', rest' := consumed + {found.value.caseId}, ids + [found.value.caseId], rest;
      if going {
        ClassifiedHit(done, f, vulnerable, tolerance, consumed, ids, rest, at);
      }
    } else {
      consumed', ids', rest' := consumed, ids, rest + [f];
      if going {
        ClassifiedMiss(done, f, vulnerable, tolerance, consumed, ids, rest);
      }
    }
  }

  // Safe cases are consumed too; nothing else reads what they leave.
  method ConsumeSafe(f: Finding, safe: seq<Case>, before: set<Text>, tolerance: int) returns (consumed: set<Text>)
    ensures before <= consumed && |consumed - before| <= 1
    ensures forall id :: id in consumed - before ==>
              exists c :: c in safe && c.caseId == id && MatchesCase(f, c, tolerance)
  {
    consumed := before;
    var hit, at := FindCase(f, safe, consumed, tolerance);
    if hit.Some? {
      consumed := consumed + {hit.value.caseId};
      assert consumed - before == {hit.value.caseId};
      assert safe[at] in safe;
    }
  }

  method ClassifyAll(findings: seq<Finding>, vulnerable: seq<Case>, safe: seq<Case>, tolerance: int)
    returns (ids: seq<Text>, rest: seq<Finding>, ghost consumed: set<Text>)
    ensures |ids| + |rest| == |findings|
    ensures DistinctIds(vulnerable) ==> Classified(findings, vulnerable, tolerance, consumed, ids, rest)
  {
    ids, rest := [], [];
    var consumedVulnerable, consumedSafe := {}, {};
    ClassifiedFirst(vulnerable, tolerance);
    ghost var done: seq<Finding> := [];
    for i := 0 to |findings|
      invariant |ids| + |rest| == i && done == findings[..i]
      invariant DistinctIds(vulnerable) ==> Classified(done, vulnerable, tolerance, consumedVulnerable, ids, rest)
    {
      var hit: bool;
      hit, consumedVulnerable, ids, rest :=
        ClassifyNext(done, findings[i], vulnerable, tolerance, consumedVulnerable, ids, rest);
      done := done + [findings[i]];
      if !hit {
        consumedSafe := ConsumeSafe(findings[i], safe, consumedSafe, tolerance);
      }
    }
    assert done == findings;
    consumed := consumedVulnerable;
  }

  method Classify(findings: seq<Finding>, cases: seq<Case>, tolerance: int)
    returns (matchedIds: seq<Text>, falsePositives: seq<Finding>)
    ensures |matchedIds| + |falsePositives| == |findings|
    ensures DistinctIds(cases) ==>
              var vulnerable := CasesWhere(cases, true);
              var m := Greedy(CaseWithin(tolerance), findings, vulnerable);
              matchedIds == Ids(Partners(vulnerable, m.partner)) &&
              falsePositives == Select(findings, m.partner, false)
  {
    var vulnerable, safe := CasesWhere(cases, true), CasesWhere(cases, false);
    ghost var distinct := DistinctIds(cases);
    if distinct {
      DistinctWhere(cases, true);
    }
    ghost var consumed;
    matchedIds, falsePositives, consumed := ClassifyAll(findings, vulnerable, safe, tolerance);
  }

  // True positives, false positives and misses add up, no false positive matches a missed case, and the
  // true positives are at least half of what any assignment of findings to cases could reach.
  lemma ClassifyGuarantee(findings: seq<Finding>, cases: seq<Case>, tolerance: int, pairs: set<(nat, nat)>)
    requires ValidMatching(CaseWithin(tolerance), findings, CasesWhere(cases, true), pairs)
    ensures var vulnerable := CasesWhere(cases, true);
            var m := Greedy(CaseWithin(tolerance), findings, vulnerable);
            var truePositives := Count(m.partner);
            truePositives + |Select(findings, m.partner, false)| == |findings| &&
            truePositives + |m.free| == |vulnerable| &&
            (forall f, j :: f in Select(findings, m.partner, false) && j in m.free && j < |vulnerable| ==>
               !MatchesCase(f, vulnerable[j], tolerance)) &&
            |pairs| <= 2 * truePositives
  {
    var vulnerable := CasesWhere(cases, true);
    var rel := CaseWithin(tolerance);
    var m := Greedy(rel, findings, vulnerable);
    SelectSizes(findings, m.partner);
    GreedyConsistent(rel, findings, vulnerable);
    GreedyIsHalfOptimal(rel, findings, vulnerable, pairs);
    forall f, j | f in Select(findings, m.partner, false) && j in m.free && j < |vulnerable|
      ensures !MatchesCase(f, vulnerable[j], tolerance)
    {
      var i := SelectedFrom(findings, m.partner, false, f);
      GreedyMaximal(rel, findings, vulnerable, i, j);
    }
  }
}
