/**
 Greedy one-to-one matching of two lists under any relation. Elements are told apart by position, so
 equal elements stay distinct.
 */
module Matching {
  import opened Wrappers

  // For each element of the first list its partner's position, and the second list's free positions.
  datatype Matched = Matched(partner: seq<Option<nat>>, free: seq<nat>)

  predicate Positions(free: seq<nat>, n: nat)
  {
    forall k :: 0 <= k < |free| ==> free[k] < n
  }

  predicate Increasing(free: seq<nat>)
  {
    forall k, l :: 0 <= k < l < |free| ==> free[k] < free[l]
  }

  predicate Placed(partner: seq<Option<nat>>, n: nat)
  {
    forall i :: 0 <= i < |partner| && partner[i].Some? ==> partner[i].value < n
  }

  // Where in the free list the first partner for an element is, if there is one.
  function FirstFree<A(!new), B(!new)>(rel: (A, B) -> bool, a: A, theirs: seq<B>, free: seq<nat>): (p: Option<nat>)
    requires Positions(free, |theirs|)
    ensures p.None? ==> forall k :: 0 <= k < |free| ==> !rel(a, theirs[free[k]])
    ensures p.Some? ==> p.value < |free| && rel(a, theirs[free[p.value]])
    ensures p.Some? ==> forall k :: 0 <= k < p.value ==> !rel(a, theirs[free[k]])
  {
    if free == [] then None
    else if rel(a, theirs[free[0]]) then Some(0)
    else
      var p := FirstFree(rel, a, theirs, free[1..]);
      assert forall k :: 1 <= k < |free| ==> free[k] == free[1..][k - 1];
      if p.None? then None else Some(p.value + 1)
  }

  function Without(free: seq<nat>, k: nat): (r: seq<nat>)
    requires k < |free|
  {
    free[..k] + free[k + 1..]
  }

  // Each element of the first list, in order, takes the first free element it is related to.
  function Greedy<A(!new), B(!new)>(rel: (A, B) -> bool, ours: seq<A>, theirs: seq<B>): (m: Matched)
    ensures |m.partner| == |ours| && Positions(m.free, |theirs|) && Increasing(m.free)
    ensures Placed(m.partner, |theirs|)
  {
    if ours == [] then Matched([], seq(|theirs|, j => j))
    else
      var m := Greedy(rel, ours[..|ours| - 1], theirs);
      var p := FirstFree(rel, ours[|ours| - 1], theirs, m.free);
      if p.None? then Matched(m.partner + [None], m.free)
      else Matched(m.partner + [Some(m.free[p.value])], Without(m.free, p.value))
  }

  // One more element: it stays alone when nothing free is related to it, or takes the first that is.
  lemma GreedySkips<A(!new), B(!new)>(rel: (A, B) -> bool, ours: seq<A>, a: A, theirs: seq<B>)
    requires forall j :: j in Greedy(rel, ours, theirs).free ==> !rel(a, theirs[j])
    ensures var m := Greedy(rel, ours, theirs);
            Greedy(rel, ours + [a], theirs) == Matched(m.partner + [None], m.free)
  {
    assert (ours + [a])[..|ours|] == ours;
  }

  lemma GreedyTakes<A(!new), B(!new)>(rel: (A, B) -> bool, ours: seq<A>, a: A, theirs: seq<B>, at: nat)
    requires at < |Greedy(rel, ours, theirs).free|
    requires var free := Greedy(rel, ours, theirs).free;
             rel(a, theirs[free[at]]) && forall k :: 0 <= k < at ==> !rel(a, theirs[free[k]])
    ensures var m := Greedy(rel, ours, theirs);
            Greedy(rel, ours + [a], theirs) == Matched(m.partner + [Some(m.free[at])], Without(m.free, at))
  {
    assert (ours + [a])[..|ours|] == ours;
  }

  // ---------------------------------------------------------------- what greedy matching guarantees

  function Count(partner: seq<Option<nat>>): (r: nat)
  {
    if partner == [] then 0
    else Count(partner[..|partner| - 1]) + if partner[|partner| - 1].Some? then 1 else 0
  }

  predicate Taken(m: Matched, j: nat)
  {
    exists i :: 0 <= i < |m.partner| && m.partner[i] == Some(j)
  }

  // Partners are pairwise different, and the free positions are exactly the ones nobody has taken.
  predicate Consistent(m: Matched, n: nat)
  {
    (forall i :: 0 <= i < |m.partner| && m.partner[i].Some? ==>
       m.partner[i].value < n && m.partner[i].value !in m.free) &&
    (forall i, k :: 0 <= i < k < |m.partner| && m.partner[i].Some? ==> m.partner[i] != m.partner[k]) &&
    (forall j :: 0 <= j < n ==> j in m.free || Taken(m, j)) &&
    Count(m.partner) + |m.free| == n
  }

  lemma UnmatchedNext(m: Matched, n: nat)
    requires Consistent(m, n)
    ensures Consistent(Matched(m.partner + [None], m.free), n)
  {
    var next := Matched(m.partner + [None], m.free);
    assert next.partner[..|m.partner|] == m.partner;
    assert forall i :: 0 <= i < |m.partner| ==> next.partner[i] == m.partner[i];
  }

  lemma MatchedNext(m: Matched, n: nat, k: nat)
    requires Consistent(m, n) && Positions(m.free, n) && Increasing(m.free) && k < |m.free|
    ensures Consistent(Matched(m.partner + [Some(m.free[k])], Without(m.free, k)), n)
  {
    var next := Matched(m.partner + [Some(m.free[k])], Without(m.free, k));
    var last := |m.partner|;
    assert next.partner[..last] == m.partner;
    assert forall i :: 0 <= i < last ==> next.partner[i] == m.partner[i];
    forall j | 0 <= j < n
      ensures j in next.free || Taken(next, j)
    {
      WithoutMembers(m.free, k, j);
      if j == m.free[k] {
        assert next.partner[last] == Some(j);
      }
    }
    forall i | 0 <= i <= last && next.partner[i].Some?
      ensures next.partner[i].value < n && next.partner[i].value !in next.free
    {
      WithoutMembers(m.free, k, next.partner[i].value);
    }
  }

  lemma {:induction false} GreedyConsistent<A(!new), B(!new)>(rel: (A, B) -> bool, ours: seq<A>, theirs: seq<B>)
    ensures Consistent(Greedy(rel, ours, theirs), |theirs|)
    decreases |ours|
  {
    if ours == [] {
      var m := Greedy(rel, ours, theirs);
      forall j | 0 <= j < |theirs|
        ensures j in m.free
      {
        assert m.free[j] == j;
      }
    } else {
      var n := |ours| - 1;
      var before := Greedy(rel, ours[..n], theirs);
      GreedyConsistent(rel, ours[..n], theirs);
      var p := FirstFree(rel, ours[n], theirs, before.free);
      if p.None? {
        UnmatchedNext(before, |theirs|);
      } else {
        MatchedNext(before, |theirs|, p.value);
      }
    }
  }

  lemma {:induction false} GreedyRelated<A(!new), B(!new)>(rel: (A, B) -> bool, ours: seq<A>, theirs: seq<B>, i: nat)
    requires i < |ours| && Greedy(rel, ours, theirs).partner[i].Some?
    ensures var j := Greedy(rel, ours, theirs).partner[i].value; j < |theirs| && rel(ours[i], theirs[j])
    decreases |ours|
  {
    var n := |ours| - 1;
    if i < n {
      assert Greedy(rel, ours, theirs).partner[i] == Greedy(rel, ours[..n], theirs).partner[i];
      GreedyRelated(rel, ours[..n], theirs, i);
    }
  }

  lemma WithoutMembers(free: seq<nat>, k: nat, j: nat)
    requires k < |free| && Increasing(free)
    ensures j in Without(free, k) <==> j in free && j != free[k]
  {
    if j in free && j != free[k] {
      var i :| 0 <= i < |free| && free[i] == j;
      assert Without(free, k)[if i < k then i else i - 1] == j;
    }
  }

  // Nothing related is left over on both sides.
  lemma {:induction false} GreedyMaximal<A(!new), B(!new)>(rel: (A, B) -> bool, ours: seq<A>, theirs: seq<B>, i: nat,
      j: nat)
    requires i < |ours| && j < |theirs|
    requires Greedy(rel, ours, theirs).partner[i].None? && j in Greedy(rel, ours, theirs).free
    ensures !rel(ours[i], theirs[j])
    decreases |ours|
  {
    var n := |ours| - 1;
    var before := Greedy(rel, ours[..n], theirs);
    var p := FirstFree(rel, ours[n], theirs, before.free);
    if p.Some? {
      WithoutMembers(before.free, p.value, j);
    }
    if i < n {
      GreedyMaximal(rel, ours[..n], theirs, i, j);
    }
  }

  // Any one-to-one set of related pairs.
  ghost predicate ValidMatching<A(!new), B(!new)>(rel: (A, B) -> bool, ours: seq<A>, theirs: seq<B>,
      pairs: set<(nat, nat)>)
  {
    (forall q :: q in pairs ==> q.0 < |ours| && q.1 < |theirs| && rel(ours[q.0], theirs[q.1])) &&
    (forall q, r :: q in pairs && r in pairs && (q.0 == r.0 || q.1 == r.1) ==> q == r)
  }

  lemma {:induction false} FirstsBounded(pairs: set<(nat, nat)>, targets: set<nat>)
    requires forall q :: q in pairs ==> q.0 in targets
    requires forall q, r :: q in pairs && r in pairs && q.0 == r.0 ==> q == r
    ensures |pairs| <= |targets|
    decreases |pairs|
  {
    if pairs != {} {
      var q :| q in pairs;
      FirstsBounded(pairs - {q}, targets - {q.0});
    }
  }

  lemma {:induction false} SecondsBounded(pairs: set<(nat, nat)>, targets: set<nat>)
    requires forall q :: q in pairs ==> q.1 in targets
    requires forall q, r :: q in pairs && r in pairs && q.1 == r.1 ==> q == r
    ensures |pairs| <= |targets|
    decreases |pairs|
  {
    if pairs != {} {
      var q :| q in pairs;
      SecondsBounded(pairs - {q}, targets - {q.1});
    }
  }

  function MatchedSet(partner: seq<Option<nat>>): (r: set<nat>)
    ensures forall i :: i in r <==> 0 <= i < |partner| && partner[i].Some?
    ensures |r| == Count(partner)
  {
    if partner == [] then {}
    else
      var n := |partner| - 1;
      MatchedSet(partner[..n]) + if partner[n].Some? then {n} else {}
  }

  function Elements(s: seq<nat>): (r: set<nat>)
    ensures forall j :: j in r <==> j in s
    ensures Increasing(s) ==> |r| == |s|
  {
    if s == [] then {}
    else
      var n := |s| - 1;
      assert s == s[..n] + [s[n]];
      Elements(s[..n]) + {s[n]}
  }

  function UpTo(n: nat): (r: set<nat>)
    ensures forall j :: j in r <==> 0 <= j < n
    ensures |r| == n
  {
    if n == 0 then {} else UpTo(n - 1) + {n - 1}
  }

  // A one-to-one set of pairs is no larger than any set of positions touching all of them.
  lemma CoverBound(pairs: set<(nat, nat)>, left: set<nat>, right: set<nat>)
    requires forall q :: q in pairs ==> q.0 in left || q.1 in right
    requires forall q, r :: q in pairs && r in pairs && (q.0 == r.0 || q.1 == r.1) ==> q == r
    ensures |pairs| <= |left| + |right|
  {
    var first := set q | q in pairs && q.0 in left;
    FirstsBounded(first, left);
    SecondsBounded(pairs - first, right);
    assert pairs == first + (pairs - first);
  }

  // No matching whatsoever has more than twice as many pairs.
  lemma GreedyIsHalfOptimal<A(!new), B(!new)>(
    rel: (A, B) -> bool, ours: seq<A>, theirs: seq<B>, pairs: set<(nat, nat)>)
    requires ValidMatching(rel, ours, theirs, pairs)
    ensures |pairs| <= 2 * Count(Greedy(rel, ours, theirs).partner)
  {
    var m := Greedy(rel, ours, theirs);
    GreedyConsistent(rel, ours, theirs);
    var matched, free, all := MatchedSet(m.partner), Elements(m.free), UpTo(|theirs|);
    forall q | q in pairs
      ensures q.0 in matched || q.1 in all - free
    {
      if q.0 !in matched && q.1 in m.free {
        GreedyMaximal(rel, ours, theirs, q.0, q.1);
        assert false;
      }
    }
    CoverBound(pairs, matched, all - free);
    SizeOfRest(all, free);
  }

  lemma SizeOfRest(all: set<nat>, free: set<nat>)
    requires free <= all
    ensures |all - free| == |all| - |free|
  {
    assert all == free + (all - free);
  }
}
