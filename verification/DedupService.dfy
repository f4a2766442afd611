/** The registry as the service keeps it: built up by loops over buckets, rewritten in place. */
module DedupService {
  import opened Wrappers
  import opened DedupGroups

  datatype DeduplicationResult = DeduplicationResult(
    totalFindings: nat, uniqueFindings: nat, duplicateFindings: int, groups: seq<Group>)

  // The fingerprints of a batch, each once.
  ghost predicate Order(order: seq<int>, prints: set<int>)
  {
    (forall i :: 0 <= i < |order| ==> order[i] in prints) && (forall v :: v in prints ==> v in order) &&
    forall i, j :: 0 <= i < j < |order| ==> order[i] != order[j]
  }

  // The fingerprints of a batch in the order in which they first occur.
  function FirstPrints(fs: seq<Finding>): (order: seq<int>)
  {
    if fs == [] then []
    else
      var front := FirstPrints(fs[..|fs| - 1]);
      var v := fs[|fs| - 1].fingerprint;
      if v in front then front else front + [v]
  }

  lemma {:induction false} FirstPrintsOnce(fs: seq<Finding>)
    ensures Order(FirstPrints(fs), Prints(fs))
    decreases |fs|
  {
    if fs != [] {
      var front, f := fs[..|fs| - 1], fs[|fs| - 1];
      assert fs == front + [f];
      FirstPrintsOnce(front);
      OrderNext(FirstPrints(front), front, f);
    }
  }

  // The fingerprints of any initial part of the batch come before all others.
  lemma {:induction false} EarlierPrintsFirst(fs: seq<Finding>, k: nat)
    requires k <= |fs|
    ensures FirstPrints(fs[..k]) <= FirstPrints(fs)
    decreases |fs|
  {
    if k < |fs| {
      var front := fs[..|fs| - 1];
      EarlierPrintsFirst(front, k);
      assert front[..k] == fs[..k];
    } else {
      assert fs[..k] == fs;
    }
  }

  // The registry's groups under these fingerprints, one by one.
  ghost predicate Lists(listed: seq<Group>, order: seq<int>, reg: Registry)
  {
    |listed| == |order| && forall i :: 0 <= i < |order| ==> order[i] in reg && listed[i] == reg[order[i]]
  }

  class DeduplicationService {
    var groups: Registry

    constructor ()
      ensures groups == map[]
    {
      groups := map[];
    }

    method FillBuckets(findings: seq<Finding>) returns (buckets: map<int, seq<Finding>>, order: seq<int>)
      ensures Filled(buckets, findings) && order == FirstPrints(findings)
    {
      buckets, order := map[], [];
      assert findings[..0] == [];
      for i := 0 to |findings|
        invariant Filled(buckets, findings[..i]) && order == FirstPrints(findings[..i])
      {
        var f := findings[i];
        var v := f.fingerprint;
        assert findings[..i + 1] == findings[..i] + [f];
        FilledNext(buckets, findings[..i], f);
        FirstPrintsOnce(findings[..i]);
        assert findings[..i + 1][..i] == findings[..i];
        if v in buckets {
          buckets := buckets[v := buckets[v] + [f]];
        } else {
          buckets := buckets[v := [f]];
          order := order + [v];
        }
      }
      assert findings[..|findings|] == findings;
    }

    // The members of one bucket and those an existing group still has.
    method CollectMembers(bucket: seq<Finding>, memberIds: seq<int>, submitted: set<int>, store: Store)
      returns (members: seq<Finding>)
      ensures members == bucket + Kept(memberIds, submitted, store)
    {
      members := bucket;
      assert memberIds[..0] == [];
      for i := 0 to |memberIds|
        invariant members == bucket + Kept(memberIds[..i], submitted, store)
      {
        assert memberIds[..i + 1][..i] == memberIds[..i];
        var x := memberIds[i];
        if x !in submitted && x in store {
          members := members + [store[x]];
        }
      }
      assert memberIds[..|memberIds|] == memberIds;
    }

    method Regroup(findings: seq<Finding>, bucket: seq<Finding>, submitted: set<int>, store: Store, v: int)
      returns (group: Group)
      requires v in Prints(findings) && bucket == Bucket(findings, v) && submitted == IdSet(findings)
      ensures group == Regrouped(groups, findings, store, v)
    {
      PrintHasBucket(findings, v);
      var members := bucket;
      if v in groups {
        members := CollectMembers(members, groups[v].memberIds, submitted, store);
      }
      assert members == MembersAfter(groups, findings, store, v);
      group := GroupOf(v, members);
    }

    // The groups of all buckets, and the registry with them.
    method RegroupAll(findings: seq<Finding>, buckets: map<int, seq<Finding>>, keys: seq<int>, store: Store)
      returns (made: seq<Group>, next: Registry)
      requires Filled(buckets, findings) && Order(keys, Prints(findings))
      ensures next == AfterDedup(groups, findings, store) && Lists(made, keys, next)
    {
      var submitted := IdSet(findings);
      made, next := [], groups;
      assert keys[..0] == [];
      for k := 0 to |keys|
        invariant made == AllRegrouped(groups, findings, store, keys[..k])
        invariant next == Rebuilt(groups, findings, store, keys[..k])
      {
        var v := keys[k];
        assert keys[..k + 1][..k] == keys[..k];
        var group := Regroup(findings, buckets[v], submitted, store, v);
        made := made + [group];
        next := next[v := group];
      }
      assert keys[..|keys|] == keys;
      RebuiltIsAfterDedup(groups, findings, store, keys);
      RegroupedInAfter(groups, findings, store, keys);
    }

    // The groups touched are listed in the order in which their fingerprints first occur.
    method Deduplicate(findings: seq<Finding>, store: Store) returns (result: DeduplicationResult)
      modifies this
      ensures groups == AfterDedup(old(groups), findings, store)
      ensures result.totalFindings == |findings| && result.uniqueFindings == |result.groups|
      ensures result.duplicateFindings == |findings| - |result.groups|
      ensures Lists(result.groups, FirstPrints(findings), groups)
    {
      var buckets, keys := FillBuckets(findings);
      FirstPrintsOnce(findings);
      var made, next := RegroupAll(findings, buckets, keys, store);
      groups := next;
      result := DeduplicationResult(|findings|, |made|, |findings| - |made|, made);
    }

    // What the deletion leaves of one group: all of it, nothing, or the members still in the store.
    method RemainsIn(group: Group, removed: set<int>, store: Store) returns (r: Remains)
      ensures r == RemainsOf(group, removed, store)
    {
      var remaining := Survivors(group.memberIds, removed);
      if |remaining| == |group.memberIds| {
        return Untouched;
      }
      if remaining == [] {
        return Gone;
      }
      var members := CollectMembers([], remaining, {}, store);
      assert members == Kept(remaining, {}, store);
      r := if members == [] then Gone else Shrunk(members);
    }

    method RemoveFindings(removed: set<int>, store: Store)
      modifies this
      ensures groups == AfterRemove(old(groups), removed, store)
    {
      var todo := groups.Keys;
      ghost var before := groups;
      RewritingStarts(before, removed, store);
      while todo != {}
        invariant Rewriting(groups, before, removed, store, todo)
        decreases |todo|
      {
        var v := Choose(todo);
        todo := todo - {v};
        RewriteEntry(groups, before, removed, store, todo, v);
        var remains := RemainsIn(groups[v], removed, store);
        match remains {
          case Untouched =>
          case Gone =>
            groups := groups - {v};
          case Shrunk(members) =>
            groups := groups[v := GroupOf(groups[v].fingerprint, members)];
        }
      }
      RewritingEnds(groups, before, removed, store);
    }
  }

  // ---------------------------------------------------------------- the deletion, entry by entry

  // Entries still to do are as they were; the others are as they will be.
  ghost predicate Rewriting(groups: Registry, before: Registry, removed: set<int>, store: Store, todo: set<int>)
  {
    todo <= before.Keys && todo <= groups.Keys &&
    (forall v :: v in todo ==> groups[v] == before[v]) &&
    (forall v :: v in groups && v !in todo ==> v in before && groups[v] == EntryAfter(before[v], removed, store)) &&
    (forall v :: v in before && v !in todo ==> (v in groups <==> !RemainsOf(before[v], removed, store).Gone?))
  }

  lemma RewritingStarts(before: Registry, removed: set<int>, store: Store)
    ensures Rewriting(before, before, removed, store, before.Keys)
  {
  }

  // One entry is done: it is gone, or what it will be.
  lemma EntryDone(groups: Registry, next: Registry, before: Registry, removed: set<int>, store: Store, todo: set<int>,
      v: int)
    requires Rewriting(groups, before, removed, store, todo + {v}) && v !in todo
    requires forall w :: w != v ==> (w in next <==> w in groups) && (w in next && w in groups ==> next[w] == groups[w])
    requires v in before ==>
               (v in next <==> !RemainsOf(before[v], removed, store).Gone?)
               && (v in next ==> next[v] == EntryAfter(before[v], removed, store))
    ensures v in before && Rewriting(next, before, removed, store, todo)
  {
    assert v in todo + {v};
    forall w | w in todo
      ensures w in next && w in before && next[w] == before[w]
    {
      assert w in todo + {v};
    }
  }

  lemma RewriteEntry(groups: Registry, before: Registry, removed: set<int>, store: Store, todo: set<int>, v: int)
    requires Rewriting(groups, before, removed, store, todo + {v}) && v !in todo
    ensures v in before && v in groups && groups[v] == before[v]
    ensures var r := RemainsOf(before[v], removed, store);
            && (r.Gone? ==> Rewriting(groups - {v}, before, removed, store, todo))
            && (r.Untouched? ==> Rewriting(groups, before, removed, store, todo))
            && (r.Shrunk? ==>
                  Rewriting(groups[v := GroupOf(before[v].fingerprint, r.members)], before, removed, store, todo))
  {
    assert v in todo + {v};
    var r := RemainsOf(before[v], removed, store);
    var next := match r
                case Gone => groups - {v}
                case Untouched => groups
                case Shrunk(members) => groups[v := GroupOf(before[v].fingerprint, members)];
    EntryDone(groups, next, before, removed, store, todo, v);
  }

  lemma RewritingEnds(groups: Registry, before: Registry, removed: set<int>, store: Store)
    requires Rewriting(groups, before, removed, store, {})
    ensures groups == AfterRemove(before, removed, store)
  {
    var after := AfterRemove(before, removed, store);
    forall v
      ensures v in groups <==> v in after
      ensures v in groups ==> groups[v] == after[v]
    {
      assert v !in {};
    }
  }

  // ---------------------------------------------------------------- the submission, bucket by bucket

  function AllRegrouped(reg: Registry, fs: seq<Finding>, store: Store, order: seq<int>): (r: seq<Group>)
    requires forall i :: 0 <= i < |order| ==> order[i] in Prints(fs)
    ensures |r| == |order|
  {
    if order == [] then []
    else
      var n := |order| - 1;
      AllRegrouped(reg, fs, store, order[..n]) + [Regrouped(reg, fs, store, order[n])]
  }

  lemma {:induction false} AllRegroupedAt(reg: Registry, fs: seq<Finding>, store: Store, order: seq<int>, i: nat)
    requires i < |order| && forall k :: 0 <= k < |order| ==> order[k] in Prints(fs)
    ensures AllRegrouped(reg, fs, store, order)[i] == Regrouped(reg, fs, store, order[i])
    decreases |order|
  {
    if i < |order| - 1 {
      AllRegroupedAt(reg, fs, store, order[..|order| - 1], i);
    }
  }

  function Rebuilt(reg: Registry, fs: seq<Finding>, store: Store, order: seq<int>): (r: Registry)
    requires forall i :: 0 <= i < |order| ==> order[i] in Prints(fs)
  {
    if order == [] then reg
    else
      var n := |order| - 1;
      Rebuilt(reg, fs, store, order[..n])[order[n] := Regrouped(reg, fs, store, order[n])]
  }

  lemma {:induction false} RebuiltAt(reg: Registry, fs: seq<Finding>, store: Store, order: seq<int>, v: int)
    requires forall i :: 0 <= i < |order| ==> order[i] in Prints(fs)
    ensures v in Rebuilt(reg, fs, store, order) <==> v in reg || v in order
    ensures v in order ==> v in Prints(fs) && Rebuilt(reg, fs, store, order)[v] == Regrouped(reg, fs, store, v)
    ensures v !in order && v in reg ==> Rebuilt(reg, fs, store, order)[v] == reg[v]
    decreases |order|
  {
    if order != [] {
      var n := |order| - 1;
      RebuiltAt(reg, fs, store, order[..n], v);
      assert order == order[..n] + [order[n]];
    }
  }

  lemma RebuiltIsAfterDedup(reg: Registry, fs: seq<Finding>, store: Store, order: seq<int>)
    requires Order(order, Prints(fs))
    ensures Rebuilt(reg, fs, store, order) == AfterDedup(reg, fs, store)
  {
    RebuiltKeys(reg, fs, store, order);
    var next, after := Rebuilt(reg, fs, store, order), AfterDedup(reg, fs, store);
    forall v | v in next
      ensures next[v] == after[v]
    {
      RebuiltMatches(reg, fs, store, order, v);
    }
  }

  lemma RebuiltKeys(reg: Registry, fs: seq<Finding>, store: Store, order: seq<int>)
    requires Order(order, Prints(fs))
    ensures Rebuilt(reg, fs, store, order).Keys == AfterDedup(reg, fs, store).Keys
  {
    forall v
      ensures v in Rebuilt(reg, fs, store, order).Keys <==> v in AfterDedup(reg, fs, store).Keys
    {
      RebuiltMatches(reg, fs, store, order, v);
    }
  }

  lemma RebuiltMatches(reg: Registry, fs: seq<Finding>, store: Store, order: seq<int>, v: int)
    requires Order(order, Prints(fs))
    ensures v in Rebuilt(reg, fs, store, order) <==> v in AfterDedup(reg, fs, store)
    ensures v in Rebuilt(reg, fs, store, order) ==>
              Rebuilt(reg, fs, store, order)[v] == AfterDedup(reg, fs, store)[v]
  {
    RebuiltAt(reg, fs, store, order, v);
    assert v in order <==> v in Prints(fs);
  }

  lemma RegroupedInAfter(reg: Registry, fs: seq<Finding>, store: Store, order: seq<int>)
    requires Order(order, Prints(fs))
    ensures forall i :: 0 <= i < |order| ==>
              order[i] in AfterDedup(reg, fs, store) &&
              AfterDedup(reg, fs, store)[order[i]] == AllRegrouped(reg, fs, store, order)[i]
  {
    forall i | 0 <= i < |order|
      ensures order[i] in AfterDedup(reg, fs, store)
      ensures AfterDedup(reg, fs, store)[order[i]] == AllRegrouped(reg, fs, store, order)[i]
    {
      AllRegroupedAt(reg, fs, store, order, i);
    }
  }

  ghost predicate Filled(buckets: map<int, seq<Finding>>, fs: seq<Finding>)
  {
    (forall v :: v in buckets <==> v in Prints(fs)) && forall v :: v in buckets ==> buckets[v] == Bucket(fs, v)
  }

  lemma FilledNext(buckets: map<int, seq<Finding>>, fs: seq<Finding>, f: Finding)
    requires Filled(buckets, fs)
    ensures var v := f.fingerprint;
            Filled(buckets[v := if v in buckets then buckets[v] + [f] else [f]], fs + [f])
  {
    BucketSnoc(fs, f);
    PrintHasBucket(fs, f.fingerprint);
  }

  lemma OrderNext(order: seq<int>, fs: seq<Finding>, f: Finding)
    requires Order(order, Prints(fs))
    ensures Order(if f.fingerprint in Prints(fs) then order else order + [f.fingerprint], Prints(fs + [f]))
  {
    BucketSnoc(fs, f);
  }

  lemma BucketSnoc(fs: seq<Finding>, f: Finding)
    ensures Prints(fs + [f]) == Prints(fs) + {f.fingerprint}
    ensures forall v :: Bucket(fs + [f], v) == Bucket(fs, v) + if v == f.fingerprint then [f] else []
  {
    assert (fs + [f])[..|fs|] == fs;
  }
}
