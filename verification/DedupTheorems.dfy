/**
 The registry is the grouping of everything submitted and not deleted, however it was split into
 submissions; and exactly when a finding whose content changed ends up in two groups.
 */
module DedupTheorems {
  import opened DedupGroups

  // ---------------------------------------------------------------- building one group

  // The findings are the store's own.
  ghost predicate FromStore(fs: seq<Finding>, store: Store)
  {
    forall f :: f in fs ==> f.id in store && store[f.id] == f
  }

  lemma SortedIds(members: seq<Finding>, x: int)
    ensures x in IdsOf(Sort(members)) <==> x in IdSet(members)
  {
    var ordered := Sort(members);
    SortSorts(members);
    if x in IdSet(members) {
      var f :| f in members && f.id == x;
      assert f in ordered;
      var i :| 0 <= i < |ordered| && ordered[i] == f;
      assert IdsOf(ordered)[i] == x;
    }
    if x in IdsOf(ordered) {
      var i :| 0 <= i < |ordered| && IdsOf(ordered)[i] == x;
      assert ordered[i] in members;
    }
  }

  lemma SortedRepositories(members: seq<Finding>, store: Store)
    requires FromStore(members, store)
    ensures Repositories(Sort(members)) == set x | x in IdSet(members) && x in store :: store[x].repository
  {
    var ordered := Sort(members);
    SortSorts(members);
    forall r | r in Repositories(ordered)
      ensures r in set x | x in IdSet(members) && x in store :: store[x].repository
    {
      var f :| f in ordered && f.repository == r;
      assert f.id in IdSet(members);
    }
    forall x | x in IdSet(members) && x in store
      ensures store[x].repository in Repositories(ordered)
    {
      var f :| f in members && f.id == x;
      assert f in ordered;
    }
  }

  lemma IdsInStore(members: seq<Finding>, store: Store)
    requires FromStore(members, store)
    ensures IdSet(members) <= store.Keys
  {
  }

  lemma GroupOfIsGroup(v: int, members: seq<Finding>, ids: set<int>, store: Store)
    requires members != [] && DistinctIds(members) && FromStore(members, store) && IdSet(members) == ids
    ensures IsGroup(GroupOf(v, members), v, ids, store)
  {
    var g := GroupOf(v, members);
    SortDistinct(members);
    SortSorts(members);
    IdsInStore(members, store);
    SortedRepositories(members, store);
    assert g.repositories == set x | x in ids :: store[x].repository;
    assert Sort(members)[0] in members;
    assert members[0].id in ids;
    forall x
      ensures x in g.memberIds <==> x in ids
    {
      SortedIds(members, x);
    }
  }

  lemma {:induction false} BucketDistinct(fs: seq<Finding>, v: int)
    requires DistinctIds(fs)
    ensures DistinctIds(Bucket(fs, v))
    decreases |fs|
  {
    if fs != [] {
      var n := |fs| - 1;
      BucketDistinct(fs[..n], v);
      forall f | f in Bucket(fs[..n], v)
        ensures f.id != fs[n].id
      {
        InBucket(fs[..n], v, f);
        var i :| 0 <= i < n && fs[i] == f;
      }
    }
  }

  lemma BucketFromStore(fs: seq<Finding>, store: Store, v: int)
    requires FromStore(fs, store)
    ensures FromStore(Bucket(fs, v), store)
  {
    forall f | f in Bucket(fs, v)
      ensures f in fs
    {
      InBucket(fs, v, f);
    }
  }

  lemma BucketIds(fs: seq<Finding>, store: Store, v: int, x: int)
    requires FromStore(fs, store)
    ensures x in IdSet(Bucket(fs, v)) <==> x in IdSet(fs) && x in store && store[x].fingerprint == v
  {
    if x in IdSet(fs) {
      var f :| f in fs && f.id == x;
      InBucket(fs, v, f);
    }
    if x in IdSet(Bucket(fs, v)) {
      var f :| f in Bucket(fs, v) && f.id == x;
      InBucket(fs, v, f);
    }
  }

  lemma {:induction false} KeptDistinct(memberIds: seq<int>, submitted: set<int>, store: Store)
    requires Increasing(memberIds) && KeyedById(store)
    ensures DistinctIds(Kept(memberIds, submitted, store)) && FromStore(Kept(memberIds, submitted, store), store)
    decreases |memberIds|
  {
    if memberIds != [] {
      var n := |memberIds| - 1;
      KeptDistinct(memberIds[..n], submitted, store);
      forall f | f in Kept(memberIds[..n], submitted, store)
        ensures f.id != memberIds[n]
      {
        InKept(memberIds[..n], submitted, store, f);
      }
    }
  }

  lemma DistinctAppend(a: seq<Finding>, b: seq<Finding>)
    requires DistinctIds(a) && DistinctIds(b) && IdSet(a) !! IdSet(b)
    ensures DistinctIds(a + b)
  {
    forall i, j | 0 <= i < |a| && 0 <= j < |b|
      ensures a[i].id != b[j].id
    {
      assert a[i].id in IdSet(a) && b[j].id in IdSet(b);
    }
  }

  lemma KeptIds(memberIds: seq<int>, submitted: set<int>, store: Store, x: int)
    requires KeyedById(store)
    ensures x in IdSet(Kept(memberIds, submitted, store)) <==> x in memberIds && x !in submitted && x in store
  {
    if x in store {
      InKept(memberIds, submitted, store, store[x]);
    }
    if x in IdSet(Kept(memberIds, submitted, store)) {
      var f :| f in Kept(memberIds, submitted, store) && f.id == x;
      InKept(memberIds, submitted, store, f);
    }
  }

  // ---------------------------------------------------------------- a submission

  // A group after a submission that touches it: the class of its fingerprint among old and new ids.
  lemma TouchedMembers(reg: Registry, ids: set<int>, fs: seq<Finding>, store: Store, v: int)
    requires Represents(reg, ids, store) && KeyedById(store) && DistinctIds(fs) && FromStore(fs, store)
    requires v in Prints(fs)
    ensures var members := MembersAfter(reg, fs, store, v);
            DistinctIds(members) && FromStore(members, store) &&
            IdSet(members) == Class(ids + IdSet(fs), store, v)
  {
    var bucket := Bucket(fs, v);
    var kept := if v in reg then Kept(reg[v].memberIds, IdSet(fs), store) else [];
    BucketDistinct(fs, v);
    if v in reg {
      KeptDistinct(reg[v].memberIds, IdSet(fs), store);
    }
    forall x
      ensures x in IdSet(bucket) <==> x in IdSet(fs) && x in store && store[x].fingerprint == v
    {
      BucketIds(fs, store, v, x);
    }
    BucketFromStore(fs, store, v);
    forall x
      ensures x in IdSet(kept) <==> x in Class(ids, store, v) && x !in IdSet(fs)
    {
      if v in reg {
        KeptIds(reg[v].memberIds, IdSet(fs), store, x);
      }
    }
    DistinctAppend(bucket, kept);
    assert forall x :: x in IdSet(bucket + kept) <==> x in IdSet(bucket) || x in IdSet(kept);
  }

  lemma DedupKeepsGrouping(reg: Registry, ids: set<int>, fs: seq<Finding>, store: Store)
    requires Represents(reg, ids, store) && KeyedById(store) && DistinctIds(fs) && FromStore(fs, store)
    ensures Represents(AfterDedup(reg, fs, store), ids + IdSet(fs), store)
  {
    var next := AfterDedup(reg, fs, store);
    forall v
      ensures v in next <==> Class(ids + IdSet(fs), store, v) != {}
      ensures v in next ==> IsGroup(next[v], v, Class(ids + IdSet(fs), store, v), store)
    {
      PrintHasBucket(fs, v);
      if v in Prints(fs) {
        TouchedMembers(reg, ids, fs, store, v);
        var members := MembersAfter(reg, fs, store, v);
        assert members[0].id in IdSet(members);
        GroupOfIsGroup(v, members, Class(ids + IdSet(fs), store, v), store);
      } else {
        UntouchedClass(ids, fs, store, v);
      }
    }
  }

  lemma UntouchedClass(ids: set<int>, fs: seq<Finding>, store: Store, v: int)
    requires FromStore(fs, store) && v !in Prints(fs)
    ensures Class(ids + IdSet(fs), store, v) == Class(ids, store, v)
  {
    forall x | x in IdSet(fs)
      ensures x in store && store[x].fingerprint != v
    {
      var f :| f in fs && f.id == x;
      InBucket(fs, v, f);
      PrintHasBucket(fs, v);
    }
  }

  // ---------------------------------------------------------------- a deletion

  lemma SameGroupElsewhere(g: Group, v: int, ids: set<int>, store: Store, store': Store)
    requires IsGroup(g, v, ids, store) && ids <= store'.Keys && forall x :: x in ids ==> store'[x] == store[x]
    ensures IsGroup(g, v, ids, store')
  {
    assert g.memberIds[0] in ids;
    assert (set x | x in ids :: store[x].repository) == (set x | x in ids :: store'[x].repository);
  }

  lemma ShrunkMembers(g: Group, v: int, ids: set<int>, removed: set<int>, store: Store)
    requires IsGroup(g, v, ids, store) && KeyedById(store)
    ensures var members := Kept(Survivors(g.memberIds, removed), {}, store - removed);
            DistinctIds(members) && FromStore(members, store - removed) && IdSet(members) == ids - removed
  {
    var remaining := Survivors(g.memberIds, removed);
    SurvivorsIncreasing(g.memberIds, removed);
    KeptDistinct(remaining, {}, store - removed);
    forall x
      ensures x in IdSet(Kept(remaining, {}, store - removed)) <==> x in ids - removed
    {
      KeptIds(remaining, {}, store - removed, x);
    }
  }

  lemma {:induction false} SurvivorsIncreasing(memberIds: seq<int>, removed: set<int>)
    requires Increasing(memberIds)
    ensures Increasing(Survivors(memberIds, removed))
    decreases |memberIds|
  {
    if memberIds != [] {
      var n := |memberIds| - 1;
      var front := Survivors(memberIds[..n], removed);
      SurvivorsIncreasing(memberIds[..n], removed);
      BelowLast(memberIds, front);
    }
  }

  lemma BelowLast(xs: seq<int>, front: seq<int>)
    requires xs != [] && Increasing(xs) && Increasing(front) && forall x :: x in front ==> x in xs[..|xs| - 1]
    ensures Increasing(front + [xs[|xs| - 1]])
  {
    forall i | 0 <= i < |front|
      ensures front[i] < xs[|xs| - 1]
    {
      assert front[i] in front;
    }
  }

  lemma AllSurvive(g: Group, v: int, ids: set<int>, removed: set<int>, store: Store)
    requires IsGroup(g, v, ids, store) && RemainsOf(g, removed, store - removed).Untouched?
    ensures ids - removed == ids && IsGroup(g, v, ids, store - removed)
  {
    assert forall x :: x in ids ==> x in g.memberIds && x !in removed;
    assert ids - removed == ids;
    SameGroupElsewhere(g, v, ids, store, store - removed);
  }

  lemma SomeSurvive(g: Group, v: int, ids: set<int>, removed: set<int>, store: Store)
    requires IsGroup(g, v, ids, store) && KeyedById(store) && RemainsOf(g, removed, store - removed).Shrunk?
    ensures ids - removed != {}
    ensures IsGroup(GroupOf(v, RemainsOf(g, removed, store - removed).members), v, ids - removed, store - removed)
  {
    ShrunkMembers(g, v, ids, removed, store);
    var members := RemainsOf(g, removed, store - removed).members;
    assert members[0].id in IdSet(members);
    GroupOfIsGroup(v, members, ids - removed, store - removed);
  }

  lemma NoneSurvive(g: Group, v: int, ids: set<int>, removed: set<int>, store: Store)
    requires IsGroup(g, v, ids, store) && KeyedById(store) && RemainsOf(g, removed, store - removed).Gone?
    ensures ids - removed == {}
  {
    var remaining := Survivors(g.memberIds, removed);
    ShrunkMembers(g, v, ids, removed, store);
    assert remaining == [] ==> Kept(remaining, {}, store - removed) == [];
  }

  lemma GroupAfterRemove(g: Group, v: int, ids: set<int>, removed: set<int>, store: Store)
    requires IsGroup(g, v, ids, store) && KeyedById(store)
    ensures var r := RemainsOf(g, removed, store - removed);
            (r.Gone? <==> ids - removed == {}) &&
            (r.Untouched? ==> ids - removed == ids && IsGroup(g, v, ids, store - removed)) &&
            (r.Shrunk? ==> IsGroup(GroupOf(v, r.members), v, ids - removed, store - removed))
  {
    match RemainsOf(g, removed, store - removed)
    case Untouched => AllSurvive(g, v, ids, removed, store);
    case Gone => NoneSurvive(g, v, ids, removed, store);
    case Shrunk(_) => SomeSurvive(g, v, ids, removed, store);
  }

  // Deleting findings from the store and then from the registry is grouping the survivors.
  lemma RemoveKeepsGrouping(reg: Registry, ids: set<int>, removed: set<int>, store: Store)
    requires Represents(reg, ids, store) && KeyedById(store)
    ensures Represents(AfterRemove(reg, removed, store - removed), ids - removed, store - removed)
  {
    var next := AfterRemove(reg, removed, store - removed);
    forall v
      ensures v in next <==> Class(ids - removed, store - removed, v) != {}
      ensures v in next ==> IsGroup(next[v], v, Class(ids - removed, store - removed, v), store - removed)
    {
      assert Class(ids - removed, store - removed, v) == Class(ids, store, v) - removed;
      if v in reg {
        GroupAfterRemove(reg[v], v, Class(ids, store, v), removed, store);
      }
    }
  }

  // Groups none of whose members are deleted stay exactly as they were.
  lemma UntouchedGroupsStay(reg: Registry, removed: set<int>, store: Store, v: int)
    requires v in reg && forall x :: x in reg[v].memberIds ==> x !in removed
    ensures v in AfterRemove(reg, removed, store) && AfterRemove(reg, removed, store)[v] == reg[v]
  {
  }

  // ---------------------------------------------------------------- an id submitted twice

  lemma {:induction false} BucketCounts(fs: seq<Finding>, f: Finding)
    ensures multiset(Bucket(fs, f.fingerprint))[f] == multiset(fs)[f]
    decreases |fs|
  {
    if fs != [] {
      var n := |fs| - 1;
      BucketCounts(fs[..n], f);
      assert fs == fs[..n] + [fs[n]];
    }
  }

  lemma {:induction false} DistinctOnce(fs: seq<Finding>, f: Finding)
    requires DistinctIds(fs)
    ensures multiset(fs)[f] <= 1
    decreases |fs|
  {
    if fs != [] {
      var n := |fs| - 1;
      DistinctOnce(fs[..n], f);
      assert fs == fs[..n] + [fs[n]];
      if f == fs[n] {
        assert forall i :: 0 <= i < n ==> fs[..n][i].id != f.id;
        assert f !in fs[..n];
      }
    }
  }

  lemma NotDistinctTwice(fs: seq<Finding>, store: Store) returns (f: Finding)
    requires FromStore(fs, store) && !DistinctIds(fs)
    ensures f in fs && multiset(fs)[f] >= 2
  {
    var i, j :| 0 <= i < j < |fs| && fs[i].id == fs[j].id;
    f := fs[i];
    assert store[fs[i].id] == fs[i] && store[fs[j].id] == fs[j];
    assert fs == fs[..j] + [fs[j]] + fs[j + 1..];
    assert f in fs[..j];
  }

  // For findings of the store a submission keeps the grouping exactly if it names no id twice: an id named
  // twice is a member twice.
  lemma DedupKeepsGroupingIff(reg: Registry, ids: set<int>, fs: seq<Finding>, store: Store)
    requires Represents(reg, ids, store) && KeyedById(store) && FromStore(fs, store)
    ensures Represents(AfterDedup(reg, fs, store), ids + IdSet(fs), store) <==> DistinctIds(fs)
  {
    if DistinctIds(fs) {
      DedupKeepsGrouping(reg, ids, fs, store);
    } else {
      var f := NotDistinctTwice(fs, store);
      var v := f.fingerprint;
      InBucket(fs, v, f);
      PrintHasBucket(fs, v);
      BucketCounts(fs, f);
      var members := MembersAfter(reg, fs, store, v);
      SortSorts(members);
      var ordered := Sort(members);
      assert multiset(ordered)[f] >= 2;
      if Increasing(IdsOf(ordered)) {
        DistinctOnce(ordered, f);
      }
      assert v in AfterDedup(reg, fs, store) && AfterDedup(reg, fs, store)[v].memberIds == IdsOf(ordered);
    }
  }

  // ---------------------------------------------------------------- whole runs

  // A finding already in the store may be registered again only unchanged.
  datatype Op = Discover(finding: Finding) | Submit(findings: seq<Finding>) | Delete(removed: set<int>)

  datatype State = State(registry: Registry, store: Store)

  const EMPTY := State(map[], map[])

  // Submissions name findings of the store.
  ghost predicate Allowed(s: State, op: Op)
  {
    match op
    case Discover(f) => f.id in s.store ==> s.store[f.id] == f
    case Submit(fs) => FromStore(fs, s.store)
    case Delete(_) => true
  }

  // No submission names an id twice.
  ghost predicate NoRepeats(ops: seq<Op>)
  {
    forall k :: 0 <= k < |ops| && ops[k].Submit? ==> DistinctIds(ops[k].findings)
  }

  function Apply(s: State, op: Op): (r: State)
  {
    match op
    case Discover(f) => s.(store := s.store[f.id := f])
    case Submit(fs) => s.(registry := AfterDedup(s.registry, fs, s.store))
    case Delete(removed) =>
      State(AfterRemove(s.registry, removed, s.store - removed), s.store - removed)
  }

  function Run(ops: seq<Op>): (r: State)
  {
    if ops == [] then EMPTY else Apply(Run(ops[..|ops| - 1]), ops[|ops| - 1])
  }

  ghost predicate AllowedRun(ops: seq<Op>)
  {
    ops != [] ==> AllowedRun(ops[..|ops| - 1]) && Allowed(Run(ops[..|ops| - 1]), ops[|ops| - 1])
  }

  // Not found again or deleted since the step at i.
  ghost predicate Untouched(ops: seq<Op>, i: nat, id: int)
  {
    forall k :: i < k < |ops| ==>
      !(ops[k].Discover? && ops[k].finding.id == id) && !(ops[k].Delete? && id in ops[k].removed)
  }

  // The store holds of each id the finding discovered last, unless it was deleted since.
  lemma {:induction false} StoreHoldsLatest(ops: seq<Op>, f: Finding)
    ensures f.id in Run(ops).store && Run(ops).store[f.id] == f <==>
            exists i :: 0 <= i < |ops| && ops[i] == Discover(f) && Untouched(ops, i, f.id)
    decreases |ops|
  {
    if ops != [] {
      var front, last := ops[..|ops| - 1], ops[|ops| - 1];
      StoreHoldsLatest(front, f);
      var touches := (last.Discover? && last.finding.id == f.id) || (last.Delete? && f.id in last.removed);
      forall i | 0 <= i < |front|
        ensures ops[i] == front[i] && (Untouched(ops, i, f.id) <==> !touches && Untouched(front, i, f.id))
      {
        if Untouched(ops, i, f.id) {
          assert ops[|ops| - 1] == last;
          forall k | i < k < |front|
            ensures front[k] == ops[k]
          {
          }
        }
      }
      assert Untouched(ops, |ops| - 1, f.id);
    }
  }

  // What was submitted and not deleted since.
  function Live(ops: seq<Op>): (r: set<int>)
  {
    if ops == [] then {}
    else
      var before := Live(ops[..|ops| - 1]);
      match ops[|ops| - 1]
      case Discover(_) => before
      case Submit(fs) => before + IdSet(fs)
      case Delete(removed) => before - removed
  }

  // The registry is the one-shot grouping of what is live.
  ghost predicate Grouped(ops: seq<Op>)
  {
    KeyedById(Run(ops).store) && Represents(Run(ops).registry, Live(ops), Run(ops).store)
  }

  lemma ApplyKeepsGrouping(s: State, op: Op, ids: set<int>)
    requires KeyedById(s.store) && Represents(s.registry, ids, s.store) && Allowed(s, op)
    ensures var after := Apply(s, op);
            var live := match op
                        case Discover(_) => ids
                        case Submit(fs) => ids + IdSet(fs)
                        case Delete(removed) => ids - removed;
            KeyedById(after.store) && Represents(after.registry, live, after.store) <==>
            (op.Submit? ==> DistinctIds(op.findings))
  {
    match op {
      case Discover(f) => DiscoverKeepsGrouping(s.registry, ids, s.store, f);
      case Submit(fs) => DedupKeepsGroupingIff(s.registry, ids, fs, s.store);
      case Delete(removed) => RemoveKeepsGrouping(s.registry, ids, removed, s.store);
    }
  }

  lemma RunStep(ops: seq<Op>)
    requires AllowedRun(ops) && ops != [] && Grouped(ops[..|ops| - 1])
    ensures var op := ops[|ops| - 1]; Grouped(ops) <==> (op.Submit? ==> DistinctIds(op.findings))
  {
    var n := |ops| - 1;
    ApplyKeepsGrouping(Run(ops[..n]), ops[n], Live(ops[..n]));
  }

  // However findings were discovered, submitted in batches and deleted, the registry is the one-shot grouping
  // of what is live, if no submission names an id twice.
  lemma {:induction false} RunGroups(ops: seq<Op>)
    requires AllowedRun(ops) && NoRepeats(ops)
    ensures Grouped(ops)
    decreases |ops|
  {
    if ops != [] {
      RunGroups(ops[..|ops| - 1]);
      RunStep(ops);
    }
  }

  ghost predicate GroupedThroughout(ops: seq<Op>)
  {
    Grouped(ops) && (ops != [] ==> GroupedThroughout(ops[..|ops| - 1]))
  }

  // It is so at every point of a run exactly then.
  lemma {:induction false} RunGroupsIff(ops: seq<Op>)
    requires AllowedRun(ops)
    ensures GroupedThroughout(ops) <==> NoRepeats(ops)
    decreases |ops|
  {
    if ops == [] {
      RunGroups(ops);
    } else {
      var front, op := ops[..|ops| - 1], ops[|ops| - 1];
      RunGroupsIff(front);
      assert NoRepeats(ops) <==> NoRepeats(front) && (op.Submit? ==> DistinctIds(op.findings));
      if Grouped(front) {
        RunStep(ops);
      }
    }
  }

  lemma DiscoverKeepsGrouping(reg: Registry, ids: set<int>, store: Store, f: Finding)
    requires Represents(reg, ids, store) && KeyedById(store)
    requires f.id in store ==> store[f.id] == f
    ensures Represents(reg, ids, store[f.id := f]) && KeyedById(store[f.id := f])
  {
    var store' := store[f.id := f];
    forall v
      ensures Class(ids, store', v) == Class(ids, store, v)
    {
    }
    forall v | v in reg
      ensures IsGroup(reg[v], v, Class(ids, store', v), store')
    {
      SameGroupElsewhere(reg[v], v, Class(ids, store, v), store, store');
    }
  }

  // Two runs that end with the same store and the same live findings end with the same registry: order
  // and splitting of the submissions, and detours through deletions, leave no trace.
  lemma IncrementalEqualsBatch(ops: seq<Op>, other: seq<Op>)
    requires AllowedRun(ops) && AllowedRun(other) && NoRepeats(ops) && NoRepeats(other)
    requires Run(ops).store == Run(other).store && Live(ops) == Live(other)
    ensures Run(ops) == Run(other)
  {
    RunGroups(ops);
    RunGroups(other);
    RepresentsUnique(Run(ops).registry, Run(other).registry, Live(ops), Run(ops).store);
  }

  // ---------------------------------------------------------------- when content changes under an id

  // No finding is a member of two groups.
  ghost predicate Disjoint(reg: Registry)
  {
    forall v, w, x :: v in reg && w in reg && x in reg[v].memberIds && x in reg[w].memberIds ==> v == w
  }

  // A resubmitted finding is still filed under an old fingerprint that nothing submitted carries.
  ghost predicate Stranded(reg: Registry, fs: seq<Finding>, f: Finding, v: int)
  {
    f in fs && v in reg && f.id in reg[v].memberIds && v != f.fingerprint && v !in Prints(fs)
  }

  // Who is a member of a group after a submission.
  lemma MemberAfter(reg: Registry, fs: seq<Finding>, store: Store, v: int, x: int)
    requires KeyedById(store) && v in AfterDedup(reg, fs, store)
    ensures x in AfterDedup(reg, fs, store)[v].memberIds <==>
            if v !in Prints(fs) then x in reg[v].memberIds
            else x in IdSet(Bucket(fs, v)) || (v in reg && x in reg[v].memberIds && x !in IdSet(fs) && x in store)
  {
    if v in Prints(fs) {
      PrintHasBucket(fs, v);
      var members := MembersAfter(reg, fs, store, v);
      SortedIds(members, x);
      if v in reg {
        KeptIds(reg[v].memberIds, IdSet(fs), store, x);
        var kept := Kept(reg[v].memberIds, IdSet(fs), store);
        assert members == Bucket(fs, v) + kept;
        assert IdSet(members) == IdSet(Bucket(fs, v)) + IdSet(kept);
      }
    }
  }

  // An id stands for one finding only, as it does when the findings are the store's.
  predicate OneEach(fs: seq<Finding>)
  {
    forall f, g :: f in fs && g in fs && f.id == g.id ==> f == g
  }

  // Exactly when every finding still sits in at most one group after a submission, whatever the
  // findings' content has become since they were last submitted.
  lemma OneGroupEachIff(reg: Registry, fs: seq<Finding>, store: Store)
    requires Disjoint(reg) && KeyedById(store) && OneEach(fs)
    ensures Disjoint(AfterDedup(reg, fs, store)) <==> !exists f, v :: Stranded(reg, fs, f, v)
  {
    var next := AfterDedup(reg, fs, store);
    if f, v :| Stranded(reg, fs, f, v) {
      MemberAfter(reg, fs, store, v, f.id);
      InBucket(fs, f.fingerprint, f);
      PrintHasBucket(fs, f.fingerprint);
      MemberAfter(reg, fs, store, f.fingerprint, f.id);
      assert f.fingerprint in next && v in next;
    } else {
      forall v, w, x | v in next && w in next && x in next[v].memberIds && x in next[w].memberIds
        ensures v == w
      {
        MemberAfter(reg, fs, store, v, x);
        MemberAfter(reg, fs, store, w, x);
        OneHome(reg, fs, v, w, x);
      }
    }
  }

  // The finding is filed under this fingerprint after the submission.
  ghost predicate FiledAfter(reg: Registry, fs: seq<Finding>, v: int, x: int)
  {
    if v !in Prints(fs) then v in reg && x in reg[v].memberIds
    else x in IdSet(Bucket(fs, v)) || (v in reg && x in reg[v].memberIds && x !in IdSet(fs))
  }

  lemma SubmittedHome(reg: Registry, fs: seq<Finding>, f: Finding, v: int)
    requires OneEach(fs) && f in fs && FiledAfter(reg, fs, v, f.id) && !Stranded(reg, fs, f, v)
    ensures v == f.fingerprint
  {
    if v in Prints(fs) {
      InBucket(fs, f.fingerprint, f);
      PrintHasBucket(fs, f.fingerprint);
      var g :| g in Bucket(fs, v) && g.id == f.id;
      InBucket(fs, v, g);
    }
  }

  lemma OneHome(reg: Registry, fs: seq<Finding>, v: int, w: int, x: int)
    requires Disjoint(reg) && OneEach(fs)
    requires !exists f, u :: Stranded(reg, fs, f, u)
    requires FiledAfter(reg, fs, v, x) && FiledAfter(reg, fs, w, x)
    ensures v == w
  {
    if x in IdSet(fs) {
      var f :| f in fs && f.id == x;
      SubmittedHome(reg, fs, f, v);
      SubmittedHome(reg, fs, f, w);
    } else {
      forall u, g | g in Bucket(fs, u)
        ensures g in fs
      {
        InBucket(fs, u, g);
      }
      assert x in reg[v].memberIds && x in reg[w].memberIds;
    }
  }

  lemma FirstSubmission(first: Finding)
    ensures var reg := AfterDedup(map[], [first], map[first.id := first]);
            Disjoint(reg) && first.fingerprint in reg && first.id in reg[first.fingerprint].memberIds
  {
    var empty: Registry := map[];
    var store: Store := map[first.id := first];
    OneGroupEachIff(empty, [first], store);
    assert first in [first];
    InBucket([first], first.fingerprint, first);
    assert first.fingerprint in Prints([first]);
    MemberAfter(empty, [first], store, first.fingerprint, first.id);
  }

  // Rescanning changed the fingerprint of a finding and it is submitted again: it is now listed twice.
  lemma ChangedFindingListedTwice(first: Finding, again: Finding)
    requires first.id == again.id && first.fingerprint != again.fingerprint
    ensures var reg := AfterDedup(map[], [first], map[first.id := first]);
            Disjoint(reg) && !Disjoint(AfterDedup(reg, [again], map[again.id := again]))
  {
    FirstSubmission(first);
    var reg := AfterDedup(map[], [first], map[first.id := first]);
    assert again in [again] && Prints([again]) == {again.fingerprint};
    assert Stranded(reg, [again], again, first.fingerprint);
    OneGroupEachIff(reg, [again], map[again.id := again]);
  }
}
