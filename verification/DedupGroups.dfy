/**
 Deduplication groups: what one submission and one deletion do to the registry, and what the registry
 is meant to be, the findings submitted so far grouped by fingerprint.
 */
module DedupGroups {

  // Ids are only compared, fingerprints and repository labels only tested for equality.
  datatype Finding = Finding(id: int, fingerprint: int, repository: int)

  datatype Group = Group(
    fingerprint: int, canonicalId: int, memberIds: seq<int>, occurrenceCount: nat, repositories: set<int>,
    representative: Finding)

  type Registry = map<int, Group>

  // The finding store, keyed by id.
  type Store = map<int, Finding>

  // ---------------------------------------------------------------- sorting by id

  predicate SortedById(fs: seq<Finding>)
  {
    forall i, j :: 0 <= i < j < |fs| ==> fs[i].id <= fs[j].id
  }

  // No id occurs twice.
  predicate DistinctIds(fs: seq<Finding>)
  {
    forall i, j :: 0 <= i < j < |fs| ==> fs[i].id != fs[j].id
  }

  function Insert(fs: seq<Finding>, f: Finding): (r: seq<Finding>)
    ensures |r| == |fs| + 1
  {
    if fs == [] then [f]
    else if f.id < fs[0].id then [f] + fs
    else [fs[0]] + Insert(fs[1..], f)
  }

  // A stable sort by id.
  function Sort(fs: seq<Finding>): (r: seq<Finding>)
    ensures |r| == |fs|
  {
    if fs == [] then [] else Insert(Sort(fs[..|fs| - 1]), fs[|fs| - 1])
  }

  lemma {:induction false} InsertMembers(fs: seq<Finding>, f: Finding)
    ensures multiset(Insert(fs, f)) == multiset(fs) + multiset{f}
    ensures forall g :: g in Insert(fs, f) <==> g == f || g in fs
  {
    if fs != [] {
      assert fs == [fs[0]] + fs[1..];
      if fs[0].id <= f.id {
        InsertMembers(fs[1..], f);
      }
    }
  }

  lemma {:induction false} InsertSorts(fs: seq<Finding>, f: Finding)
    requires SortedById(fs)
    ensures SortedById(Insert(fs, f))
  {
    if fs != [] && fs[0].id <= f.id {
      var r := Insert(fs[1..], f);
      InsertSorts(fs[1..], f);
      InsertMembers(fs[1..], f);
      forall i | 0 <= i < |r|
        ensures fs[0].id <= r[i].id
      {
        assert r[i] in r;
      }
    }
  }

  lemma OneMore(fs: seq<Finding>, n: nat)
    requires |fs| == n + 1
    ensures multiset(fs) == multiset(fs[..n]) + multiset{fs[n]} && forall g :: g in fs <==> g in fs[..n] || g == fs[n]
  {
    assert fs == fs[..n] + [fs[n]];
  }

  lemma {:induction false} SortSorts(fs: seq<Finding>)
    ensures SortedById(Sort(fs)) && multiset(Sort(fs)) == multiset(fs)
    ensures forall g :: g in Sort(fs) <==> g in fs
    decreases |fs|
  {
    if fs != [] {
      var n := |fs| - 1;
      SortSorts(fs[..n]);
      InsertSorts(Sort(fs[..n]), fs[n]);
      InsertMembers(Sort(fs[..n]), fs[n]);
      OneMore(fs, n);
    }
  }

  lemma {:induction false} InsertDistinct(fs: seq<Finding>, f: Finding)
    requires SortedById(fs) && DistinctIds(fs) && forall g :: g in fs ==> g.id != f.id
    ensures DistinctIds(Insert(fs, f))
  {
    if fs != [] && fs[0].id <= f.id {
      var r := Insert(fs[1..], f);
      InsertDistinct(fs[1..], f);
      InsertMembers(fs[1..], f);
      forall i | 0 <= i < |r|
        ensures r[i].id != fs[0].id
      {
        assert r[i] in r;
      }
    }
  }

  lemma {:induction false} SortDistinct(fs: seq<Finding>)
    requires DistinctIds(fs)
    ensures DistinctIds(Sort(fs))
    decreases |fs|
  {
    if fs != [] {
      var n := |fs| - 1;
      SortDistinct(fs[..n]);
      SortSorts(fs[..n]);
      forall g | g in Sort(fs[..n])
        ensures g.id != fs[n].id
      {
        var i :| 0 <= i < n && fs[i] == g;
      }
      InsertDistinct(Sort(fs[..n]), fs[n]);
    }
  }

  function IdsOf(fs: seq<Finding>): (r: seq<int>)
    ensures |r| == |fs| && forall i :: 0 <= i < |fs| ==> r[i] == fs[i].id
  {
    seq(|fs|, i requires 0 <= i < |fs| => fs[i].id)
  }

  function IdSet(fs: seq<Finding>): (r: set<int>)
  {
    set f | f in fs :: f.id
  }

  function Repositories(fs: seq<Finding>): (r: set<int>)
  {
    set f | f in fs :: f.repository
  }

  function GroupOf(fingerprint: int, members: seq<Finding>): (r: Group)
    requires members != []
  {
    var ordered := Sort(members);
    Group(fingerprint, ordered[0].id, IdsOf(ordered), |ordered|, Repositories(ordered), ordered[0])
  }

  // ---------------------------------------------------------------- one submission

  // The submitted findings with a given fingerprint, in order.
  function Bucket(fs: seq<Finding>, v: int): (r: seq<Finding>)
  {
    if fs == [] then []
    else
      var n := |fs| - 1;
      Bucket(fs[..n], v) + if fs[n].fingerprint == v then [fs[n]] else []
  }

  lemma {:induction false} InBucket(fs: seq<Finding>, v: int, f: Finding)
    ensures f in Bucket(fs, v) <==> f in fs && f.fingerprint == v
    decreases |fs|
  {
    if fs != [] {
      var n := |fs| - 1;
      InBucket(fs[..n], v, f);
      assert fs == fs[..n] + [fs[n]];
    }
  }

  function Prints(fs: seq<Finding>): (r: set<int>)
  {
    if fs == [] then {} else Prints(fs[..|fs| - 1]) + {fs[|fs| - 1].fingerprint}
  }

  lemma {:induction false} PrintHasBucket(fs: seq<Finding>, v: int)
    ensures v in Prints(fs) <==> Bucket(fs, v) != []
    decreases |fs|
  {
    if fs != [] {
      PrintHasBucket(fs[..|fs| - 1], v);
    }
  }

  // The earlier members that were not submitted again and still exist, read back from the store.
  function Kept(memberIds: seq<int>, submitted: set<int>, store: Store): (r: seq<Finding>)
  {
    if memberIds == [] then []
    else
      var n := |memberIds| - 1;
      var x := memberIds[n];
      Kept(memberIds[..n], submitted, store) + if x !in submitted && x in store then [store[x]] else []
  }

  lemma {:induction false} InKept(memberIds: seq<int>, submitted: set<int>, store: Store, f: Finding)
    requires KeyedById(store)
    ensures f in Kept(memberIds, submitted, store) <==>
            f.id in memberIds && f.id !in submitted && f.id in store && store[f.id] == f
    decreases |memberIds|
  {
    if memberIds != [] {
      var n := |memberIds| - 1;
      InKept(memberIds[..n], submitted, store, f);
      assert memberIds == memberIds[..n] + [memberIds[n]];
    }
  }

  function MembersAfter(reg: Registry, fs: seq<Finding>, store: Store, v: int): (r: seq<Finding>)
  {
    Bucket(fs, v) + if v in reg then Kept(reg[v].memberIds, IdSet(fs), store) else []
  }

  function Regrouped(reg: Registry, fs: seq<Finding>, store: Store, v: int): (r: Group)
    requires v in Prints(fs)
  {
    PrintHasBucket(fs, v);
    GroupOf(v, MembersAfter(reg, fs, store, v))
  }

  function AfterDedup(reg: Registry, fs: seq<Finding>, store: Store): (r: Registry)
  {
    map v | v in reg.Keys + Prints(fs) ::
      if v in Prints(fs) then Regrouped(reg, fs, store, v) else reg[v]
  }

  // ---------------------------------------------------------------- one deletion

  // What is left of a group once some findings are deleted.
  datatype Remains = Untouched | Gone | Shrunk(members: seq<Finding>)

  function Survivors(memberIds: seq<int>, removed: set<int>): (r: seq<int>)
    ensures forall x :: x in r <==> x in memberIds && x !in removed
    ensures |r| <= |memberIds|
    ensures |r| == |memberIds| <==> forall x :: x in memberIds ==> x !in removed
  {
    if memberIds == [] then []
    else
      var n := |memberIds| - 1;
      assert memberIds == memberIds[..n] + [memberIds[n]];
      assert forall x :: x in memberIds <==> x in memberIds[..n] || x == memberIds[n];
      Survivors(memberIds[..n], removed) + if memberIds[n] in removed then [] else [memberIds[n]]
  }

  function RemainsOf(group: Group, removed: set<int>, store: Store): (r: Remains)
    ensures r.Shrunk? ==> r.members != []
  {
    var remaining := Survivors(group.memberIds, removed);
    if |remaining| == |group.memberIds| then Untouched
    else
      var members := Kept(remaining, {}, store);
      if remaining == [] || members == [] then Gone else Shrunk(members)
  }

  function EntryAfter(group: Group, removed: set<int>, store: Store): (r: Group)
  {
    var r := RemainsOf(group, removed, store);
    if r.Shrunk? then GroupOf(group.fingerprint, r.members) else group
  }

  function AfterRemove(reg: Registry, removed: set<int>, store: Store): (r: Registry)
  {
    map v | v in reg && !RemainsOf(reg[v], removed, store).Gone? :: EntryAfter(reg[v], removed, store)
  }

  // ---------------------------------------------------------------- the grouping a registry stands for

  predicate Increasing(xs: seq<int>)
  {
    forall i, j :: 0 <= i < j < |xs| ==> xs[i] < xs[j]
  }

  // Every id filed under its own finding.
  predicate KeyedById(store: Store)
  {
    forall x :: x in store ==> store[x].id == x
  }

  ghost function Class(ids: set<int>, store: Store, v: int): (r: set<int>)
  {
    set x | x in ids && x in store && store[x].fingerprint == v
  }

  // The one group of exactly these findings: members in increasing order of id, the least one canonical.
  ghost predicate IsGroup(g: Group, v: int, ids: set<int>, store: Store)
  {
    g.fingerprint == v && ids != {} &&
    Increasing(g.memberIds) && (forall x :: x in g.memberIds <==> x in ids) &&
    g.occurrenceCount == |g.memberIds| && |g.memberIds| > 0 && g.canonicalId == g.memberIds[0] &&
    ids <= store.Keys && g.representative == store[g.canonicalId] &&
    g.repositories == set x | x in ids :: store[x].repository
  }

  // The registry is the one-shot grouping of these ids: one group per fingerprint among them.
  ghost predicate Represents(reg: Registry, ids: set<int>, store: Store)
  {
    ids <= store.Keys &&
    (forall v :: v in reg <==> Class(ids, store, v) != {}) &&
    (forall v :: v in reg ==> IsGroup(reg[v], v, Class(ids, store, v), store))
  }

  lemma {:induction false} IncreasingUnique(a: seq<int>, b: seq<int>)
    requires Increasing(a) && Increasing(b) && forall x :: x in a <==> x in b
    ensures a == b
    decreases |a|
  {
    assert (a == [] || a[0] in a) && (b == [] || b[0] in b);
    if a != [] {
      var i :| 0 <= i < |b| && b[i] == a[0];
      var j :| 0 <= j < |a| && a[j] == b[0];
      assert a[0] == b[0];
      forall x
        ensures x in a[1..] <==> x in b[1..]
      {
        InTail(a, x);
        InTail(b, x);
      }
      IncreasingUnique(a[1..], b[1..]);
    }
  }

  lemma InTail(a: seq<int>, x: int)
    requires a != [] && Increasing(a)
    ensures x in a[1..] <==> x in a && x != a[0]
  {
    assert a == [a[0]] + a[1..];
  }

  // A set of findings has only one grouping.
  lemma RepresentsUnique(a: Registry, b: Registry, ids: set<int>, store: Store)
    requires Represents(a, ids, store) && Represents(b, ids, store)
    ensures a == b
  {
    assert a.Keys == b.Keys by {
      assert forall v :: v in a <==> v in b;
    }
    forall v | v in a
      ensures a[v] == b[v]
    {
      IncreasingUnique(a[v].memberIds, b[v].memberIds);
    }
  }
}
