/**
 Bounded search over the data-flow edges of a code property graph: the queue algorithm answers
 exactly whether a path of at most the given number of data-flow edges exists.
 */
module GraphSearch {
  import opened Wrappers

  datatype EdgeType =
    | AstChild | AstFile | AstClass | AstFunction | AstBody
    | CfgSeq | CfgTrue | CfgFalse | CfgLoopBody | CfgLoopNext | CfgExcept | CfgFinal
    | DfgDef | DfgUse | DfgParam | DfgReturn | DfgCallArg | DfgCallResult | DfgAssignRhs
  {
    function Value(): (r: string)
    {
      match this
      case AstChild => "ast_child"
      case AstFile => "ast_file"
      case AstClass => "ast_class"
      case AstFunction => "ast_function"
      case AstBody => "ast_body"
      case CfgSeq => "cfg_seq"
      case CfgTrue => "cfg_true"
      case CfgFalse => "cfg_false"
      case CfgLoopBody => "cfg_loop_body"
      case CfgLoopNext => "cfg_loop_next"
      case CfgExcept => "cfg_except"
      case CfgFinal => "cfg_final"
      case DfgDef => "dfg_def"
      case DfgUse => "dfg_use"
      case DfgParam => "dfg_param"
      case DfgReturn => "dfg_return"
      case DfgCallArg => "dfg_call_arg"
      case DfgCallResult => "dfg_call_result"
      case DfgAssignRhs => "dfg_assign_rhs"
    }

    predicate IsDfg()
    {
      DfgDef? || DfgUse? || DfgParam? || DfgReturn? || DfgCallArg? || DfgCallResult? || DfgAssignRhs?
    }
  }

  // The layer can be told by the prefix of the type's name.
  lemma DfgByPrefix(t: EdgeType)
    ensures t.IsDfg() <==> "dfg_" <= t.Value()
  {
    assert !t.IsDfg() ==> t.Value()[0] != "dfg_"[0];
  }

  // Node ids are only ever compared for equality.
  type NodeId = int

  datatype Edge = Edge(src: NodeId, dst: NodeId, edgeType: EdgeType)

  predicate Outgoing(e: Edge, node: NodeId, only: Option<EdgeType>)
  {
    e.src == node && (only.None? || e.edgeType == only.value)
  }

  function EdgesFrom(edges: seq<Edge>, node: NodeId, only: Option<EdgeType>): (r: seq<Edge>)
    ensures forall e :: e in r <==> e in edges && Outgoing(e, node, only)
    ensures |r| <= |edges|
  {
    if edges == [] then []
    else (if Outgoing(edges[0], node, only) then [edges[0]] else []) + EdgesFrom(edges[1..], node, only)
  }

  // Asked for one type, only its edges; asked for none, all that leave the node.
  lemma EdgesFromIff(edges: seq<Edge>, node: NodeId, e: Edge)
    ensures e in EdgesFrom(edges, node, None) <==> e in edges && e.src == node
    ensures forall t :: e in EdgesFrom(edges, node, Some(t)) <==> e in edges && e.src == node && e.edgeType == t
  {
  }

  // The outgoing edges keep the order of the graph's edge list.
  lemma {:induction false} EdgesInOrder(a: seq<Edge>, b: seq<Edge>, node: NodeId, only: Option<EdgeType>)
    ensures EdgesFrom(a + b, node, only) == EdgesFrom(a, node, only) + EdgesFrom(b, node, only)
  {
    if a == [] {
      assert a + b == b;
    } else {
      assert (a + b)[1..] == a[1..] + b;
      EdgesInOrder(a[1..], b, node, only);
    }
  }

  // ---------------------------------------------------------------- what a path is

  ghost predicate Flows(edges: seq<Edge>, a: NodeId, b: NodeId)
  {
    exists i :: 0 <= i < |edges| && edges[i].src == a && edges[i].dst == b && edges[i].edgeType.IsDfg()
  }

  ghost predicate IsPath(edges: seq<Edge>, path: seq<NodeId>)
  {
    path != [] && forall i :: 0 < i < |path| ==> Flows(edges, path[i - 1], path[i])
  }

  // Some path of data-flow edges leads from source to target, using at most k of them.
  ghost predicate Reachable(edges: seq<Edge>, source: NodeId, target: NodeId, k: int)
  {
    exists path :: IsPath(edges, path) && path[0] == source && path[|path| - 1] == target && |path| - 1 <= k
  }

  lemma ReachableStep(edges: seq<Edge>, source: NodeId, e: Edge, k: int)
    requires Reachable(edges, source, e.src, k) && e in edges && e.edgeType.IsDfg()
    ensures Reachable(edges, source, e.dst, k + 1)
  {
    var path :| IsPath(edges, path) && path[0] == source && path[|path| - 1] == e.src && |path| - 1 <= k;
    var longer := path + [e.dst];
    var i :| 0 <= i < |edges| && edges[i] == e;
    assert Flows(edges, e.src, e.dst);
    assert IsPath(edges, longer);
  }

  // ---------------------------------------------------------------- the search

  datatype Entry = Entry(node: NodeId, depth: int)

  type Queue = seq<Entry>

  ghost predicate Queued(queue: Queue, node: NodeId, depth: int)
  {
    exists i :: 0 <= i < |queue| && queue[i].node == node && queue[i].depth <= depth
  }

  // The node was expanded no deeper than this, or will be looked at no deeper than this, or lies
  // beyond the depth limit and is known not to be the target.
  ghost predicate Accounted(
    node: NodeId, depth: int, seen: map<NodeId, int>, queue: Queue, target: NodeId, maxDepth: int)
  {
    (node in seen && seen[node] <= depth) || Queued(queue, node, depth) || (depth >= maxDepth && node != target)
  }

  // Depths never decrease along the queue and span at most two consecutive levels.
  ghost predicate Ordered(queue: Queue)
  {
    (forall i, j :: 0 <= i < j < |queue| ==> queue[i].depth <= queue[j].depth) &&
    (forall i :: 0 <= i < |queue| ==> queue[i].depth <= queue[0].depth + 1)
  }

  ghost predicate Closed(edges: seq<Edge>, seen: map<NodeId, int>, queue: Queue, target: NodeId, maxDepth: int)
  {
    forall e :: e in edges && e.edgeType.IsDfg() && e.src in seen ==>
      Accounted(e.dst, seen[e.src] + 1, seen, queue, target, maxDepth)
  }

  // Whatever is expanded at depth d has all its successors accounted for at depth d + 1, so every
  // node of a short enough path is accounted for at its own position.
  lemma {:induction false} PathAccounted(
    edges: seq<Edge>, path: seq<NodeId>, i: nat, seen: map<NodeId, int>, target: NodeId, maxDepth: int)
    requires IsPath(edges, path) && i < |path| && i <= maxDepth
    requires Accounted(path[0], 0, seen, [], target, maxDepth) && Closed(edges, seen, [], target, maxDepth)
    ensures Accounted(path[i], i, seen, [], target, maxDepth)
  {
    if i > 0 {
      PathAccounted(edges, path, i - 1, seen, target, maxDepth);
      assert Flows(edges, path[i - 1], path[i]);
      var j :| 0 <= j < |edges| && edges[j].src == path[i - 1] && edges[j].dst == path[i] && edges[j].edgeType.IsDfg();
      var e := edges[j];
      assert path[i - 1] in seen;
      assert Accounted(e.dst, seen[e.src] + 1, seen, [], target, maxDepth);
    }
  }

  // With an empty queue and the target never expanded, no short path ends at the target.
  lemma SearchComplete(
    edges: seq<Edge>, seen: map<NodeId, int>, source: NodeId, target: NodeId, maxDepth: int)
    requires target !in seen && maxDepth >= 0
    requires Accounted(source, 0, seen, [], target, maxDepth) && Closed(edges, seen, [], target, maxDepth)
    ensures !Reachable(edges, source, target, maxDepth)
  {
    forall path | IsPath(edges, path) && path[0] == source && |path| - 1 <= maxDepth
      ensures path[|path| - 1] != target
    {
      PathAccounted(edges, path, |path| - 1, seen, target, maxDepth);
    }
  }

  // ---------------------------------------------------------------- one turn of the queue

  // The entries a visited node puts at the end of the queue.
  function Entries(out: seq<Edge>, depth: int): (r: Queue)
    ensures forall i :: 0 <= i < |r| ==> r[i].depth == depth
  {
    if out == [] then []
    else (if out[0].edgeType.IsDfg() then [Entry(out[0].dst, depth)] else []) + Entries(out[1..], depth)
  }

  lemma {:induction false} EntryHasEdge(out: seq<Edge>, depth: int, i: nat) returns (e: Edge)
    requires i < |Entries(out, depth)|
    ensures e in out && e.edgeType.IsDfg() && e.dst == Entries(out, depth)[i].node
  {
    if out[0].edgeType.IsDfg() && i == 0 {
      e := out[0];
    } else {
      e := EntryHasEdge(out[1..], depth, if out[0].edgeType.IsDfg() then i - 1 else i);
    }
  }

  lemma {:induction false} EdgeHasEntry(out: seq<Edge>, depth: int, e: Edge) returns (i: nat)
    requires e in out && e.edgeType.IsDfg()
    ensures i < |Entries(out, depth)| && Entries(out, depth)[i] == Entry(e.dst, depth)
  {
    if out[0] == e {
      i := 0;
    } else {
      i := EdgeHasEntry(out[1..], depth, e);
      i := if out[0].edgeType.IsDfg() then i + 1 else i;
    }
  }

  function Vertices(edges: seq<Edge>, source: NodeId): (r: set<NodeId>)
  {
    {source} + set e | e in edges :: e.dst
  }

  ghost predicate ReachableEntry(edges: seq<Edge>, entry: Entry, source: NodeId, limit: int)
  {
    0 <= entry.depth <= limit && entry.node in Vertices(edges, source)
        && Reachable(edges, source, entry.node, entry.depth)
  }

  ghost predicate AllReachable(edges: seq<Edge>, queue: Queue, source: NodeId, limit: int)
  {
    forall i :: 0 <= i < |queue| ==> ReachableEntry(edges, queue[i], source, limit)
  }

  // What the queue and the expanded nodes satisfy between two turns.
  ghost predicate Searching(
    edges: seq<Edge>, seen: map<NodeId, int>, queue: Queue, source: NodeId, target: NodeId, limit: int)
  {
    target !in seen && Ordered(queue) &&
    (queue != [] ==> forall v :: v in seen ==> seen[v] <= queue[0].depth) &&
    Accounted(source, 0, seen, queue, target, limit) && Closed(edges, seen, queue, target, limit)
  }

  // The entry in front may go: its node was expanded at least as early, or lies at the limit.
  lemma Dropped(edges: seq<Edge>, seen: map<NodeId, int>, queue: Queue, source: NodeId, target: NodeId, limit: int)
    requires queue != [] && Searching(edges, seen, queue, source, target, limit)
    requires queue[0].node != target && (queue[0].depth >= limit || queue[0].node in seen)
    ensures Searching(edges, seen, queue[1..], source, target, limit)
  {
    var rest := queue[1..];
    forall n: NodeId, d: int | Accounted(n, d, seen, queue, target, limit)
      ensures Accounted(n, d, seen, rest, target, limit)
    {
      if Queued(queue, n, d) {
        var i :| 0 <= i < |queue| && queue[i].node == n && queue[i].depth <= d;
        if i > 0 {
          assert rest[i - 1] == queue[i];
        }
      }
    }
  }

  // What stays accounted for when the node in front is expanded.
  lemma StillAccounted(
    seen: map<NodeId, int>, queue: Queue, entries: Queue, n: NodeId, d: int, target: NodeId, limit: int)
    requires queue != [] && queue[0].node !in seen && Accounted(n, d, seen, queue, target, limit)
    ensures Accounted(n, d, seen[queue[0].node := queue[0].depth], queue[1..] + entries, target, limit)
  {
    if Queued(queue, n, d) {
      var i :| 0 <= i < |queue| && queue[i].node == n && queue[i].depth <= d;
      if i > 0 {
        assert (queue[1..] + entries)[i - 1] == queue[i];
      }
    }
  }

  // Its successors join the end of the queue one level deeper.
  lemma StillClosed(
    edges: seq<Edge>, seen: map<NodeId, int>, queue: Queue, entries: Queue, target: NodeId, limit: int)
    requires queue != [] && queue[0].node !in seen && Closed(edges, seen, queue, target, limit)
    requires entries == Entries(EdgesFrom(edges, queue[0].node, None), queue[0].depth + 1)
    ensures Closed(edges, seen[queue[0].node := queue[0].depth], queue[1..] + entries, target, limit)
  {
    var current, depth := queue[0].node, queue[0].depth;
    var after, next := seen[current := depth], queue[1..] + entries;
    forall e | e in edges && e.edgeType.IsDfg() && e.src in after
      ensures Accounted(e.dst, after[e.src] + 1, after, next, target, limit)
    {
      if e.src == current {
        var i := EdgeHasEntry(EdgesFrom(edges, current, None), depth + 1, e);
        assert next[|queue| - 1 + i] == entries[i];
      } else {
        StillAccounted(seen, queue, entries, e.dst, seen[e.src] + 1, target, limit);
      }
    }
  }

  lemma EntriesReachable(edges: seq<Edge>, node: NodeId, depth: int, source: NodeId, limit: int)
    requires ReachableEntry(edges, Entry(node, depth), source, limit) && depth < limit
    ensures AllReachable(edges, Entries(EdgesFrom(edges, node, None), depth + 1), source, limit)
  {
    var entries := Entries(EdgesFrom(edges, node, None), depth + 1);
    forall i | 0 <= i < |entries|
      ensures ReachableEntry(edges, entries[i], source, limit)
    {
      var e := EntryHasEdge(EdgesFrom(edges, node, None), depth + 1, i);
      ReachableStep(edges, source, e, depth);
    }
  }

  lemma StillReachable(edges: seq<Edge>, queue: Queue, entries: Queue, source: NodeId, limit: int)
    requires queue != [] && AllReachable(edges, queue, source, limit) && AllReachable(edges, entries, source, limit)
    ensures AllReachable(edges, queue[1..] + entries, source, limit)
  {
    var next := queue[1..] + entries;
    forall i | 0 <= i < |next|
      ensures ReachableEntry(edges, next[i], source, limit)
    {
      assert next[i] == if i < |queue| - 1 then queue[i + 1] else entries[i - (|queue| - 1)];
    }
  }

  lemma StillOrdered(queue: Queue, entries: Queue)
    requires queue != [] && Ordered(queue)
    requires forall i :: 0 <= i < |entries| ==> entries[i].depth == queue[0].depth + 1
    ensures Ordered(queue[1..] + entries)
    ensures queue[1..] + entries != [] ==> queue[0].depth <= (queue[1..] + entries)[0].depth
  {
    var next := queue[1..] + entries;
    assert forall i :: 0 <= i < |next| ==>
             next[i] == if i < |queue| - 1 then queue[i + 1] else entries[i - (|queue| - 1)];
  }

  lemma Expanded(
    edges: seq<Edge>, seen: map<NodeId, int>, queue: Queue, entries: Queue,
    source: NodeId, target: NodeId, limit: int)
    requires queue != [] && Searching(edges, seen, queue, source, target, limit)
    requires queue[0].node != target && queue[0].depth < limit && queue[0].node !in seen
    requires entries == Entries(EdgesFrom(edges, queue[0].node, None), queue[0].depth + 1)
    ensures Searching(edges, seen[queue[0].node := queue[0].depth], queue[1..] + entries, source, target, limit)
  {
    StillAccounted(seen, queue, entries, source, 0, target, limit);
    StillClosed(edges, seen, queue, entries, target, limit);
    StillOrdered(queue, entries);
  }

  lemma OneFewerOpen(all: set<NodeId>, visited: set<NodeId>, node: NodeId)
    requires visited <= all && node in all && node !in visited
    ensures visited + {node} <= all
    ensures |all - (visited + {node})| < |all - visited|
  {
    assert all - visited == (all - (visited + {node})) + {node};
  }

  lemma ExpandedKeys(seen: map<NodeId, int>, node: NodeId, depth: int)
    ensures seen[node := depth].Keys == seen.Keys + {node}
  {
  }

  method Enqueue(before: Queue, out: seq<Edge>, depth: int) returns (queue: Queue)
    ensures queue == before + Entries(out, depth)
  {
    queue := before;
    for i := 0 to |out|
      invariant queue + Entries(out[i..], depth) == before + Entries(out, depth)
    {
      assert out[i..][0] == out[i] && out[i..][1..] == out[i + 1..];
      if out[i].edgeType.IsDfg() {
        queue := queue + [Entry(out[i].dst, depth)];
      }
    }
  }

  // The next step for the entry in front: it is the target, or it goes, or its node is visited.
  method Turn(edges: seq<Edge>, before: Queue, visited: set<NodeId>, maxDepth: int, ghost seen: map<NodeId, int>,
              source: NodeId, target: NodeId, ghost limit: int)
    returns (found: bool, queue: Queue, after: set<NodeId>, ghost next: map<NodeId, int>)
    requires before != [] && limit == (if maxDepth < 0 then 0 else maxDepth) && 0 <= before[0].depth <= limit
    requires seen.Keys == visited && Searching(edges, seen, before, source, target, limit)
    ensures found <==> before[0].node == target
    ensures !found ==> next.Keys == after && Searching(edges, next, queue, source, target, limit)
    ensures !found ==> if after == visited then queue == before[1..]
                       else queue == Successors(edges, before) && after == visited + {before[0].node} &&
                            before[0].node !in visited && before[0].depth < limit
  {
    var current, depth := before[0].node, before[0].depth;
    queue, after, next := before[1..], visited, seen;
    found := current == target;
    if !found {
      if depth >= maxDepth || current in visited {
        Dropped(edges, seen, before, source, target, limit);
      } else {
        after := visited + {current};
        queue := Enqueue(queue, EdgesFrom(edges, current, None), depth + 1);
        Expanded(edges, seen, before, Entries(EdgesFrom(edges, current, None), depth + 1), source, target, limit);
        next := seen[current := depth];
        ExpandedKeys(seen, current, depth);
      }
    }
  }

  // The queue after the entry in front has been expanded.
  function Successors(edges: seq<Edge>, queue: Queue): (r: Queue)
    requires queue != []
  {
    queue[1..] + Entries(EdgesFrom(edges, queue[0].node, None), queue[0].depth + 1)
  }

  lemma SuccessorsReachable(edges: seq<Edge>, queue: Queue, source: NodeId, limit: int)
    requires queue != [] && AllReachable(edges, queue, source, limit)
    ensures queue[0].depth < limit ==> AllReachable(edges, Successors(edges, queue), source, limit)
    ensures AllReachable(edges, queue[1..], source, limit)
  {
    assert ReachableEntry(edges, queue[0], source, limit);
    if queue[0].depth < limit {
      EntriesReachable(edges, queue[0].node, queue[0].depth, source, limit);
      StillReachable(edges, queue, Entries(EdgesFrom(edges, queue[0].node, None), queue[0].depth + 1), source, limit);
    }
  }

  method DfgReachability(edges: seq<Edge>, source: NodeId, target: NodeId, maxDepth: int) returns (found: bool)
    ensures found <==> Reachable(edges, source, target, if maxDepth < 0 then 0 else maxDepth)
  {
    ghost var limit := if maxDepth < 0 then 0 else maxDepth;
    ghost var all := Vertices(edges, source);
    var visited := {};
    var queue: Queue := [Entry(source, 0)];
    ghost var seen: map<NodeId, int> := map[];  // the depth at which each visited node was expanded
    SearchStarts(edges, source, target, limit);
    while queue != []
      invariant seen.Keys == visited <= all
      invariant Searching(edges, seen, queue, source, target, limit)
      invariant AllReachable(edges, queue, source, limit)
      decreases |all - visited|, |queue|
    {
      ghost var before, front := visited, queue[0];
      assert ReachableEntry(edges, front, source, limit);
      SuccessorsReachable(edges, queue, source, limit);
      found, queue, visited, seen := Turn(edges, queue, visited, maxDepth, seen, source, target, limit);
      if found {
        ReachableWithin(edges, source, target, front.depth, limit);
        return;
      }
      if visited != before {
        OneFewerOpen(all, before, front.node);
      }
    }
    SearchComplete(edges, seen, source, target, limit);
    found := false;
  }

  lemma SearchStarts(edges: seq<Edge>, source: NodeId, target: NodeId, limit: int)
    requires limit >= 0
    ensures Searching(edges, map[], [Entry(source, 0)], source, target, limit)
    ensures AllReachable(edges, [Entry(source, 0)], source, limit)
  {
    assert IsPath(edges, [source]);
    var queue: Queue := [Entry(source, 0)];
    assert queue[0].node == source;
  }

  lemma ReachableWithin(edges: seq<Edge>, source: NodeId, target: NodeId, k: int, limit: int)
    requires Reachable(edges, source, target, k) && k <= limit
    ensures Reachable(edges, source, target, limit)
  {
    var path :| IsPath(edges, path) && path[0] == source && path[|path| - 1] == target && |path| - 1 <= k;
  }
}
