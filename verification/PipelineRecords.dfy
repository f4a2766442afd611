/**
 A remediation record told by the run: which proposal, patch and recheck of its finding came last since the last
 deletion says everything that stands in it. From that, what the latest proposal means for the next patch.
 */
module PipelineRecords {
  import opened Wrappers
  import Approval
  import opened Pipeline

  // A step that changes the record of its finding.
  datatype Kind = Proposing | Applying | Misfitting | Rechecking

  ghost predicate Does(kind: Kind, s: State, op: Op, finding: int)
  {
    match kind
    case Proposing => Proposes(s, op, finding)
    case Applying => Applies(s, op, finding)
    case Misfitting => op.Apply? && op.finding == finding && Ready(s, op) && After(s, op).1.PatchRefused?
    case Rechecking => Rechecks(s, op, finding)
  }

  ghost predicate Touches(s: State, op: Op, finding: int)
  {
    exists kind :: Does(kind, s, op, finding)
  }

  // The latest step of a kind, since the last deletion of the finding.
  ghost function Last(kind: Kind, states: seq<State>, ops: seq<Op>, n: nat, finding: int): (i: Option<nat>)
    requires n <= |ops| < |states|
  {
    if n == 0 || Deletes(ops[n - 1], finding) then None
    else if Does(kind, states[n - 1], ops[n - 1], finding) then Some(n - 1)
    else Last(kind, states, ops, n - 1, finding)
  }

  ghost function LastTouch(states: seq<State>, ops: seq<Op>, n: nat, finding: int): (i: Option<nat>)
    requires n <= |ops| < |states|
  {
    if n == 0 || Deletes(ops[n - 1], finding) then None
    else if Touches(states[n - 1], ops[n - 1], finding) then Some(n - 1)
    else LastTouch(states, ops, n - 1, finding)
  }

  // The first proposal since the last deletion.
  ghost function First(states: seq<State>, ops: seq<Op>, n: nat, finding: int): (i: Option<nat>)
    requires n <= |ops| < |states|
  {
    if n == 0 || Deletes(ops[n - 1], finding) then None
    else if First(states, ops, n - 1, finding).Some? then First(states, ops, n - 1, finding)
    else if Proposes(states[n - 1], ops[n - 1], finding) then Some(n - 1)
    else None
  }

  lemma {:induction false} LastIsLatest(kind: Kind, states: seq<State>, ops: seq<Op>, n: nat, finding: int)
    requires n <= |ops| < |states|
    ensures var i := Last(kind, states, ops, n, finding);
            && (i.Some? ==> i.value < n && Does(kind, states[i.value], ops[i.value], finding)
                            && Alive(ops, i.value + 1, n, finding)
                            && forall k {:trigger ops[k]} :: i.value < k < n ==>
                                 !Does(kind, states[k], ops[k], finding))
            && (i.None? ==> forall k {:trigger ops[k]} :: 0 <= k < n && Alive(ops, k + 1, n, finding) ==>
                               Deletes(ops[k], finding) || !Does(kind, states[k], ops[k], finding))
    decreases n
  {
    if n > 0 && !Deletes(ops[n - 1], finding) && !Does(kind, states[n - 1], ops[n - 1], finding) {
      LastIsLatest(kind, states, ops, n - 1, finding);
    }
  }

  // ---------------------------------------------------------------- one step

  // The request whose approval opens the gate.
  ghost function Opener(s: State, finding: int): (id: Option<int>)
  {
    if Approval.Known(s.book.requests, s.book.order) && Newest(s, finding).Some? then Some(Newest(s, finding).value.id)
    else None
  }

  // What a step says about the finding's status and error, if it is the last to change the record.
  predicate Says(op: Op, status: RemediationStatus, error: Option<int>)
  {
    match op
    case Propose(_, fix, _) =>
      fix.Found? && error == None && status == if fix.value.automatic then Proposed else NoFixAvailable
    case Apply(_, _, patch, _) =>
      patch.Found? && (patch.value.Fits? ==> status == Applied && error == None)
      && (patch.value.Misfit? ==> status == Failed && error == Some(patch.value.why))
    case Verify(_, present, _) =>
      present.Found? && error == None && status == if present.value then StillPresent else FixVerified
    case _ => false
  }

  ghost predicate ProposalStands(r: Record, op: Op, opener: Option<int>)
  {
    op.Propose? && op.fix.Found? && r.proposal == Some(op.fix.value) && opener == Some(r.approval)
  }

  ghost predicate Leaves(kind: Kind, s: State, op: Op, after: State, finding: int)
    requires Does(kind, s, op, finding)
  {
    && finding in after.records
    && var r := after.records[finding];
       match kind
       case Proposing =>
         && ProposalStands(r, op, Opener(s, finding)) && Says(op, r.status, r.error)
         && r.createdAt == (if finding in s.records then s.records[finding].createdAt else op.now)
         && SameTimes(Lookup(s.records, finding), r)
       case Applying =>
         finding in s.records && s.records[finding].status != NoFixAvailable
         && r == s.records[finding].(status := Applied, appliedAt := Some(op.now), error := None)
       case Misfitting =>
         finding in s.records && s.records[finding].status != NoFixAvailable
         && op.patch.Found? && op.patch.value.Misfit?
         && r == s.records[finding].(status := Failed, error := Some(op.patch.value.why))
       case Rechecking =>
         finding in s.records && s.records[finding].status != NoFixAvailable && op.present.Found?
         && var status := if op.present.value then StillPresent else FixVerified;
            r == s.records[finding].(status := status, verification := Some(status), verifiedAt := Some(op.now),
                                     error := None)
  }

  lemma ProposeLeaves(s: State, op: Op, after: State, finding: int)
    requires Step(s, op, after) && op.Propose?
    ensures if Does(Proposing, s, op, finding) then Leaves(Proposing, s, op, after, finding)
            else Lookup(after.records, finding) == Lookup(s.records, finding)
  {
  }

  lemma ApplyLeaves(s: State, op: Op, after: State, finding: int)
    requires Step(s, op, after) && op.Apply?
    ensures if Does(Applying, s, op, finding) then Leaves(Applying, s, op, after, finding)
            else if Does(Misfitting, s, op, finding) then Leaves(Misfitting, s, op, after, finding)
            else Lookup(after.records, finding) == Lookup(s.records, finding)
  {
  }

  lemma VerifyLeaves(s: State, op: Op, after: State, finding: int)
    requires Step(s, op, after) && op.Verify?
    ensures if Does(Rechecking, s, op, finding) then Leaves(Rechecking, s, op, after, finding)
            else Lookup(after.records, finding) == Lookup(s.records, finding)
  {
  }

  // What a step leaves as the finding's record.
  lemma RecordAfter(s: State, op: Op, after: State, finding: int)
    requires Step(s, op, after)
    ensures Deletes(op, finding) ==> finding !in after.records
    ensures forall kind :: Does(kind, s, op, finding) ==> Leaves(kind, s, op, after, finding)
    ensures !Deletes(op, finding) && !Touches(s, op, finding) ==>
              Lookup(after.records, finding) == Lookup(s.records, finding)
  {
    assert Touches(s, op, finding) <==>
           Does(Proposing, s, op, finding) || Does(Applying, s, op, finding)
           || Does(Misfitting, s, op, finding) || Does(Rechecking, s, op, finding);
    if op.Propose? {
      ProposeLeaves(s, op, after, finding);
    } else if op.Apply? {
      ApplyLeaves(s, op, after, finding);
    } else if op.Verify? {
      VerifyLeaves(s, op, after, finding);
    } else if !op.Delete? {
      OthersKeepRecords(s, op, after);
    }
  }

  // A new proposal leaves what an earlier patch and recheck recorded.
  predicate SameTimes(before: Option<Record>, r: Record)
  {
    match before
    case None => r.appliedAt == None && r.verifiedAt == None && r.verification == None
    case Some(b) => r.appliedAt == b.appliedAt && r.verifiedAt == b.verifiedAt && r.verification == b.verification
  }

  // ---------------------------------------------------------------- the record and the run

  ghost predicate TimesStand(r: Record, ops: seq<Op>, first: nat, applied: Option<nat>, checked: Option<nat>)
    requires first < |ops| && (applied.Some? ==> applied.value < |ops|) && (checked.Some? ==> checked.value < |ops|)
  {
    && ops[first].Propose? && r.createdAt == ops[first].now
    && (applied.Some? ==> ops[applied.value].Apply? && r.appliedAt == Some(ops[applied.value].now))
    && (applied.None? ==> r.appliedAt == None)
    && (checked.Some? ==> ops[checked.value].Verify? && r.verifiedAt == Some(ops[checked.value].now)
                          && r.verification.Some? && Says(ops[checked.value], r.verification.value, None))
    && (checked.None? ==> r.verifiedAt == None && r.verification == None)
  }

  // After a step of one kind it is the last of that kind, and the others are as they were.
  lemma LastNext(states: seq<State>, ops: seq<Op>, n: nat, finding: int, kind: Kind, other: Kind)
    requires n < |ops| < |states| && Does(kind, states[n], ops[n], finding)
    ensures Last(other, states, ops, n + 1, finding)
            == if other == kind then Some(n) else Last(other, states, ops, n, finding)
    ensures First(states, ops, n + 1, finding)
            == if First(states, ops, n, finding).None? && kind == Proposing then Some(n)
               else First(states, ops, n, finding)
    ensures LastTouch(states, ops, n + 1, finding) == Some(n)
  {
  }

  // A deletion forgets them all; any other step that changes no record leaves them.
  lemma LastKept(states: seq<State>, ops: seq<Op>, n: nat, finding: int, other: Kind)
    requires n < |ops| < |states| && !Touches(states[n], ops[n], finding)
    ensures var gone := Deletes(ops[n], finding);
            && Last(other, states, ops, n + 1, finding) == (if gone then None else Last(other, states, ops, n, finding))
            && First(states, ops, n + 1, finding) == (if gone then None else First(states, ops, n, finding))
            && LastTouch(states, ops, n + 1, finding) == (if gone then None else LastTouch(states, ops, n, finding))
  {
    assert !Does(Proposing, states[n], ops[n], finding) && !Does(other, states[n], ops[n], finding);
  }

  // What the last proposal and the last change of any kind say of the record.
  ghost predicate Stands(states: seq<State>, ops: seq<Op>, n: nat, finding: int, p: Option<nat>, t: Option<nat>)
    requires n <= |ops| < |states|
  {
    && (finding in states[n].records <==> p.Some?)
    && (p.Some? ==>
          && finding in states[n].records && p.value < n && t.Some? && t.value < n
          && var r := states[n].records[finding];
             && ProposalStands(r, ops[p.value], Opener(states[p.value], finding))
             && Says(ops[t.value], r.status, r.error)
             && (!ops[p.value].fix.value.automatic ==> t == p))
  }

  lemma StandsNext(states: seq<State>, ops: seq<Op>, n: nat, finding: int, kind: Kind, p: Option<nat>, t: Option<nat>)
    requires n < |ops| < |states| && Step(states[n], ops[n], states[n + 1]) && Stands(states, ops, n, finding, p, t)
    requires Does(kind, states[n], ops[n], finding) && Leaves(kind, states[n], ops[n], states[n + 1], finding)
    ensures Stands(states, ops, n + 1, finding, if kind == Proposing then Some(n) else p, Some(n))
  {
  }

  lemma StandsKept(states: seq<State>, ops: seq<Op>, n: nat, finding: int, p: Option<nat>, t: Option<nat>)
    requires n < |ops| < |states| && Stands(states, ops, n, finding, p, t)
    requires if Deletes(ops[n], finding) then finding !in states[n + 1].records
             else Lookup(states[n + 1].records, finding) == Lookup(states[n].records, finding)
    ensures if Deletes(ops[n], finding) then Stands(states, ops, n + 1, finding, None, None)
            else Stands(states, ops, n + 1, finding, p, t)
  {
  }

  lemma StandsStep(states: seq<State>, ops: seq<Op>, n: nat, finding: int)
    requires n < |ops| < |states| && Step(states[n], ops[n], states[n + 1])
    requires Stands(states, ops, n, finding, Last(Proposing, states, ops, n, finding),
                    LastTouch(states, ops, n, finding))
    ensures Stands(states, ops, n + 1, finding, Last(Proposing, states, ops, n + 1, finding),
                   LastTouch(states, ops, n + 1, finding))
  {
    var p, t := Last(Proposing, states, ops, n, finding), LastTouch(states, ops, n, finding);
    RecordAfter(states[n], ops[n], states[n + 1], finding);
    if Touches(states[n], ops[n], finding) {
      var kind :| Does(kind, states[n], ops[n], finding);
      StandsNext(states, ops, n, finding, kind, p, t);
      LastNext(states, ops, n, finding, kind, Proposing);
    } else {
      LastKept(states, ops, n, finding, Proposing);
      StandsKept(states, ops, n, finding, p, t);
    }
  }

  lemma {:induction false} ProposalTold(states: seq<State>, ops: seq<Op>, n: nat, finding: int)
    requires Run(states, ops) && n <= |ops|
    ensures Stands(states, ops, n, finding, Last(Proposing, states, ops, n, finding),
                   LastTouch(states, ops, n, finding))
    decreases n
  {
    if n > 0 {
      ProposalTold(states, ops, n - 1, finding);
      assert Step(states[n - 1], ops[n - 1], states[n]);
      StandsStep(states, ops, n - 1, finding);
    }
  }

  // The last proposal stands in the record, with the request that opened its gate; status and error are what the
  // last change says, and without an automatic fix the proposal itself is that.
  lemma ProposalInRecord(states: seq<State>, ops: seq<Op>, n: nat, finding: int)
    requires Run(states, ops) && n <= |ops| && finding in states[n].records
    ensures var p, t := Last(Proposing, states, ops, n, finding), LastTouch(states, ops, n, finding);
            && p.Some? && p.value < n && t.Some? && t.value < n
            && var r := states[n].records[finding];
               && ProposalStands(r, ops[p.value], Opener(states[p.value], finding))
               && Says(ops[t.value], r.status, r.error)
               && (!ops[p.value].fix.value.automatic ==> t == p)
  {
    ProposalTold(states, ops, n, finding);
  }

  ghost predicate Times(states: seq<State>, ops: seq<Op>, n: nat, finding: int, c: Option<nat>, a: Option<nat>,
      v: Option<nat>)
    requires n <= |ops| < |states|
  {
    && (finding in states[n].records <==> c.Some?)
    && (c.Some? ==> c.value < n && (a.Some? ==> a.value < n) && (v.Some? ==> v.value < n)
                    && TimesStand(states[n].records[finding], ops, c.value, a, v))
    && (c.None? ==> a.None? && v.None?)
  }

  lemma TimesNext(states: seq<State>, ops: seq<Op>, n: nat, finding: int, kind: Kind, c: Option<nat>, a: Option<nat>,
      v: Option<nat>)
    requires n < |ops| < |states| && Step(states[n], ops[n], states[n + 1]) && Times(states, ops, n, finding, c, a, v)
    requires Does(kind, states[n], ops[n], finding) && Leaves(kind, states[n], ops[n], states[n + 1], finding)
    ensures Times(states, ops, n + 1, finding, if c.None? && kind == Proposing then Some(n) else c,
                  if kind == Applying then Some(n) else a, if kind == Rechecking then Some(n) else v)
  {
  }

  lemma TimesKept(states: seq<State>, ops: seq<Op>, n: nat, finding: int, c: Option<nat>, a: Option<nat>,
      v: Option<nat>)
    requires n < |ops| < |states| && Times(states, ops, n, finding, c, a, v)
    requires if Deletes(ops[n], finding) then finding !in states[n + 1].records
             else Lookup(states[n + 1].records, finding) == Lookup(states[n].records, finding)
    ensures if Deletes(ops[n], finding) then Times(states, ops, n + 1, finding, None, None, None)
            else Times(states, ops, n + 1, finding, c, a, v)
  {
  }

  lemma TimesStep(states: seq<State>, ops: seq<Op>, n: nat, finding: int)
    requires n < |ops| < |states| && Step(states[n], ops[n], states[n + 1])
    requires Times(states, ops, n, finding, First(states, ops, n, finding), Last(Applying, states, ops, n, finding),
                   Last(Rechecking, states, ops, n, finding))
    ensures Times(states, ops, n + 1, finding, First(states, ops, n + 1, finding),
                  Last(Applying, states, ops, n + 1, finding), Last(Rechecking, states, ops, n + 1, finding))
  {
    var c := First(states, ops, n, finding);
    var a, v := Last(Applying, states, ops, n, finding), Last(Rechecking, states, ops, n, finding);
    RecordAfter(states[n], ops[n], states[n + 1], finding);
    if Touches(states[n], ops[n], finding) {
      var kind :| Does(kind, states[n], ops[n], finding);
      TimesNext(states, ops, n, finding, kind, c, a, v);
      LastNext(states, ops, n, finding, kind, Applying);
      LastNext(states, ops, n, finding, kind, Rechecking);
    } else {
      LastKept(states, ops, n, finding, Applying);
      LastKept(states, ops, n, finding, Rechecking);
      TimesKept(states, ops, n, finding, c, a, v);
    }
  }

  // The times in it are those of the first proposal and of the last patch and recheck since the last deletion.
  lemma {:induction false} TimesTold(states: seq<State>, ops: seq<Op>, n: nat, finding: int)
    requires Run(states, ops) && n <= |ops|
    ensures Times(states, ops, n, finding, First(states, ops, n, finding), Last(Applying, states, ops, n, finding),
                  Last(Rechecking, states, ops, n, finding))
    decreases n
  {
    if n > 0 {
      TimesTold(states, ops, n - 1, finding);
      assert Step(states[n - 1], ops[n - 1], states[n]);
      TimesStep(states, ops, n - 1, finding);
    }
  }

  // ---------------------------------------------------------------- what a proposal means for the next patch

  // The proposal a patch is made with has an automatic fix, and stays in the record.
  lemma PatchLeavesProposal(s: State, op: Op, after: State, finding: int)
    requires Step(s, op, after) && Applies(s, op, finding)
    ensures finding in s.records && s.records[finding].status != NoFixAvailable
    ensures finding in after.records && after.records[finding].proposal == s.records[finding].proposal
    ensures after.records[finding].approval == s.records[finding].approval
  {
    ApplyLeaves(s, op, after, finding);
    assert Does(Applying, s, op, finding);
  }

  lemma LatestProposal(states: seq<State>, ops: seq<Op>, n: nat, finding: int) returns (p: nat)
    requires Run(states, ops) && n <= |ops| && finding in states[n].records
    requires states[n].records[finding].status != NoFixAvailable
    ensures p < n && Proposes(states[p], ops[p], finding) && Alive(ops, p + 1, n, finding)
    ensures forall k {:trigger ops[k]} :: p < k < n ==> !Proposes(states[k], ops[k], finding)
    ensures ProposalStands(states[n].records[finding], ops[p], Opener(states[p], finding))
    ensures ops[p].fix.value.automatic
  {
    ProposalInRecord(states, ops, n, finding);
    LastIsLatest(Proposing, states, ops, n, finding);
    p := Last(Proposing, states, ops, n, finding).value;
  }

  // Every patch that reaches the source is of the latest proposal, which offered an automatic fix and came after
  // any deletion; the record still holds that proposal and the approval that opened its gate.
  lemma PatchIsOfLatestProposal(states: seq<State>, ops: seq<Op>, n: nat, finding: int)
    requires Run(states, ops) && n < |ops| && Applies(states[n], ops[n], finding)
    ensures exists p: nat {:trigger ops[p]} :: p < n && Proposes(states[p], ops[p], finding)
              && Alive(ops, p, n, finding)
              && (forall k {:trigger ops[k]} :: p < k < n ==> !Proposes(states[k], ops[k], finding))
              && ops[p].fix.Found? && ops[p].fix.value.automatic
              && finding in states[n + 1].records
              && ProposalStands(states[n + 1].records[finding], ops[p], Opener(states[p], finding))
  {
    assert Step(states[n], ops[n], states[n + 1]);
    PatchLeavesProposal(states[n], ops[n], states[n + 1], finding);
    var p := LatestProposal(states, ops, n, finding);
    assert Proposes(states[p], ops[p], finding);
  }
}
