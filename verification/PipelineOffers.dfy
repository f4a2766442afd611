/** What a successful proposal is worth: the gate it passed stays open, and the patch it offers may be applied. */
module PipelineOffers {
  import opened Wrappers
  import Approval
  import opened Pipeline

  // An approval for remediation opens the gate of the finding.
  ghost predicate Cleared(b: Approval.Book, finding: int, id: int)
  {
    && Approval.Indexed(b) && Approval.Known(b.requests, b.order)
    && var newest := Approval.Latest(b.requests, b.order, finding);
       newest.Some? && newest.value.id == id && newest.value.status == Approval.Approved
       && newest.value.action == Approval.Remediation
  }

  lemma {:induction false} LatestKept(requests: map<int, Approval.Request>, order: seq<int>, gone: set<int>,
      finding: int)
    requires Approval.Known(requests, order) && finding !in gone
    ensures Approval.Known(requests - Approval.OfFindings(requests, gone), Approval.Others(requests, order, gone))
    ensures Approval.Latest(requests - Approval.OfFindings(requests, gone), Approval.Others(requests, order, gone),
                            finding)
            == Approval.Latest(requests, order, finding)
  {
    Approval.OthersStayKnown(requests, order, gone);
    if order != [] {
      var rest, id := order[..|order| - 1], order[|order| - 1];
      assert order == rest + [id] && id in order;
      LatestKept(requests, rest, gone, finding);
      var kept := Approval.Others(requests, order, gone);
      if requests[id].finding in gone {
        assert kept == Approval.Others(requests, rest, gone);
      } else {
        assert kept[..|kept| - 1] == Approval.Others(requests, rest, gone) && kept[|kept| - 1] == id;
      }
    }
  }

  lemma RequestKeepsCleared(b: Approval.Book, finding: int, id: int, verdict: Option<Approval.Verdict>,
      proof: Option<Approval.ProofStatus>, ask: Approval.Ask)
    requires Cleared(b, finding, id) && ask.id !in b.requests
    ensures Cleared(Approval.AfterRequest(b, Approval.DEFAULT_POLICY, verdict, proof, ask).0, finding, id)
  {
    var after := Approval.AfterRequest(b, Approval.DEFAULT_POLICY, verdict, proof, ask).0;
    Approval.RequestMade(b, Approval.DEFAULT_POLICY, verdict, proof, ask);
    Approval.RequestMadeIff(b, Approval.DEFAULT_POLICY, verdict, proof, ask);
    if after != b {
      var r := Approval.NewRequest(ask, ask.at.utc);
      assert ask.finding != finding;
      assert after.order[..|after.order| - 1] == b.order;
      Approval.LatestSkips(b.requests, b.order, finding, r);
    }
  }

  lemma DecisionKeepsCleared(b: Approval.Book, finding: int, id: int, d: Approval.Decision)
    requires Cleared(b, finding, id)
    ensures Cleared(Approval.AfterDecision(b, d).0, finding, id)
  {
    var after := Approval.AfterDecision(b, d).0;
    Approval.DecisionAcceptedIff(b, d);
    Approval.LatestIsNewest(b.requests, b.order, finding);
    if after != b {
      var updated := Approval.Decided(b.requests[d.id], d, d.at.utc);
      assert after.requests == b.requests[d.id := updated] && after.order == b.order && d.id != id;
      Approval.LatestAfterDecision(b.requests, b.order, finding, d.id, updated);
    }
  }

  lemma RemovalKeepsCleared(b: Approval.Book, finding: int, id: int, gone: set<int>)
    requires Cleared(b, finding, id) && finding !in gone
    ensures Cleared(Approval.Removed(b, gone), finding, id)
  {
    LatestKept(b.requests, b.order, gone, finding);
    Approval.OthersKept(b.requests, b.order, gone);
    assert Approval.Indexed(Approval.Removed(b, gone));
  }

  // A step that neither works on the finding's fix nor deletes the finding.
  predicate Elsewhere(op: Op, finding: int)
  {
    match op
    case Propose(f, _, _) => f != finding
    case Apply(f, _, _, _) => f != finding
    case Verify(f, _, _) => f != finding
    case Delete(gone) => finding !in gone
    case _ => true
  }

  lemma ElsewhereKeepsRecord(s: State, op: Op, after: State, finding: int)
    requires Step(s, op, after) && Elsewhere(op, finding)
    ensures Lookup(after.records, finding) == Lookup(s.records, finding)
    ensures finding in s.findings ==> finding in after.findings
  {
  }

  lemma ElsewhereKeepsCleared(s: State, op: Op, after: State, finding: int, id: int)
    requires Step(s, op, after) && Elsewhere(op, finding) && Cleared(s.book, finding, id)
    ensures Cleared(after.book, finding, id)
  {
    match op
    case Ask(ask) =>
      RequestKeepsCleared(s.book, finding, id, VerdictOf(s, ask.finding), Lookup(s.proofs, ask.finding), ask);
    case Decide(d) => DecisionKeepsCleared(s.book, finding, id, d);
    case Delete(gone) => RemovalKeepsCleared(s.book, finding, id, gone);
    case _ =>
  }

  ghost predicate AllElsewhere(ops: seq<Op>, from: nat, to: nat, finding: int)
    requires to <= |ops|
  {
    forall k :: from <= k < to ==> Elsewhere(ops[k], finding)
  }

  // Once open, the gate stays open and the record as it is, whatever happens to other findings and to the requests.
  lemma {:induction false} StaysCleared(states: seq<State>, ops: seq<Op>, i: nat, n: nat, finding: int, id: int)
    requires Run(states, ops) && i <= n <= |ops| && AllElsewhere(ops, i, n, finding)
    requires Cleared(states[i].book, finding, id) && finding in states[i].findings
    ensures Cleared(states[n].book, finding, id) && finding in states[n].findings
    ensures Lookup(states[n].records, finding) == Lookup(states[i].records, finding)
    decreases n
  {
    if i < n {
      StaysCleared(states, ops, i, n - 1, finding, id);
      assert Step(states[n - 1], ops[n - 1], states[n]);
      ElsewhereKeepsRecord(states[n - 1], ops[n - 1], states[n], finding);
      ElsewhereKeepsCleared(states[n - 1], ops[n - 1], states[n], finding, id);
    }
  }

  lemma ProposalLeaves(s: State, op: Op, after: State, finding: int)
    requires Approval.Indexed(s.book) && Step(s, op, after) && Proposes(s, op, finding)
    ensures op.fix.Found? && finding in after.findings && finding in after.records && after.book == s.book
    ensures Cleared(s.book, finding, after.records[finding].approval)
    ensures after.records[finding].status == if op.fix.value.automatic then Proposed else NoFixAvailable
    ensures after.records[finding].proposal == Some(op.fix.value)
  {
  }

  // After a successful proposal and any steps elsewhere a confirmed patch that fits is applied exactly if the
  // proposal offers an automatic fix, and is refused as without one otherwise.
  lemma NextPatchIff(states: seq<State>, ops: seq<Op>, i: nat, n: nat, finding: int, now: int)
    requires Run(states, ops) && i < n <= |ops| && Proposes(states[i], ops[i], finding)
    requires AllElsewhere(ops, i + 1, n, finding)
    ensures ops[i].fix.Found?
    ensures Applies(states[n], Apply(finding, true, Found(Fits), now), finding) <==> ops[i].fix.value.automatic
    ensures !ops[i].fix.value.automatic ==>
              forall confirmed, patch: Workspace<Patching> {:trigger Apply(finding, confirmed, patch, now)} ::
                var op := Apply(finding, confirmed, patch, now);
                Ready(states[n], op) && After(states[n], op) == (states[n], NoFix)
  {
    RunKeepsBook(states, ops, i);
    assert Step(states[i], ops[i], states[i + 1]);
    ProposalLeaves(states[i], ops[i], states[i + 1], finding);
    StaysCleared(states, ops, i + 1, n, finding, states[i + 1].records[finding].approval);
  }
}
