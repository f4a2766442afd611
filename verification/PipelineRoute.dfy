/** One way through the whole pipeline: every gate can be passed, for any finding and any patch. */
module PipelineRoute {
  import opened Wrappers
  import Approval
  import opened Pipeline

  // A run that has proven its one finding.
  lemma ProvenRun(finding: int) returns (states: seq<State>, ops: seq<Op>)
    ensures Run(states, ops)
    ensures states[|ops|] == State({finding}, map[finding := Validation(finding, Approval.TruePositive)],
                                   map[finding := Approval.Verified], Approval.EMPTY, map[], map[])
  {
    states, ops := AdmittedRun(finding);
    states, ops := Extend(states, ops, FinishProve(1, Approval.Verified));
    assert states[|ops|].jobs == map[];
  }

  function Asked(finding: int, at: int): (ask: Approval.Ask)
  {
    Approval.Ask(1, finding, Approval.Remediation, 0, Approval.Aware(at), None)
  }

  function Granted(at: int): (d: Approval.Decision)
  {
    Approval.Decision(1, Approval.Approved, 0, None, Approval.Aware(at))
  }

  // The book after one request and its approval.
  lemma ApprovedBook(finding: int, at: int)
    ensures Approval.Known(Approval.EMPTY.requests, Approval.EMPTY.order)
    ensures var (asked, answer) := Approval.AfterRequest(Approval.EMPTY, Approval.DEFAULT_POLICY,
                Some(Approval.TruePositive), Some(Approval.Verified), Asked(finding, at));
            var (granted, told) := Approval.AfterDecision(asked, Granted(at));
            && answer.Ok? && told.Ok? && Approval.Indexed(asked) && Approval.Indexed(granted)
            && Approval.Known(granted.requests, granted.order)
            && ApprovalGate(Approval.Latest(granted.requests, granted.order, finding)) == Done
  {
    var ask, d := Asked(finding, at), Granted(at);
    Approval.Admitted(Approval.EMPTY, ask);
    var asked := Approval.AfterRequest(Approval.EMPTY, Approval.DEFAULT_POLICY, Some(Approval.TruePositive),
        Some(Approval.Verified), ask).0;
    var r := Approval.NewRequest(ask, at);
    assert asked.requests == map[1 := r];
    var granted := Approval.AfterDecision(asked, d).0;
    assert granted.requests == asked.requests[1 := Approval.Decided(r, d, at)] && granted.order == asked.order;
    Approval.LatestAfterDecision(asked.requests, asked.order, finding, 1, Approval.Decided(r, d, at));
  }

  // The finding may be worked on: its newest request is an approved one for remediation.
  ghost predicate Cleared(s: State, finding: int)
  {
    && finding in s.findings && Approval.Known(s.book.requests, s.book.order)
    && ApprovalGate(Newest(s, finding)) == Done
  }

  lemma ApprovedRun(finding: int, at: int) returns (states: seq<State>, ops: seq<Op>)
    ensures Run(states, ops) && Cleared(states[|ops|], finding) && states[|ops|].records == map[]
  {
    states, ops := ProvenRun(finding);
    ApprovedBook(finding, at);
    states, ops := Extend(states, ops, Ask(Asked(finding, at)));
    states, ops := Extend(states, ops, Decide(Granted(at)));
  }

  lemma PatchedRun(finding: int, patch: int, at: int) returns (states: seq<State>, ops: seq<Op>)
    ensures Run(states, ops) && Cleared(states[|ops|], finding) && finding in states[|ops|].records
    ensures states[|ops|].records[finding].status == Applied
    ensures states[|ops|].records[finding].proposal == Some(Proposal(true, patch))
  {
    states, ops := ApprovedRun(finding, at);
    states, ops := Extend(states, ops, Propose(finding, Found(Proposal(true, patch)), at));
    states, ops := Extend(states, ops, Apply(finding, true, Found(Fits), at));
  }

  // From the empty stores a finding can be validated, proven, approved, patched and found fixed.
  lemma FixReachable(finding: int, patch: int, at: int)
    ensures exists states: seq<State>, ops: seq<Op> ::
              && Run(states, ops) && finding in states[|ops|].records
              && states[|ops|].records[finding].status == FixVerified
              && states[|ops|].records[finding].proposal == Some(Proposal(true, patch))
  {
    var states, ops := PatchedRun(finding, patch, at);
    states, ops := Extend(states, ops, Verify(finding, Found(false), at));
  }
}
