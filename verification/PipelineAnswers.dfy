/** Why a step of the pipeline is refused, in terms of what the stores hold. */
module PipelineAnswers {
  import opened Wrappers
  import Approval
  import opened Pipeline

  // A validation is stored under the finding it is of.
  ghost predicate OwnValidations(s: State)
  {
    forall f :: f in s.validations ==> s.validations[f].finding == f
  }

  lemma {:induction false} ValidationsOwn(states: seq<State>, ops: seq<Op>, n: nat)
    requires Run(states, ops) && n <= |ops|
    ensures OwnValidations(states[n])
    decreases n
  {
    if n > 0 {
      ValidationsOwn(states, ops, n - 1);
      assert Step(states[n - 1], ops[n - 1], states[n]);
    }
  }

  // In a run a proof is let in exactly for a stored finding with a true-positive verdict; a validation of another
  // finding is never the reason to refuse it.
  lemma ProofLetInIff(states: seq<State>, ops: seq<Op>, n: nat, call: int, finding: int)
    requires Run(states, ops) && n <= |ops| && Ready(states[n], BeginProve(call, finding))
    ensures var s, answer := states[n], After(states[n], BeginProve(call, finding)).1;
            && (answer == NoFinding <==> finding !in s.findings)
            && (answer == NoValidation <==> finding in s.findings && VerdictOf(s, finding) == None)
            && (answer == NotTruePositive <==>
                  finding in s.findings && VerdictOf(s, finding).Some?
                  && VerdictOf(s, finding) != Some(Approval.TruePositive))
            && (answer == Done <==> finding in s.findings && VerdictOf(s, finding) == Some(Approval.TruePositive))
  {
    ValidationsOwn(states, ops, n);
  }

  // Only a store that held a validation of another finding would be answered so.
  lemma ForeignValidation(s: State, call: int, finding: int)
    requires Ready(s, BeginProve(call, finding))
    ensures After(s, BeginProve(call, finding)).1 == OtherFinding <==>
            finding in s.findings && finding in s.validations && s.validations[finding].finding != finding
  {
  }

  lemma ValidationAnswer(s: State, call: int, finding: int, answer: Option<Approval.Verdict>)
    requires Approval.Known(s.book.requests, s.book.order)
    ensures call !in s.jobs ==>
              After(s, BeginValidate(call, finding)).1 == if finding in s.findings then Done else NoFinding
    ensures call in s.jobs && s.jobs[call] == Validating(finding) ==>
              var (after, told) := After(s, FinishValidate(call, answer));
              && told == (if answer.Some? then Done else NoProvider)
              && VerdictOf(after, finding) == (if answer.Some? then answer else VerdictOf(s, finding))
  {
  }

  // A request is answered for a stored finding if one of its kind is open, or if the verdict and the proof allow a new
  // one and the newest is not decided; the new one is then pending in the book.
  lemma RequestAnswer(s: State, ask: Approval.Ask)
    requires Approval.Indexed(s.book) && ask.id !in s.book.requests
    ensures Ready(s, Ask(ask))
    ensures var (after, answer) := After(s, Ask(ask));
            var newest := Newest(s, ask.finding);
            var made := && !Approval.HasOpen(s.book, ask.finding, ask.action) && BothHeld(s, ask.finding)
                        && (newest.None? || Approval.Open(newest.value)) && ask.at.Aware?;
            && (answer == NoFinding <==> ask.finding !in s.findings)
            && (answer == Done <==>
                  ask.finding in s.findings && (made || Approval.HasOpen(s.book, ask.finding, ask.action)))
            && (ask.finding in s.findings && made <==> ask.id in after.book.requests)
            && (ask.id in after.book.requests ==>
                  var r := after.book.requests[ask.id];
                  r.finding == ask.finding && r.action == ask.action && r.status == Approval.Pending)
  {
    Approval.RequestMadeIff(s.book, Approval.DEFAULT_POLICY, VerdictOf(s, ask.finding),
                            Lookup(s.proofs, ask.finding), ask);
  }

  lemma DecisionAnswer(s: State, d: Approval.Decision)
    requires Approval.Known(s.book.requests, s.book.order)
    ensures var (after, answer) := After(s, Decide(d));
            && (answer == Done <==>
                  d.id in s.book.requests && d.at.Aware?
                  && s.book.requests[d.id].status == (if d.status == Approval.Pending then Approval.ChangesRequested
                                                      else Approval.Pending))
            && (answer == Done ==>
                  s.book.requests[d.id].id in after.book.requests
                  && after.book.requests[s.book.requests[d.id].id].status == d.status)
  {
    Approval.DecisionAcceptedIff(s.book, d);
  }

  // The newest request of the finding, if it is for this action and has this status.
  ghost predicate NewestIs(s: State, finding: int, action: Approval.Action, status: Approval.Status)
    requires Approval.Known(s.book.requests, s.book.order)
  {
    var newest := Newest(s, finding);
    newest.Some? && newest.value.action == action && newest.value.status == status
  }

  ghost predicate NewestFor(s: State, finding: int, action: Approval.Action)
    requires Approval.Known(s.book.requests, s.book.order)
  {
    exists status :: NewestIs(s, finding, action, status)
  }

  ghost predicate Requested(s: State, finding: int)
  {
    exists id :: id in s.book.order && id in s.book.requests && s.book.requests[id].finding == finding
  }

  // What a caller is told who is not let through by the requests for approval.
  ghost predicate GateAnswers(s: State, finding: int, answer: Answer)
    requires Approval.Known(s.book.requests, s.book.order)
  {
    && (answer == NoApproval <==> !Requested(s, finding))
    && (answer == OtherAction <==> NewestFor(s, finding, Approval.Other))
    && (answer == NotApproved <==>
          NewestFor(s, finding, Approval.Remediation)
          && !NewestIs(s, finding, Approval.Remediation, Approval.Approved))
    && (answer == Done <==> NewestIs(s, finding, Approval.Remediation, Approval.Approved))
  }

  lemma GateIs(s: State, finding: int)
    requires Approval.Known(s.book.requests, s.book.order)
    ensures GateAnswers(s, finding, ApprovalGate(Newest(s, finding)))
  {
    Approval.LatestIsNewest(s.book.requests, s.book.order, finding);
    var newest := Newest(s, finding);
    if newest.Some? {
      assert NewestIs(s, finding, newest.value.action, newest.value.status);
    }
  }

  // A fix is proposed for a stored finding through that gate, and then refused only by the workspace.
  lemma ProposalAnswer(s: State, finding: int, fix: Workspace<Proposal>, now: int)
    requires Approval.Known(s.book.requests, s.book.order)
    ensures var answer := After(s, Propose(finding, fix, now)).1;
            && (answer == NoFinding <==> finding !in s.findings)
            && (finding in s.findings && !NewestIs(s, finding, Approval.Remediation, Approval.Approved) ==>
                  GateAnswers(s, finding, answer))
            && (finding in s.findings && NewestIs(s, finding, Approval.Remediation, Approval.Approved) ==>
                  answer == match fix
                            case NoWorkspace => WorkspaceRefused
                            case Unreadable => ReadFailed
                            case Found(_) => Done)
  {
    GateIs(s, finding);
  }

  // A patch needs a record with a proposal that has an automatic fix and is not applied yet, then the gate, then
  // the confirmation, then a workspace in which it fits.
  lemma PatchAnswer(s: State, finding: int, confirmed: bool, patch: Workspace<Patching>, now: int)
    requires Approval.Known(s.book.requests, s.book.order)
    ensures var answer := After(s, Apply(finding, confirmed, patch, now)).1;
            var proposed := finding in s.records && s.records[finding].proposal.Some?;
            var open := proposed && s.records[finding].status != NoFixAvailable && s.records[finding].status != Applied;
            var cleared := NewestIs(s, finding, Approval.Remediation, Approval.Approved);
            && (answer == NoFinding <==> finding !in s.findings)
            && (answer == NoProposal <==> finding in s.findings && !proposed)
            && (answer == NoFix <==> finding in s.findings && proposed && s.records[finding].status == NoFixAvailable)
            && (answer == AlreadyApplied <==> finding in s.findings && proposed && s.records[finding].status == Applied)
            && (finding in s.findings && open && !cleared ==> GateAnswers(s, finding, answer))
            && (finding in s.findings && open && cleared ==>
                  answer == if !confirmed then NotConfirmed else
                            match patch
                            case NoWorkspace => WorkspaceRefused
                            case Unreadable => ReadFailed
                            case Found(Misfit(why)) => PatchRefused(why)
                            case Found(Fits) => Done)
  {
    GateIs(s, finding);
  }

  // A fix is checked once it has been applied, whatever earlier checks said.
  lemma RecheckAnswer(s: State, finding: int, present: Workspace<bool>, now: int)
    requires Approval.Known(s.book.requests, s.book.order)
    ensures var answer := After(s, Verify(finding, present, now)).1;
            var applied := finding in s.records
                           && s.records[finding].status in {Applied, FixVerified, StillPresent};
            && (answer == NoFinding <==> finding !in s.findings)
            && (answer == NoRecord <==> finding in s.findings && finding !in s.records)
            && (answer == NotApplied <==> finding in s.findings && finding in s.records && !applied)
            && (finding in s.findings && applied ==>
                  answer == match present
                            case NoWorkspace => WorkspaceRefused
                            case Unreadable => ReadFailed
                            case Found(_) => Done)
  {
  }

  // A refusal changes nothing, except that a patch that does not fit is put on record and that a call for a
  // validation ends without one.
  lemma RefusalChangesNothing(s: State, op: Op)
    requires Ready(s, op) && After(s, op).1 != Done
    ensures var (after, answer) := After(s, op);
            && (!answer.PatchRefused? && !answer.NoProvider? ==> after == s)
            && (answer.PatchRefused? ==> op.Apply? && after.(records := s.records) == s
                                         && after.records.Keys == s.records.Keys)
            && (answer.NoProvider? ==> op.FinishValidate? && after == s.(jobs := s.jobs - {op.call}))
  {
    if op.Ask? {
      var book := Approval.AfterRequest(s.book, Approval.DEFAULT_POLICY, VerdictOf(s, op.ask.finding),
          Lookup(s.proofs, op.ask.finding), op.ask);
      assert book.1.Err? ==> book.0 == s.book;
    }
  }
}
