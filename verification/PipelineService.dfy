/** The pipeline's stores as the routes and services update them. */
module PipelineService {
  import opened Wrappers
  import opened Approval
  import opened Pipeline
  import ApprovalService

  class Stores {
    var findings: set<int>
    var validations: map<int, Validation>
    var proofs: map<int, ProofStatus>
    var records: map<int, Record>
    const approvals: ApprovalService.ApprovalStore
    // The calls between their gate and the recording of their result.
    ghost var jobs: map<int, Job>

    constructor ()
      ensures Valid() && fresh(approvals) && Now() == START
    {
      findings, validations, proofs, records := {}, map[], map[], map[];
      jobs := map[];
      approvals := new ApprovalService.ApprovalStore();
      new;
      StartsConsistent();
    }

    ghost function Now(): (r: State)
      reads this, approvals
    {
      State(findings, validations, proofs, approvals.Book(), records, jobs)
    }

    ghost predicate Valid()
      reads approvals
    {
      approvals.Valid()
    }

    method RegisterFinding(finding: int)
      requires Valid()
      modifies this
      ensures Valid() && Now() == Pipeline.After(old(Now()), Register(finding)).0
    {
      findings := findings + {finding};
    }

    method BeginValidation(ghost call: int, finding: int) returns (answer: Answer)
      requires Valid() && call !in jobs
      modifies this
      ensures Valid() && (Now(), answer) == Pipeline.After(old(Now()), BeginValidate(call, finding))
    {
      if finding !in findings {
        return NoFinding;
      }
      jobs := jobs[call := Validating(finding)];
      answer := Done;
    }

    method RecordValidation(ghost call: int, finding: int, result: Option<Verdict>) returns (answer: Answer)
      requires Valid() && call in jobs && jobs[call] == Validating(finding)
      modifies this
      ensures Valid() && (Now(), answer) == Pipeline.After(old(Now()), FinishValidate(call, result))
    {
      jobs := jobs - {call};
      if result.None? {
        return NoProvider;
      }
      validations := validations[finding := Validation(finding, result.value)];
      answer := Done;
    }

    method BeginProof(ghost call: int, finding: int) returns (answer: Answer)
      requires Valid() && call !in jobs
      modifies this
      ensures Valid() && (Now(), answer) == Pipeline.After(old(Now()), BeginProve(call, finding))
    {
      if finding !in findings {
        return NoFinding;
      }
      if finding !in validations {
        return NoValidation;
      }
      var validation := validations[finding];
      if validation.finding != finding {
        return OtherFinding;
      }
      if validation.verdict != TruePositive {
        return NotTruePositive;
      }
      jobs := jobs[call := Proving(finding)];
      answer := Done;
    }

    method RecordProof(ghost call: int, finding: int, outcome: ProofStatus)
      requires Valid() && call in jobs && jobs[call] == Proving(finding)
      modifies this
      ensures Valid() && (Now(), Done) == Pipeline.After(old(Now()), FinishProve(call, outcome))
    {
      jobs := jobs - {call};
      proofs := proofs[finding := outcome];
    }

    method AskApproval(ask: Approval.Ask) returns (answer: Answer)
      requires Valid() && ask.id !in approvals.requests
      modifies approvals
      ensures Valid() && (Now(), answer) == Pipeline.After(old(Now()), Pipeline.Ask(ask))
    {
      if ask.finding !in findings {
        return NoFinding;
      }
      var service := new ApprovalService.ApprovalService(approvals, DEFAULT_POLICY);
      var verdict := None;
      if ask.finding in validations {
        verdict := Some(validations[ask.finding].verdict);
      }
      var r := service.RequestApproval(verdict, Lookup(proofs, ask.finding), ask);
      answer := if r.Ok? then Done else ApprovalRefused(r.error);
    }

    method DecideApproval(d: Decision) returns (answer: Answer)
      requires Valid()
      modifies approvals
      ensures Valid() && (Now(), answer) == Pipeline.After(old(Now()), Decide(d))
    {
      var service := new ApprovalService.ApprovalService(approvals, DEFAULT_POLICY);
      var r := service.Transition(d);
      answer := if r.Ok? then Done else ApprovalRefused(r.error);
    }

    method RequireApprovedApproval(finding: int) returns (approval: Result<Request, Answer>)
      requires Valid()
      ensures var gate := ApprovalGate(Newest(Now(), finding));
              approval == if gate == Done then Ok(Newest(Now(), finding).value) else Err(gate)
    {
      var newest := approvals.FindForFinding(finding);
      if newest.None? {
        return Err(NoApproval);
      }
      if newest.value.action != Remediation {
        return Err(OtherAction);
      }
      if newest.value.status != Approved {
        return Err(NotApproved);
      }
      approval := Ok(newest.value);
    }

    method ProposeFix(finding: int, fix: Workspace<Proposal>, now: int) returns (answer: Answer)
      requires Valid()
      modifies this
      ensures Valid() && (Now(), answer) == Pipeline.After(old(Now()), Propose(finding, fix, now))
      ensures answer == Done ==>
                fix.Found? && finding in records && records[finding].proposal == Some(fix.value)
                && records[finding].status == if fix.value.automatic then Proposed else NoFixAvailable
    {
      if finding !in findings {
        return NoFinding;
      }
      var approval := RequireApprovedApproval(finding);
      if approval.Err? {
        return approval.error;
      }
      if fix.NoWorkspace? {
        return WorkspaceRefused;
      }
      if fix.Unreadable? {
        return ReadFailed;
      }
      var status := if fix.value.automatic then Proposed else NoFixAvailable;
      var record;
      if finding in records {
        record := records[finding].(approval := approval.value.id, proposal := Some(fix.value), status := status,
            error := None);
      } else {
        record := Record(approval.value.id, status, Some(fix.value), now, None, None, None, None);
      }
      records := records[finding := record];
      answer := Done;
    }

    method ApplyFix(finding: int, confirmed: bool, patch: Workspace<Patching>, now: int) returns (answer: Answer)
      requires Valid()
      modifies this
      ensures Valid() && (Now(), answer) == Pipeline.After(old(Now()), Apply(finding, confirmed, patch, now))
    {
      if finding !in findings {
        return NoFinding;
      }
      if finding !in records || records[finding].proposal.None? {
        return NoProposal;
      }
      var record := records[finding];
      if record.status == NoFixAvailable {
        return NoFix;
      }
      if record.status == Applied {
        return AlreadyApplied;
      }
      var approval := RequireApprovedApproval(finding);
      if approval.Err? {
        return approval.error;
      }
      if !confirmed {
        return NotConfirmed;
      }
      if patch.NoWorkspace? {
        return WorkspaceRefused;
      }
      if patch.Unreadable? {
        return ReadFailed;
      }
      if patch.value.Misfit? {
        records := records[finding := record.(status := Failed, error := Some(patch.value.why))];
        return PatchRefused(patch.value.why);
      }
      records := records[finding := record.(status := Applied, appliedAt := Some(now), error := None)];
      answer := Done;
    }

    method VerifyFix(finding: int, present: Workspace<bool>, now: int) returns (answer: Answer)
      requires Valid()
      modifies this
      ensures Valid() && (Now(), answer) == Pipeline.After(old(Now()), Verify(finding, present, now))
    {
      if finding !in findings {
        return NoFinding;
      }
      if finding !in records {
        return NoRecord;
      }
      var record := records[finding];
      if record.status != Applied && record.status != FixVerified && record.status != StillPresent {
        return NotApplied;
      }
      if present.NoWorkspace? {
        return WorkspaceRefused;
      }
      if present.Unreadable? {
        return ReadFailed;
      }
      var result := if present.value then StillPresent else FixVerified;
      records := records[finding := record.(status := result, verification := Some(result), verifiedAt := Some(now),
          error := None)];
      answer := Done;
    }

    method DeleteOne(finding: int)
      requires Valid()
      modifies this, approvals
      ensures Valid() && Now() == AfterDelete(old(Now()), {finding})
    {
      RemovalKeepsConsistent(approvals.Book(), {finding});
      findings := findings - {finding};
      validations := validations - {finding};
      proofs := proofs - {finding};
      approvals.RemoveFinding(finding);
      records := records - {finding};
    }

    // The cascade of a repository's deletion, finding by finding.
    method DeleteFindings(gone: set<int>)
      requires Valid()
      modifies this, approvals
      ensures Valid() && Now() == Pipeline.After(old(Now()), Delete(gone)).0
    {
      var todo := gone;
      ghost var done: set<int> := {};
      ghost var before := Now();
      DeletedNone(before);
      while todo != {}
        invariant Valid() && done + todo == gone
        invariant Now() == AfterDelete(before, done)
        decreases |todo|
      {
        var finding := Choose(todo);
        DeletedTwice(before, done, {finding});
        todo := todo - {finding};
        DeleteOne(finding);
        done := done + {finding};
      }
      assert done == gone;
    }
  }
}
