/**
 The way of one finding from scan to applied patch: validation, proof, approval and remediation keep
 separate stores, and each step looks only at the stores before it. A state holds all of them. The
 theorems are about whole runs of the steps. A validation and a proof take two steps each, as the language
 model or the sandbox works between the gate and the recording of its result, with anything in between. The
 deletion of a repository is one step.
 */
module Pipeline {
  import opened Wrappers
  import opened Approval

  datatype RemediationStatus = Proposed | NoFixAvailable | Applied | FixVerified | StillPresent | Failed

  datatype Validation = Validation(finding: int, verdict: Verdict)

  // Whether a fix could be generated, and the patch itself.
  datatype Proposal = Proposal(automatic: bool, patch: int)

  datatype Record = Record(approval: int, status: RemediationStatus, proposal: Option<Proposal>, createdAt: int,
                           appliedAt: Option<int>, verifiedAt: Option<int>,
                           verification: Option<RemediationStatus>, error: Option<int>)

  // A call past its gate whose result is still to be recorded.
  datatype Job = Validating(finding: int) | Proving(finding: int)

  datatype State = State(findings: set<int>, validations: map<int, Validation>, proofs: map<int, ProofStatus>,
                         book: Book, records: map<int, Record>, jobs: map<int, Job>)

  const START := State({}, map[], map[], EMPTY, map[], map[])

  // What the workspace yields: no single owning project or a path outside of it, a file that cannot be
  // read, or the outcome of the work on it.
  datatype Workspace<T> = NoWorkspace | Unreadable | Found(value: T)

  datatype Patching = Fits | Misfit(why: int)

  datatype Op =
    | Register(finding: int)
    | BeginValidate(call: int, finding: int)
    | FinishValidate(call: int, answer: Option<Verdict>)
    | BeginProve(call: int, finding: int)
    | FinishProve(call: int, outcome: ProofStatus)
    | Ask(ask: Approval.Ask)
    | Decide(decision: Decision)
    | Propose(finding: int, fix: Workspace<Proposal>, now: int)
    | Apply(finding: int, confirmed: bool, patch: Workspace<Patching>, now: int)
    | Verify(finding: int, present: Workspace<bool>, now: int)
    | Delete(gone: set<int>)

  datatype Answer =
    | Done
    | NoFinding | NoProvider | NoValidation | OtherFinding | NotTruePositive | ApprovalRefused(why: Refusal)
    | NoApproval | OtherAction | NotApproved | WorkspaceRefused | ReadFailed
    | NoProposal | NoFix | AlreadyApplied | NotConfirmed | PatchRefused(reason: int) | NoRecord | NotApplied

  function Lookup<V>(m: map<int, V>, k: int): (r: Option<V>)
  {
    if k in m then Some(m[k]) else None
  }

  function VerdictOf(s: State, finding: int): (r: Option<Verdict>)
  {
    if finding in s.validations then Some(s.validations[finding].verdict) else None
  }

  // ---------------------------------------------------------------- the gates

  // Only a finding whose own validation says true positive may be proven.
  function ProofGate(finding: int, validation: Option<Validation>): (r: Answer)
  {
    if validation.None? then NoValidation
    else if validation.value.finding != finding then OtherFinding
    else if validation.value.verdict != TruePositive then NotTruePositive
    else Done
  }

  // The newest approval request of the finding must be for remediation and approved.
  function ApprovalGate(newest: Option<Request>): (r: Answer)
  {
    if newest.None? then NoApproval
    else if newest.value.action != Remediation then OtherAction
    else if newest.value.status != Approved then NotApproved
    else Done
  }

  function RecordGate(record: Option<Record>): (r: Answer)
  {
    if record.None? || record.value.proposal.None? then NoProposal
    else if record.value.status == NoFixAvailable then NoFix
    else if record.value.status == Applied then AlreadyApplied
    else Done
  }

  function Newest(s: State, finding: int): (r: Option<Request>)
    requires Known(s.book.requests, s.book.order)
  {
    Latest(s.book.requests, s.book.order, finding)
  }

  // ---------------------------------------------------------------- the steps

  function Offered(record: Option<Record>, approval: int, fix: Proposal, now: int): (r: Record)
  {
    var status := if fix.automatic then Proposed else NoFixAvailable;
    match record
    case None => Record(approval, status, Some(fix), now, None, None, None, None)
    case Some(r) => r.(approval := approval, proposal := Some(fix), status := status, error := None)
  }

  // Ids of calls under way and of requests are new, and only a call under way finishes.
  ghost predicate Ready(s: State, op: Op)
  {
    && Known(s.book.requests, s.book.order)
    && match op
       case BeginValidate(k, f) => k !in s.jobs
       case FinishValidate(k, answer) => k in s.jobs && s.jobs[k].Validating?
       case BeginProve(k, f) => k !in s.jobs
       case FinishProve(k, outcome) => k in s.jobs && s.jobs[k].Proving?
       case Ask(ask) => ask.id !in s.book.requests
       case _ => true
  }

  function AfterFinishValidate(s: State, k: int, finding: int, answer: Option<Verdict>): (result: (State, Answer))
  {
    var next := s.(jobs := s.jobs - {k});
    if answer.None? then (next, NoProvider)
    else (next.(validations := s.validations[finding := Validation(finding, answer.value)]), Done)
  }

  function AfterBeginProve(s: State, k: int, finding: int): (result: (State, Answer))
  {
    var gate := ProofGate(finding, Lookup(s.validations, finding));
    if finding !in s.findings then (s, NoFinding)
    else if gate != Done then (s, gate)
    else (s.(jobs := s.jobs[k := Proving(finding)]), Done)
  }

  function AfterAsk(s: State, ask: Approval.Ask): (r: (State, Answer))
    requires Known(s.book.requests, s.book.order)
  {
    if ask.finding !in s.findings then (s, NoFinding)
    else
      var (book, answer) := AfterRequest(s.book, DEFAULT_POLICY, VerdictOf(s, ask.finding),
          Lookup(s.proofs, ask.finding), ask);
      (s.(book := book), if answer.Ok? then Done else ApprovalRefused(answer.error))
  }

  function AfterDecide(s: State, d: Decision): (r: (State, Answer))
  {
    var (book, answer) := AfterDecision(s.book, d);
    (s.(book := book), if answer.Ok? then Done else ApprovalRefused(answer.error))
  }

  function AfterPropose(s: State, finding: int, fix: Workspace<Proposal>, now: int): (r: (State, Answer))
    requires Known(s.book.requests, s.book.order)
  {
    var gate := ApprovalGate(Newest(s, finding));
    if finding !in s.findings then (s, NoFinding)
    else if gate != Done then (s, gate)
    else if fix.NoWorkspace? then (s, WorkspaceRefused)
    else if fix.Unreadable? then (s, ReadFailed)
    else
      var r := Offered(Lookup(s.records, finding), Newest(s, finding).value.id, fix.value, now);
      (s.(records := s.records[finding := r]), Done)
  }

  function AfterApply(s: State, finding: int, confirmed: bool, patch: Workspace<Patching>,
      now: int): (r: (State, Answer))
    requires Known(s.book.requests, s.book.order)
  {
    var record := Lookup(s.records, finding);
    var gate := ApprovalGate(Newest(s, finding));
    if finding !in s.findings then (s, NoFinding)
    else if RecordGate(record) != Done then (s, RecordGate(record))
    else if gate != Done then (s, gate)
    else if !confirmed then (s, NotConfirmed)
    else if patch.NoWorkspace? then (s, WorkspaceRefused)
    else if patch.Unreadable? then (s, ReadFailed)
    else
      match patch.value
      case Misfit(why) =>
        (s.(records := s.records[finding := record.value.(status := Failed, error := Some(why))]), PatchRefused(why))
      case Fits =>
        var r := record.value.(status := Applied, appliedAt := Some(now), error := None);
        (s.(records := s.records[finding := r]), Done)
  }

  predicate Checkable(status: RemediationStatus)
  {
    status == Applied || status == FixVerified || status == StillPresent
  }

  function AfterVerify(s: State, finding: int, present: Workspace<bool>, now: int): (r: (State, Answer))
  {
    if finding !in s.findings then (s, NoFinding)
    else if finding !in s.records then (s, NoRecord)
    else if !Checkable(s.records[finding].status) then (s, NotApplied)
    else if present.NoWorkspace? then (s, WorkspaceRefused)
    else if present.Unreadable? then (s, ReadFailed)
    else
      var result := if present.value then StillPresent else FixVerified;
      var r := s.records[finding].(status := result, verification := Some(result), verifiedAt := Some(now),
          error := None);
      (s.(records := s.records[finding := r]), Done)
  }

  // Every pipeline record of the findings goes.
  function AfterDelete(s: State, gone: set<int>): (r: State)
    requires Known(s.book.requests, s.book.order)
  {
    State(s.findings - gone, s.validations - gone, s.proofs - gone, Removed(s.book, gone), s.records - gone, s.jobs)
  }

  function After(s: State, op: Op): (r: (State, Answer))
    requires Ready(s, op)
  {
    match op
    case Register(f) => (s.(findings := s.findings + {f}), Done)
    case BeginValidate(k, f) =>
      if f !in s.findings then (s, NoFinding) else (s.(jobs := s.jobs[k := Validating(f)]), Done)
    case FinishValidate(k, answer) => AfterFinishValidate(s, k, s.jobs[k].finding, answer)
    case BeginProve(k, f) => AfterBeginProve(s, k, f)
    case FinishProve(k, outcome) =>
      (s.(jobs := s.jobs - {k}, proofs := s.proofs[s.jobs[k].finding := outcome]), Done)
    case Ask(ask) => AfterAsk(s, ask)
    case Decide(d) => AfterDecide(s, d)
    case Propose(f, fix, now) => AfterPropose(s, f, fix, now)
    case Apply(f, confirmed, patch, now) => AfterApply(s, f, confirmed, patch, now)
    case Verify(f, present, now) => AfterVerify(s, f, present, now)
    case Delete(gone) => (AfterDelete(s, gone), Done)
  }

  // Deleting findings one after another deletes them together.
  lemma DeletedTwice(s: State, one: set<int>, two: set<int>)
    requires Indexed(s.book)
    ensures Known(s.book.requests, s.book.order) && Indexed(Removed(s.book, one))
    ensures AfterDelete(AfterDelete(s, one), two) == AfterDelete(s, one + two)
  {
    RemovedTwice(s.book, one, two);
    var once, both := AfterDelete(s, one), AfterDelete(s, one + two);
    assert once.findings - two == both.findings;
    assert once.validations - two == both.validations;
    assert once.proofs - two == both.proofs;
    assert once.records - two == both.records;
  }

  lemma DeletedNone(s: State)
    requires Indexed(s.book)
    ensures Known(s.book.requests, s.book.order) && AfterDelete(s, {}) == s
  {
    RemovedNone(s.book);
    assert s.findings - {} == s.findings && s.validations - {} == s.validations;
    assert s.proofs - {} == s.proofs && s.records - {} == s.records;
  }

  // ---------------------------------------------------------------- runs

  ghost predicate Step(s: State, op: Op, after: State)
  {
    Ready(s, op) && after == After(s, op).0
  }

  ghost predicate Run(states: seq<State>, ops: seq<Op>)
  {
    |states| == |ops| + 1 && states[0] == START && forall i {:trigger ops[i]} :: 0 <= i < |ops| ==>
        Step(states[i], ops[i], states[i + 1])
  }

  lemma StepKeepsBook(s: State, op: Op, after: State)
    requires Consistent(s.book) && Step(s, op, after)
    ensures Consistent(after.book)
  {
    match op
    case Ask(ask) =>
      RequestKeepsConsistent(s.book, DEFAULT_POLICY, VerdictOf(s, ask.finding), Lookup(s.proofs, ask.finding), ask);
    case Decide(d) => DecisionKeepsConsistent(s.book, d);
    case Delete(gone) => RemovalKeepsConsistent(s.book, gone);
    case _ =>
  }

  lemma {:induction false} RunKeepsBook(states: seq<State>, ops: seq<Op>, n: nat)
    requires Run(states, ops) && n <= |ops|
    ensures Consistent(states[n].book)
  {
    if n == 0 {
      StartsConsistent();
    } else {
      RunKeepsBook(states, ops, n - 1);
      StepKeepsBook(states[n - 1], ops[n - 1], states[n]);
    }
  }

  // ---------------------------------------------------------------- what one step achieves

  ghost predicate Succeeds(s: State, op: Op)
  {
    Ready(s, op) && After(s, op).1 == Done
  }

  // A true-positive verdict is recorded.
  ghost predicate Validates(s: State, op: Op, finding: int)
  {
    op.FinishValidate? && op.answer == Some(TruePositive) && Succeeds(s, op) && s.jobs[op.call] == Validating(finding)
  }

  // A proof passes its gate.
  ghost predicate Admits(s: State, op: Op, finding: int, call: int)
  {
    op == BeginProve(call, finding) && Succeeds(s, op) && VerdictOf(s, finding) == Some(TruePositive)
  }

  // A verified proof is recorded.
  ghost predicate Proves(s: State, op: Op, finding: int)
  {
    op.FinishProve? && op.outcome == Verified && Succeeds(s, op) && s.jobs[op.call] == Proving(finding)
  }

  ghost predicate BothHeld(s: State, finding: int)
  {
    VerdictOf(s, finding) == Some(TruePositive) && Lookup(s.proofs, finding) == Some(Verified)
  }

  // A request that is new, made while the verdict and the proof are both on record.
  ghost predicate Requests(s: State, op: Op, finding: int, action: Action, id: int)
  {
    && op.Ask? && op.ask.id == id && op.ask.finding == finding && op.ask.action == action
    && Succeeds(s, op) && id !in s.book.requests && BothHeld(s, finding)
  }

  // A decision approves a request that it finds pending.
  ghost predicate Approves(s: State, op: Op, id: int)
  {
    && op.Decide? && op.decision.id == id && op.decision.status == Approved && Succeeds(s, op)
    && id in s.book.requests && s.book.requests[id].status == Pending
  }

  ghost predicate Proposes(s: State, op: Op, finding: int)
  {
    op.Propose? && op.finding == finding && Succeeds(s, op)
  }

  ghost predicate Applies(s: State, op: Op, finding: int)
  {
    op.Apply? && op.finding == finding && Succeeds(s, op)
  }

  ghost predicate Rechecks(s: State, op: Op, finding: int)
  {
    op.Verify? && op.finding == finding && Succeeds(s, op)
  }

  ghost predicate Deletes(op: Op, finding: int)
  {
    op.Delete? && finding in op.gone
  }

  // What may follow on an applied patch before the next one.
  ghost predicate Reopens(s: State, op: Op, finding: int)
  {
    Proposes(s, op, finding) || Rechecks(s, op, finding) || Deletes(op, finding)
  }

  lemma VerdictStep(s: State, op: Op, after: State, finding: int)
    requires Step(s, op, after) && VerdictOf(after, finding) == Some(TruePositive)
    ensures Validates(s, op, finding) || VerdictOf(s, finding) == Some(TruePositive)
    ensures !Deletes(op, finding)
  {
  }

  lemma ProofStep(s: State, op: Op, after: State, finding: int)
    requires Step(s, op, after) && Lookup(after.proofs, finding) == Some(Verified)
    ensures Proves(s, op, finding) || Lookup(s.proofs, finding) == Some(Verified)
    ensures !Deletes(op, finding)
  {
  }

  lemma JobStep(s: State, op: Op, after: State, k: int)
    requires Step(s, op, after) && k in after.jobs && after.jobs[k].Proving?
    ensures Admits(s, op, after.jobs[k].finding, k) || (k in s.jobs && s.jobs[k] == after.jobs[k])
  {
  }

  // A request held after a step was asked for by it, with verdict and proof on record, or held before.
  lemma RequestStep(s: State, op: Op, after: State, id: int)
    requires Indexed(s.book) && Step(s, op, after) && id in after.book.requests
    ensures var r := after.book.requests[id];
            && !Deletes(op, r.finding)
            && (Requests(s, op, r.finding, r.action, id)
                || (id in s.book.requests && s.book.requests[id].finding == r.finding
                    && s.book.requests[id].action == r.action))
  {
  }

  lemma ApprovalStep(s: State, op: Op, after: State, id: int)
    requires Indexed(s.book) && Step(s, op, after) && id in after.book.requests
    requires after.book.requests[id].status == Approved
    ensures id in s.book.requests && (Approves(s, op, id) || s.book.requests[id].status == Approved)
  {
    if op.Decide? {
      DecisionAcceptedIff(s.book, op.decision);
    }
  }

  predicate Remediates(op: Op)
  {
    op.Propose? || op.Apply? || op.Verify? || op.Delete?
  }

  lemma OthersKeepRecords(s: State, op: Op, after: State)
    requires Step(s, op, after) && !Remediates(op)
    ensures after.records == s.records
  {
  }

  lemma RecordStep(s: State, op: Op, after: State, finding: int)
    requires Step(s, op, after) && finding in after.records
    ensures Proposes(s, op, finding) || finding in s.records
    ensures !Deletes(op, finding)
  {
  }

  // What one remediation step makes of a record.
  lemma ProposeEffect(s: State, op: Op, after: State, finding: int)
    requires Step(s, op, after) && op.Propose?
    ensures if Proposes(s, op, finding) then finding in after.records && !Checkable(after.records[finding].status)
            else Lookup(after.records, finding) == Lookup(s.records, finding)
  {
  }

  lemma ApplyEffect(s: State, op: Op, after: State, finding: int)
    requires Step(s, op, after) && op.Apply? && finding in after.records
    ensures Applies(s, op, finding) ==> after.records[finding].status == Applied
    ensures !Applies(s, op, finding) ==>
              finding in s.records
              && (after.records[finding] == s.records[finding] || after.records[finding].status == Failed)
  {
  }

  lemma VerifyEffect(s: State, op: Op, after: State, finding: int)
    requires Step(s, op, after) && op.Verify? && finding in after.records
    ensures finding in s.records
    ensures if Rechecks(s, op, finding)
            then op.present.Found? && Checkable(s.records[finding].status)
                 && after.records[finding].status == (if op.present.value then StillPresent else FixVerified)
            else after.records[finding] == s.records[finding]
  {
  }

  lemma CheckedStep(s: State, op: Op, after: State, finding: int)
    requires Step(s, op, after) && finding in after.records && Checkable(after.records[finding].status)
    ensures Applies(s, op, finding) || (finding in s.records && Checkable(s.records[finding].status))
    ensures !Proposes(s, op, finding)
  {
    if op.Propose? {
      ProposeEffect(s, op, after, finding);
    } else if op.Apply? {
      ApplyEffect(s, op, after, finding);
    } else if op.Verify? {
      VerifyEffect(s, op, after, finding);
    } else if !op.Delete? {
      OthersKeepRecords(s, op, after);
    }
  }

  lemma AppliedStep(s: State, op: Op, after: State, finding: int)
    requires Step(s, op, after)
    requires finding in s.records && s.records[finding].status == Applied && !Reopens(s, op, finding)
    ensures finding in after.records && after.records[finding].status == Applied
  {
  }

  lemma AppliedRefuses(s: State, op: Op, finding: int)
    requires finding in s.records && s.records[finding].status == Applied
    ensures !Applies(s, op, finding)
  {
  }

  lemma AppliesLeavesApplied(s: State, op: Op, after: State, finding: int)
    requires Step(s, op, after) && Applies(s, op, finding)
    ensures op.confirmed && ApprovalGate(Newest(s, finding)) == Done && finding in s.records
    ensures finding in after.records && after.records[finding].status == Applied
  {
  }

  // ---------------------------------------------------------------- where each record comes from

  ghost predicate Alive(ops: seq<Op>, from: nat, to: nat, finding: int)
    requires to <= |ops|
  {
    forall k :: from <= k < to ==> !Deletes(ops[k], finding)
  }

  lemma {:induction false} VerdictOrigin(states: seq<State>, ops: seq<Op>, n: nat, finding: int) returns (v: nat)
    requires Run(states, ops) && n <= |ops| && VerdictOf(states[n], finding) == Some(TruePositive)
    ensures v < n && Validates(states[v], ops[v], finding) && Alive(ops, v, n, finding)
  {
    assert n > 0;
    VerdictStep(states[n - 1], ops[n - 1], states[n], finding);
    if Validates(states[n - 1], ops[n - 1], finding) {
      v := n - 1;
    } else {
      v := VerdictOrigin(states, ops, n - 1, finding);
    }
  }

  // The same call has been under way since it passed its gate.
  ghost predicate UnderWay(states: seq<State>, g: nat, n: nat, call: int)
    requires n < |states| && call in states[n].jobs
  {
    forall i {:trigger states[i]} :: g < i <= n ==>
        call in states[i].jobs && states[i].jobs[call] == states[n].jobs[call]
  }

  lemma {:induction false} JobOrigin(states: seq<State>, ops: seq<Op>, n: nat, k: int) returns (g: nat)
    requires Run(states, ops) && n <= |ops| && k in states[n].jobs && states[n].jobs[k].Proving?
    ensures g < n && Admits(states[g], ops[g], states[n].jobs[k].finding, k) && UnderWay(states, g, n, k)
  {
    assert n > 0;
    JobStep(states[n - 1], ops[n - 1], states[n], k);
    if Admits(states[n - 1], ops[n - 1], states[n].jobs[k].finding, k) {
      g := n - 1;
    } else {
      g := JobOrigin(states, ops, n - 1, k);
    }
  }

  // The gate was passed before the proof was recorded, but maybe before a deletion.
  lemma {:induction false} ProofOrigin(states: seq<State>, ops: seq<Op>, n: nat, finding: int) returns (g: nat, p: nat)
    requires Run(states, ops) && n <= |ops| && Lookup(states[n].proofs, finding) == Some(Verified)
    ensures g < p < n && Proves(states[p], ops[p], finding) && Alive(ops, p, n, finding)
    ensures Admits(states[g], ops[g], finding, ops[p].call) && UnderWay(states, g, p, ops[p].call)
  {
    assert n > 0;
    ProofStep(states[n - 1], ops[n - 1], states[n], finding);
    if Proves(states[n - 1], ops[n - 1], finding) {
      p := n - 1;
      g := JobOrigin(states, ops, p, ops[p].call);
    } else {
      g, p := ProofOrigin(states, ops, n - 1, finding);
    }
  }

  lemma {:induction false} RequestOrigin(states: seq<State>, ops: seq<Op>, n: nat, id: int) returns (q: nat)
    requires Run(states, ops) && n <= |ops| && id in states[n].book.requests
    ensures var r := states[n].book.requests[id];
            q < n && Requests(states[q], ops[q], r.finding, r.action, id) && Alive(ops, q, n, r.finding)
  {
    assert n > 0;
    RunKeepsBook(states, ops, n - 1);
    RequestStep(states[n - 1], ops[n - 1], states[n], id);
    var r := states[n].book.requests[id];
    if Requests(states[n - 1], ops[n - 1], r.finding, r.action, id) {
      q := n - 1;
    } else {
      q := RequestOrigin(states, ops, n - 1, id);
    }
  }

  lemma {:induction false} ApprovalOrigin(states: seq<State>, ops: seq<Op>, n: nat, id: int) returns (a: nat)
    requires Run(states, ops) && n <= |ops| && id in states[n].book.requests
    requires states[n].book.requests[id].status == Approved
    ensures a < n && Approves(states[a], ops[a], id) && id in states[a].book.requests
    ensures var r := states[n].book.requests[id];
            && states[a].book.requests[id].finding == r.finding && states[a].book.requests[id].action == r.action
            && Alive(ops, a, n, r.finding)
  {
    assert n > 0;
    RunKeepsBook(states, ops, n - 1);
    RequestStep(states[n - 1], ops[n - 1], states[n], id);
    ApprovalStep(states[n - 1], ops[n - 1], states[n], id);
    if Approves(states[n - 1], ops[n - 1], id) {
      a := n - 1;
    } else {
      a := ApprovalOrigin(states, ops, n - 1, id);
    }
  }

  lemma {:induction false} RecordOrigin(states: seq<State>, ops: seq<Op>, n: nat, finding: int) returns (m: nat)
    requires Run(states, ops) && n <= |ops| && finding in states[n].records
    ensures m < n && Proposes(states[m], ops[m], finding) && Alive(ops, m, n, finding)
  {
    assert n > 0;
    RecordStep(states[n - 1], ops[n - 1], states[n], finding);
    if Proposes(states[n - 1], ops[n - 1], finding) {
      m := n - 1;
    } else {
      m := RecordOrigin(states, ops, n - 1, finding);
    }
  }

  // ---------------------------------------------------------------- the gate order

  // The steps that cleared a finding, by their place in the run; judged is the verdict the proof was let in
  // with, validated the one the request was made with.
  datatype Clearance = Clearance(judged: nat, admitted: nat, proven: nat, validated: nat, requested: nat,
                                 approved: nat, id: int)

  // Validated and let in for a proof, then proven, then asked for while a verdict and the proof both held,
  // then approved. No deletion came after the verdict, the proof or what follows them.
  ghost predicate Clears(states: seq<State>, ops: seq<Op>, n: nat, finding: int, c: Clearance)
    requires |states| == |ops| + 1 && n <= |ops|
  {
    && c.judged < c.admitted < c.proven < c.requested < c.approved < n && c.validated < c.requested
    && Validates(states[c.judged], ops[c.judged], finding) && Alive(ops, c.judged, c.admitted, finding)
    && Proves(states[c.proven], ops[c.proven], finding)
    && Admits(states[c.admitted], ops[c.admitted], finding, ops[c.proven].call)
    && Validates(states[c.validated], ops[c.validated], finding)
    && Requests(states[c.requested], ops[c.requested], finding, Remediation, c.id)
    && Approves(states[c.approved], ops[c.approved], c.id)
    && Alive(ops, c.proven, n, finding) && Alive(ops, c.validated, n, finding)
  }

  lemma ApprovedMeansCleared(states: seq<State>, ops: seq<Op>, n: nat, finding: int) returns (c: Clearance)
    requires Run(states, ops) && n <= |ops| && Known(states[n].book.requests, states[n].book.order)
    requires ApprovalGate(Newest(states[n], finding)) == Done
    ensures Clears(states, ops, n, finding, c)
  {
    RunKeepsBook(states, ops, n);
    LatestIsNewest(states[n].book.requests, states[n].book.order, finding);
    var id := Newest(states[n], finding).value.id;
    var a := ApprovalOrigin(states, ops, n, id);
    var q := RequestOrigin(states, ops, a, id);
    var g, p := ProofOrigin(states, ops, q, finding);
    var j := VerdictOrigin(states, ops, g, finding);
    var v := VerdictOrigin(states, ops, q, finding);
    c := Clearance(j, g, p, v, q, a, id);
  }

  // Every patch that reaches the source was confirmed, and the finding had by then been validated,
  // proven, asked for and approved, in this order; since its last deletion, if none fell into the proof.
  lemma GateOrder(states: seq<State>, ops: seq<Op>, n: nat, finding: int)
    requires Run(states, ops) && n < |ops| && Applies(states[n], ops[n], finding)
    ensures ops[n].confirmed
    ensures exists c :: Clears(states, ops, n, finding, c)
                        && (Alive(ops, c.admitted, c.proven, finding) ==> Alive(ops, c.judged, n, finding))
  {
    AppliesLeavesApplied(states[n], ops[n], states[n + 1], finding);
    var c := ApprovedMeansCleared(states, ops, n, finding);
  }

  // The proposal it applies was made before, since the last deletion, and only once so cleared itself.
  lemma ProposalOrder(states: seq<State>, ops: seq<Op>, n: nat, finding: int)
    requires Run(states, ops) && n < |ops| && Applies(states[n], ops[n], finding)
    ensures exists m: nat, c :: m < n && Proposes(states[m], ops[m], finding) && Alive(ops, m, n, finding)
                                && Clears(states, ops, m, finding, c)
  {
    AppliesLeavesApplied(states[n], ops[n], states[n + 1], finding);
    var m := RecordOrigin(states, ops, n, finding);
    var c := ApprovedMeansCleared(states, ops, m, finding);
    assert Clears(states, ops, m, finding, c);
  }

  // One more step at the end of a run.
  lemma Extend(states: seq<State>, ops: seq<Op>, op: Op) returns (longer: seq<State>, more: seq<Op>)
    requires Run(states, ops) && Ready(states[|ops|], op)
    ensures Run(longer, more) && |more| == |ops| + 1 && longer[|more|] == After(states[|ops|], op).0
  {
    longer, more := states + [After(states[|ops|], op).0], ops + [op];
    forall i | 0 <= i < |more|
      ensures Step(longer[i], more[i], longer[i + 1])
    {
      if i < |ops| {
        assert ops[i] == more[i];
      }
    }
  }

  // A run that has begun the proof of its one finding.
  lemma AdmittedRun(finding: int) returns (states: seq<State>, ops: seq<Op>)
    ensures Run(states, ops)
    ensures states[|ops|] == State({finding}, map[finding := Validation(finding, TruePositive)], map[], EMPTY, map[],
                                   map[1 := Proving(finding)])
  {
    states, ops := [START], [];
    states, ops := Extend(states, ops, Register(finding));
    states, ops := Extend(states, ops, BeginValidate(0, finding));
    states, ops := Extend(states, ops, FinishValidate(0, Some(TruePositive)));
    assert states[|ops|].jobs == map[];
    states, ops := Extend(states, ops, BeginProve(1, finding));
  }

  // A deletion between the gate and the recording: the proof is on record, of a finding that is not stored
  // and has no verdict.
  lemma ProofOutlivesDeletion(finding: int)
    ensures exists states: seq<State>, ops: seq<Op> ::
              && Run(states, ops) && Lookup(states[|ops|].proofs, finding) == Some(Verified)
              && VerdictOf(states[|ops|], finding) == None && finding !in states[|ops|].findings
  {
    var states, ops := AdmittedRun(finding);
    states, ops := Extend(states, ops, Delete({finding}));
    states, ops := Extend(states, ops, FinishProve(1, Verified));
  }

  // ---------------------------------------------------------------- what a remediation status says about the run

  lemma {:induction false} StaysApplied(states: seq<State>, ops: seq<Op>, i: nat, n: nat, finding: int)
    requires Run(states, ops) && i <= n <= |ops|
    requires finding in states[i].records && states[i].records[finding].status == Applied
    requires forall k {:trigger ops[k]} :: i <= k < n ==> !Reopens(states[k], ops[k], finding)
    ensures finding in states[n].records && states[n].records[finding].status == Applied
  {
    if i < n {
      StaysApplied(states, ops, i, n - 1, finding);
      assert !Reopens(states[n - 1], ops[n - 1], finding) && Step(states[n - 1], ops[n - 1], states[n]);
      AppliedStep(states[n - 1], ops[n - 1], states[n], finding);
    }
  }

  // A second patch for the same finding needs a new proposal, a verification or a deletion in between.
  lemma AppliesAreSeparated(states: seq<State>, ops: seq<Op>, i: nat, n: nat, finding: int)
    requires Run(states, ops) && i < n < |ops|
    requires Applies(states[i], ops[i], finding) && Applies(states[n], ops[n], finding)
    ensures exists k :: i < k < n && Reopens(states[k], ops[k], finding)
  {
    if forall k {:trigger ops[k]} :: i < k < n ==> !Reopens(states[k], ops[k], finding) {
      AppliesLeavesApplied(states[i], ops[i], states[i + 1], finding);
      StaysApplied(states, ops, i + 1, n, finding);
      AppliedRefuses(states[n], ops[n], finding);
    }
  }

  // A status that speaks of a fix in place follows a patch, with no newer proposal or deletion since.
  lemma {:induction false} CheckedWasApplied(states: seq<State>, ops: seq<Op>, n: nat, finding: int) returns (i: nat)
    requires Run(states, ops) && n <= |ops| && finding in states[n].records
    requires Checkable(states[n].records[finding].status)
    ensures i < n && Applies(states[i], ops[i], finding) && Alive(ops, i, n, finding)
    ensures forall k {:trigger ops[k]} :: i < k < n ==> !Proposes(states[k], ops[k], finding)
  {
    assert n > 0;
    CheckedStep(states[n - 1], ops[n - 1], states[n], finding);
    RecordStep(states[n - 1], ops[n - 1], states[n], finding);
    if Applies(states[n - 1], ops[n - 1], finding) {
      i := n - 1;
    } else {
      i := CheckedWasApplied(states, ops, n - 1, finding);
    }
  }

  // Whether a recheck found the finding still there.
  predicate FoundAs(op: Op, status: RemediationStatus)
  {
    op.Verify? && op.present == Found(status == StillPresent)
  }

  lemma RecheckStep(s: State, op: Op, after: State, finding: int)
    requires Step(s, op, after) && finding in after.records
    requires after.records[finding].status == FixVerified || after.records[finding].status == StillPresent
    ensures (Rechecks(s, op, finding) && FoundAs(op, after.records[finding].status))
            || (!Rechecks(s, op, finding) && !Applies(s, op, finding) && !Proposes(s, op, finding)
                && finding in s.records && s.records[finding].status == after.records[finding].status)
  {
    if op.Propose? {
      ProposeEffect(s, op, after, finding);
    } else if op.Apply? {
      ApplyEffect(s, op, after, finding);
    } else if op.Verify? {
      VerifyEffect(s, op, after, finding);
    } else if !op.Delete? {
      OthersKeepRecords(s, op, after);
    }
  }

  // The verdict on a fix is that of its latest recheck, with no newer patch, proposal or deletion.
  lemma {:induction false} VerdictOnFix(states: seq<State>, ops: seq<Op>, n: nat, finding: int) returns (i: nat)
    requires Run(states, ops) && n <= |ops| && finding in states[n].records
    requires states[n].records[finding].status == FixVerified || states[n].records[finding].status == StillPresent
    ensures i < n && Rechecks(states[i], ops[i], finding) && FoundAs(ops[i], states[n].records[finding].status)
    ensures Alive(ops, i, n, finding)
    ensures forall k {:trigger ops[k]} :: i < k < n ==>
              !Rechecks(states[k], ops[k], finding) && !Applies(states[k], ops[k], finding)
              && !Proposes(states[k], ops[k], finding)
  {
    assert n > 0;
    var s, op := states[n - 1], ops[n - 1];
    RecheckStep(s, op, states[n], finding);
    RecordStep(s, op, states[n], finding);
    if Rechecks(s, op, finding) {
      i := n - 1;
    } else {
      i := VerdictOnFix(states, ops, n - 1, finding);
    }
  }
}
