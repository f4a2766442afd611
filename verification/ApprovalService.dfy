/** The approval store as its dicts are updated in place, and the service that runs on it. */
module ApprovalService {
  import opened Wrappers
  import opened Approval

  class ApprovalStore {
    var requests: map<int, Request>
    var order: seq<int>
    var events: map<int, seq<Event>>

    constructor ()
      ensures Book() == EMPTY
    {
      requests, order, events := map[], [], map[];
    }

    function Book(): (r: Book)
      reads this
    {
      Approval.Book(requests, order, events)
    }

    ghost predicate Valid()
      reads this
    {
      Consistent(Book())
    }

    method Save(r: Request)
      modifies this
      ensures Book() == Saved(old(Book()), r)
    {
      if r.id !in requests {
        order := order + [r.id];
      }
      requests := requests[r.id := r];
    }

    method RecordEvent(e: Event)
      modifies this
      ensures Book() == Recorded(old(Book()), e)
    {
      if e.approval !in events {
        events := events[e.approval := []];
      }
      events := events[e.approval := events[e.approval] + [e]];
    }

    method FindForFinding(finding: int) returns (newest: Option<Request>)
      requires Known(requests, order)
      ensures newest == Latest(requests, order, finding)
    {
      newest := None;
      ghost var done: seq<int> := [];
      for i := 0 to |order|
        invariant done == order[..i] && Known(requests, done)
        invariant newest == Latest(requests, done, finding)
      {
        var id := order[i];
        assert id in order && (done + [id])[..|done + [id]| - 1] == done;
        var r := requests[id];
        if r.finding == finding && (newest.None? || newest.value.requestedAt < r.requestedAt) {
          newest := Some(r);
        }
        done := done + [id];
      }
      assert done == order;
    }

    method FindActive(finding: int, action: Action) returns (found: Option<Request>)
      requires Known(requests, order)
      ensures found == FirstActive(requests, order, finding, action)
    {
      ghost var done: seq<int> := [];
      for i := 0 to |order|
        invariant done == order[..i] && Known(requests, done)
        invariant FirstActive(requests, done, finding, action).None?
      {
        var id := order[i];
        assert id in order && (done + [id])[..|done + [id]| - 1] == done;
        if Wanted(requests[id], finding, action) {
          assert done + [id] == order[..i + 1];
          FoundEarly(requests, order, i + 1, finding, action);
          return Some(requests[id]);
        }
        done := done + [id];
      }
      assert done == order;
      found := None;
    }

    method RemoveFinding(finding: int)
      requires Known(requests, order)
      modifies this
      ensures Book() == Removed(old(Book()), {finding})
    {
      var kept: seq<int> := [];
      ghost var done: seq<int> := [];
      for i := 0 to |order|
        invariant Book() == old(Book())
        invariant done == order[..i] && Known(requests, done)
        invariant kept == Others(requests, done, {finding})
      {
        var id := order[i];
        assert id in order && (done + [id])[..|done + [id]| - 1] == done;
        if requests[id].finding != finding {
          kept := kept + [id];
        }
        done := done + [id];
      }
      assert done == order;
      var gone := set id | id in requests && requests[id].finding == finding;
      assert gone == OfFindings(requests, {finding});
      requests, order, events := requests - gone, kept, events - gone;
    }
  }

  // What the scan of a prefix finds, the scan of the whole dict finds.
  lemma {:induction false} FoundEarly(requests: map<int, Request>, order: seq<int>, n: nat, finding: int,
      action: Action)
    requires n <= |order| && Known(requests, order) && Known(requests, order[..n])
    requires FirstActive(requests, order[..n], finding, action).Some?
    ensures FirstActive(requests, order, finding, action) == FirstActive(requests, order[..n], finding, action)
  {
    if n == |order| {
      assert order[..n] == order;
    } else {
      var rest := order[..|order| - 1];
      assert rest[..n] == order[..n];
      assert Known(requests, rest);
      FoundEarly(requests, rest, n, finding, action);
    }
  }

  class ApprovalService {
    const store: ApprovalStore
    const policy: Policy

    constructor (store: ApprovalStore, policy: Policy)
      ensures this.store == store && this.policy == policy
    {
      this.store := store;
      this.policy := policy;
    }

    method CheckEligibility(verdict: Option<Verdict>, proof: Option<ProofStatus>) returns (refusal: Option<Refusal>)
      ensures refusal == Ineligible(policy, verdict, proof)
    {
      if policy.requireValidation {
        if verdict.None? {
          return Some(NotValidated);
        }
        if verdict.value != TruePositive {
          return Some(WrongVerdict);
        }
      }
      if policy.requireProof {
        if proof.None? {
          return Some(NotProven);
        }
        if proof.value != Verified {
          return Some(WrongProof);
        }
      }
      refusal := None;
    }

    // The stored verdict and proof of the finding come with the call.
    method RequestApproval(verdict: Option<Verdict>, proof: Option<ProofStatus>, ask: Ask)
      returns (answer: Result<Request, Refusal>)
      requires store.Valid() && ask.id !in store.requests
      modifies store
      ensures store.Valid()
      ensures (store.Book(), answer) == AfterRequest(old(store.Book()), policy, verdict, proof, ask)
    {
      RequestKeepsConsistent(store.Book(), policy, verdict, proof, ask);
      var active := store.FindActive(ask.finding, ask.action);
      if active.Some? {
        return Ok(active.value);
      }
      var latest := store.FindForFinding(ask.finding);
      if latest.Some? && Terminal(latest.value.status) && !policy.allowReRequest {
        return Err(TerminalExists);
      }
      var refusal := CheckEligibility(verdict, proof);
      if refusal.Some? {
        return Err(refusal.value);
      }
      if ask.at.Naive? {
        return Err(NaiveTime);
      }
      var r := NewRequest(ask, ask.at.utc);
      store.Save(r);
      store.RecordEvent(NewEvent(r));
      answer := Ok(r);
    }

    method Transition(d: Decision) returns (answer: Result<Request, Refusal>)
      requires store.Valid()
      modifies store
      ensures store.Valid()
      ensures (store.Book(), answer) == AfterDecision(old(store.Book()), d)
      ensures answer.Ok? <==> Accepted(old(store.Book()), d)
    {
      DecisionKeepsConsistent(store.Book(), d);
      AcceptedIff(store.Book(), d);
      answer := ApplyDecision(d);
    }

    method ApplyDecision(d: Decision) returns (answer: Result<Request, Refusal>)
      modifies store
      ensures (store.Book(), answer) == AfterDecision(old(store.Book()), d)
    {
      if d.id !in store.requests {
        return Err(UnknownRequest);
      }
      var r := store.requests[d.id];
      if !Allowed(r.status, d.status) {
        return Err(InvalidTransition);
      }
      if d.at.Naive? {
        return Err(NaiveTime);
      }
      var version := r.version;
      if r.status == ChangesRequested && d.status == Pending {
        version := version + 1;
      }
      var updated := r.(status := d.status, reviewedAt := Some(d.at.utc), reviewedBy := Some(d.actor),
                        reason := d.reason, version := version);
      store.Save(updated);
      store.RecordEvent(Event(r.id, r.finding, Some(r.status), d.status, d.actor, d.reason, d.at.utc));
      answer := Ok(updated);
    }

    method IsActionAllowed(id: int) returns (allowed: bool)
      ensures allowed == ActionAllowed(store.Book(), policy, id)
    {
      if id !in store.requests {
        return false;
      }
      var r := store.requests[id];
      allowed := r.status == Approved && r.action in policy.allowedActions;
    }
  }
}
