/**
 Human approval requests: the gate that creates them, the state machine that decides them, and the
 audit trail both leave. A book is the approval store at one moment; the order in which its dict was
 filled is kept, because the finders scan in that order.
 */
module Approval {
  import opened Wrappers

  datatype Status = Pending | ChangesRequested | Approved | Rejected

  datatype Action = Remediation | Other

  datatype Verdict = TruePositive | FalsePositive | Uncertain

  datatype ProofStatus = Verified | NotVerified | Blocked | ProofError

  // A datetime with or without a time zone.
  datatype Stamp = Aware(utc: int) | Naive

  datatype Request = Request(id: int, finding: int, action: Action, status: Status, version: nat,
                             requestedAt: int, requestedBy: int,
                             reviewedAt: Option<int>, reviewedBy: Option<int>, reason: Option<int>,
                             run: Option<int>)

  datatype Event = Event(approval: int, finding: int, previous: Option<Status>, status: Status,
                         actor: int, reason: Option<int>, at: int)

  datatype Book = Book(requests: map<int, Request>, order: seq<int>, events: map<int, seq<Event>>)

  datatype Policy = Policy(requireValidation: bool, requireProof: bool, allowedActions: set<Action>,
                           allowReRequest: bool)

  const DEFAULT_POLICY := Policy(true, true, {Remediation}, false)

  datatype Refusal =
    NotValidated | WrongVerdict | NotProven | WrongProof | TerminalExists | NaiveTime
    | UnknownRequest | InvalidTransition

  // What a caller asks for, with the id the new request would get.
  datatype Ask = Ask(id: int, finding: int, action: Action, actor: int, at: Stamp, run: Option<int>)

  datatype Decision = Decision(id: int, status: Status, actor: int, reason: Option<int>, at: Stamp)

  const EMPTY := Book(map[], [], map[])

  predicate Active(s: Status) { s == Pending || s == ChangesRequested }

  predicate Terminal(s: Status) { s == Approved || s == Rejected }

  predicate Allowed(from: Status, to: Status)
  {
    match from
    case Pending => to != Pending
    case ChangesRequested => to == Pending
    case _ => false
  }

  // ---------------------------------------------------------------- the store

  ghost predicate Known(requests: map<int, Request>, order: seq<int>)
  {
    (forall id :: id in order ==> id in requests) && forall id :: id in requests ==> requests[id].id == id
  }

  predicate Wanted(r: Request, finding: int, action: Action)
  {
    r.finding == finding && r.action == action && Active(r.status)
  }

  // The first active request for a finding and an action, in the order of the dict.
  function FirstActive(requests: map<int, Request>, order: seq<int>, finding: int, action: Action): (r: Option<Request>)
    requires Known(requests, order)
  {
    if order == [] then None
    else
      var earlier := FirstActive(requests, order[..|order| - 1], finding, action);
      var id := order[|order| - 1];
      assert id in order;
      var last := requests[id];
      if earlier.None? && Wanted(last, finding, action) then Some(last) else earlier
  }

  // The newest request for a finding, whatever its action; the first of several equally new ones.
  function Latest(requests: map<int, Request>, order: seq<int>, finding: int): (r: Option<Request>)
    requires Known(requests, order)
  {
    if order == [] then None
    else
      var earlier := Latest(requests, order[..|order| - 1], finding);
      var id := order[|order| - 1];
      assert id in order;
      var last := requests[id];
      if last.finding == finding && (earlier.None? || earlier.value.requestedAt < last.requestedAt)
      then Some(last) else earlier
  }

  function Saved(b: Book, r: Request): (result: Book)
  {
    Book(b.requests[r.id := r], if r.id in b.requests then b.order else b.order + [r.id], b.events)
  }

  function Trail(events: map<int, seq<Event>>, id: int): (r: seq<Event>)
  {
    if id in events then events[id] else []
  }

  function Recorded(b: Book, e: Event): (r: Book)
  {
    b.(events := b.events[e.approval := Trail(b.events, e.approval) + [e]])
  }

  // The ids, in order, of the requests that are not for any of these findings.
  function Others(requests: map<int, Request>, order: seq<int>, findings: set<int>): (r: seq<int>)
    requires Known(requests, order)
  {
    if order == [] then []
    else
      var id := order[|order| - 1];
      assert id in order;
      Others(requests, order[..|order| - 1], findings) + (if requests[id].finding in findings then [] else [id])
  }

  function OfFindings(requests: map<int, Request>, findings: set<int>): (r: set<int>)
  {
    set id | id in requests && requests[id].finding in findings
  }

  function Removed(b: Book, findings: set<int>): (r: Book)
    requires Known(b.requests, b.order)
  {
    var gone := OfFindings(b.requests, findings);
    Book(b.requests - gone, Others(b.requests, b.order, findings), b.events - gone)
  }

  // ---------------------------------------------------------------- the service

  // Why a finding may not be put up for approval, if there is a reason.
  function Ineligible(policy: Policy, verdict: Option<Verdict>, proof: Option<ProofStatus>): (r: Option<Refusal>)
  {
    if policy.requireValidation && verdict.None? then Some(NotValidated)
    else if policy.requireValidation && verdict.value != TruePositive then Some(WrongVerdict)
    else if policy.requireProof && proof.None? then Some(NotProven)
    else if policy.requireProof && proof.value != Verified then Some(WrongProof)
    else None
  }

  function NewRequest(ask: Ask, now: int): (r: Request)
  {
    Request(ask.id, ask.finding, ask.action, Pending, 1, now, ask.actor, None, None, None, ask.run)
  }

  function NewEvent(r: Request): (result: Event)
  {
    Event(r.id, r.finding, None, Pending, r.requestedBy, None, r.requestedAt)
  }

  function AfterRequest(b: Book, policy: Policy, verdict: Option<Verdict>, proof: Option<ProofStatus>, ask: Ask)
    : (r: (Book, Result<Request, Refusal>))
    requires Known(b.requests, b.order)
  {
    var active := FirstActive(b.requests, b.order, ask.finding, ask.action);
    var latest := Latest(b.requests, b.order, ask.finding);
    if active.Some? then (b, Ok(active.value))
    else if latest.Some? && Terminal(latest.value.status) && !policy.allowReRequest then (b, Err(TerminalExists))
    else if Ineligible(policy, verdict, proof).Some? then (b, Err(Ineligible(policy, verdict, proof).value))
    else if ask.at.Naive? then (b, Err(NaiveTime))
    else
      var r := NewRequest(ask, ask.at.utc);
      (Recorded(Saved(b, r), NewEvent(r)), Ok(r))
  }

  function Decided(r: Request, d: Decision, now: int): (result: Request)
  {
    r.(status := d.status, reviewedAt := Some(now), reviewedBy := Some(d.actor), reason := d.reason,
       version := if r.status == ChangesRequested && d.status == Pending then r.version + 1 else r.version)
  }

  function AfterDecision(b: Book, d: Decision): (r: (Book, Result<Request, Refusal>))
  {
    if d.id !in b.requests then (b, Err(UnknownRequest))
    else
      var r := b.requests[d.id];
      if !Allowed(r.status, d.status) then (b, Err(InvalidTransition))
      else if d.at.Naive? then (b, Err(NaiveTime))
      else
        var updated := Decided(r, d, d.at.utc);
        var e := Event(r.id, r.finding, Some(r.status), d.status, d.actor, d.reason, d.at.utc);
        (Recorded(Saved(b, updated), e), Ok(updated))
  }

  predicate ActionAllowed(b: Book, policy: Policy, id: int)
  {
    id in b.requests && b.requests[id].status == Approved && b.requests[id].action in policy.allowedActions
  }

  // ---------------------------------------------------------------- what the finders find

  lemma {:induction false} LatestIsNewest(requests: map<int, Request>, order: seq<int>, finding: int)
    requires Known(requests, order)
    ensures var r := Latest(requests, order, finding);
            && (r.Some? ==> r.value.finding == finding && r.value.id in order && requests[r.value.id] == r.value)
            && (forall id :: id in order && requests[id].finding == finding ==>
                  r.Some? && requests[id].requestedAt <= r.value.requestedAt)
  {
    if order != [] {
      var rest := order[..|order| - 1];
      LatestIsNewest(requests, rest, finding);
      var id := order[|order| - 1];
      assert order == rest + [id] && id in order;
    }
  }

  lemma {:induction false} FirstActiveIsActive(requests: map<int, Request>, order: seq<int>, finding: int,
      action: Action)
    requires Known(requests, order)
    ensures var r := FirstActive(requests, order, finding, action);
            && (r.Some? ==> Wanted(r.value, finding, action) && r.value.id in order && requests[r.value.id] == r.value)
            && (r.None? ==> forall id :: id in order ==> !Wanted(requests[id], finding, action))
  {
    if order != [] {
      var rest := order[..|order| - 1];
      FirstActiveIsActive(requests, rest, finding, action);
      var id := order[|order| - 1];
      assert order == rest + [id] && id in order;
    }
  }

  lemma {:induction false} OthersKept(requests: map<int, Request>, order: seq<int>, findings: set<int>)
    requires Known(requests, order)
    ensures forall id :: id in Others(requests, order, findings) <==> id in order && requests[id].finding !in findings
  {
    if order != [] {
      var rest := order[..|order| - 1];
      OthersKept(requests, rest, findings);
      assert order == rest + [order[|order| - 1]];
    }
  }

  // ---------------------------------------------------------------- the history invariant

  // How often a reviewed request came back for another cycle.
  function Resubmissions(story: seq<Event>): (r: nat)
  {
    if story == [] then 0
    else
      var last := story[|story| - 1];
      Resubmissions(story[..|story| - 1])
          + (if last.previous == Some(ChangesRequested) && last.status == Pending then 1 else 0)
  }

  // Each event starts from the status the one before it reached. An approval, a rejection and a request for
  // changes directly follow a pending event, and a pending event after the first a request for changes.
  ghost predicate Chained(story: seq<Event>)
  {
    && story != [] && story[0].previous == None && story[0].status == Pending
    && forall i :: 1 <= i < |story| ==>
         && story[i].previous == Some(story[i - 1].status)
         && story[i - 1].status == if story[i].status == Pending then ChangesRequested else Pending
  }

  ghost predicate About(story: seq<Event>, r: Request)
  {
    forall i :: 0 <= i < |story| ==> story[i].approval == r.id && story[i].finding == r.finding
  }

  // The trail tells the whole life of the request, and the request is where the trail ends.
  ghost predicate Told(r: Request, story: seq<Event>)
  {
    && Chained(story) && About(story, r)
    && story[0].actor == r.requestedBy && story[0].at == r.requestedAt
    && r.status == story[|story| - 1].status
    && r.version == 1 + Resubmissions(story)
    && (if |story| == 1 then r.reviewedBy == None && r.reviewedAt == None
        else r.reviewedBy == Some(story[|story| - 1].actor) && r.reviewedAt == Some(story[|story| - 1].at))
  }

  ghost predicate Indexed(b: Book)
  {
    && b.events.Keys == b.requests.Keys
    && (forall id :: id in b.order <==> id in b.requests)
    && (forall id :: id in b.requests ==> b.requests[id].id == id)
  }

  ghost predicate AllTold(b: Book)
  {
    forall id :: id in b.requests ==> Told(b.requests[id], Trail(b.events, id))
  }

  predicate Open(r: Request)
  {
    r.status == Pending || r.status == ChangesRequested
  }

  ghost predicate OneActiveEach(b: Book)
  {
    forall x, y :: x in b.requests && y in b.requests && x != y && Open(b.requests[x]) && Open(b.requests[y]) ==>
                     b.requests[x].finding != b.requests[y].finding || b.requests[x].action != b.requests[y].action
  }

  ghost predicate Consistent(b: Book)
  {
    Indexed(b) && AllTold(b) && OneActiveEach(b)
  }

  lemma StartsConsistent()
    ensures Consistent(EMPTY) && Known(EMPTY.requests, EMPTY.order)
  {
  }

  // A longer trail told by one more allowed event.
  lemma ToldOnward(r: Request, story: seq<Event>, d: Decision, e: Event)
    requires Told(r, story) && Allowed(r.status, d.status) && d.at.Aware?
    requires e == Event(r.id, r.finding, Some(r.status), d.status, d.actor, d.reason, d.at.utc)
    ensures Told(Decided(r, d, d.at.utc), story + [e])
  {
    var longer := story + [e];
    assert longer[..|longer| - 1] == story;
    assert longer[|longer| - 1] == e;
    assert Resubmissions(longer) == Resubmissions(story)
                                    + (if r.status == ChangesRequested && d.status == Pending then 1 else 0);
    assert Chained(longer);
    assert About(longer, r);
  }

  lemma ToldFirst(r: Request)
    requires r.status == Pending && r.version == 1 && r.reviewedBy == None && r.reviewedAt == None
    ensures Told(r, [NewEvent(r)])
  {
    var story := [NewEvent(r)];
    assert story[..0] == [];
    assert Resubmissions(story) == 0;
  }

  // What a request that is made leaves behind.
  lemma RequestMade(b: Book, policy: Policy, verdict: Option<Verdict>, proof: Option<ProofStatus>, ask: Ask)
    requires Indexed(b) && ask.id !in b.requests
    ensures var after := AfterRequest(b, policy, verdict, proof, ask).0;
            after != b ==>
              ask.at.Aware? &&
              var r := NewRequest(ask, ask.at.utc);
              && Indexed(after) && after.requests == b.requests[ask.id := r]
              && after.order == b.order + [ask.id] && after.events == b.events[ask.id := [NewEvent(r)]]
              && (forall id :: id in b.requests ==> !Wanted(b.requests[id], ask.finding, ask.action))
  {
    FirstActiveIsActive(b.requests, b.order, ask.finding, ask.action);
    if ask.at.Aware? {
      var first := [NewEvent(NewRequest(ask, ask.at.utc))];
      assert [] + first == first;
    }
  }

  lemma OneMoreActive(b: Book, after: Book, r: Request)
    requires Indexed(b) && OneActiveEach(b) && r.id !in b.requests && after.requests == b.requests[r.id := r]
    requires forall id :: id in b.requests ==> !Wanted(b.requests[id], r.finding, r.action)
    ensures OneActiveEach(after)
  {
  }

  lemma RequestKeepsConsistent(b: Book, policy: Policy, verdict: Option<Verdict>, proof: Option<ProofStatus>, ask: Ask)
    requires Consistent(b) && ask.id !in b.requests
    ensures Consistent(AfterRequest(b, policy, verdict, proof, ask).0)
  {
    var after := AfterRequest(b, policy, verdict, proof, ask).0;
    RequestMade(b, policy, verdict, proof, ask);
    if after != b {
      var r := NewRequest(ask, ask.at.utc);
      ToldFirst(r);
      OneMoreActive(b, after, r);
      assert AllTold(after);
    }
  }

  lemma DecisionKeepsConsistent(b: Book, d: Decision)
    requires Consistent(b)
    ensures Consistent(AfterDecision(b, d).0)
  {
    var after := AfterDecision(b, d).0;
    if after != b {
      var r := b.requests[d.id];
      var e := Event(r.id, r.finding, Some(r.status), d.status, d.actor, d.reason, d.at.utc);
      ToldOnward(r, b.events[d.id], d, e);
      assert after.events == b.events[d.id := b.events[d.id] + [e]];
      assert after.requests == b.requests[d.id := Decided(r, d, d.at.utc)];
      assert Indexed(after);
      assert AllTold(after);
      assert Active(r.status);
    }
  }

  lemma RemovalKeepsConsistent(b: Book, findings: set<int>)
    requires Consistent(b)
    ensures Consistent(Removed(b, findings))
  {
    OthersKept(b.requests, b.order, findings);
    var after := Removed(b, findings);
    assert Indexed(after);
    assert AllTold(after);
  }

  lemma {:induction false} OthersOfNone(requests: map<int, Request>, order: seq<int>)
    requires Known(requests, order)
    ensures Others(requests, order, {}) == order
  {
    if order != [] {
      OthersOfNone(requests, order[..|order| - 1]);
    }
  }

  lemma RemovedNone(b: Book)
    requires Indexed(b)
    ensures Known(b.requests, b.order) && Removed(b, {}) == b
  {
    OthersOfNone(b.requests, b.order);
    var gone := OfFindings(b.requests, {});
    assert gone == {};
    assert b.requests - gone == b.requests && b.events - gone == b.events;
  }

  lemma OthersStayKnown(requests: map<int, Request>, order: seq<int>, findings: set<int>)
    requires Known(requests, order)
    ensures Known(requests - OfFindings(requests, findings), Others(requests, order, findings))
  {
    OthersKept(requests, order, findings);
  }

  lemma {:induction false} OthersTwice(requests: map<int, Request>, order: seq<int>, one: set<int>, two: set<int>)
    requires Known(requests, order)
    ensures Known(requests - OfFindings(requests, one), Others(requests, order, one))
    ensures Others(requests - OfFindings(requests, one), Others(requests, order, one), two)
            == Others(requests, order, one + two)
  {
    OthersStayKnown(requests, order, one);
    if order != [] {
      var rest := order[..|order| - 1];
      var id := order[|order| - 1];
      assert order == rest + [id] && id in order;
      OthersTwice(requests, rest, one, two);
      var kept := Others(requests, order, one);
      if requests[id].finding in one {
        assert kept == Others(requests, rest, one);
        assert Others(requests, order, one + two) == Others(requests, rest, one + two);
      } else {
        assert kept[..|kept| - 1] == Others(requests, rest, one) && kept[|kept| - 1] == id;
      }
    }
  }

  // Removing findings one after another removes them together.
  lemma RemovedTwice(b: Book, one: set<int>, two: set<int>)
    requires Indexed(b)
    ensures Known(b.requests, b.order) && Indexed(Removed(b, one))
    ensures Removed(Removed(b, one), two) == Removed(b, one + two)
  {
    OthersKept(b.requests, b.order, one);
    OthersTwice(b.requests, b.order, one, two);
    GoneTwice(b.requests, one, two);
    TakenTwice(b.requests, OfFindings(b.requests, one), OfFindings(Removed(b, one).requests, two));
    TakenTwice(b.events, OfFindings(b.requests, one), OfFindings(Removed(b, one).requests, two));
  }

  lemma GoneTwice(requests: map<int, Request>, one: set<int>, two: set<int>)
    ensures OfFindings(requests, one + two)
            == OfFindings(requests, one) + OfFindings(requests - OfFindings(requests, one), two)
  {
  }

  lemma TakenTwice<V>(m: map<int, V>, one: set<int>, two: set<int>)
    ensures m - one - two == m - (one + two)
  {
  }

  // ---------------------------------------------------------------- runs

  datatype Op =
    | RequestOp(policy: Policy, verdict: Option<Verdict>, proof: Option<ProofStatus>, ask: Ask)
    | DecideOp(decision: Decision)
    | RemoveOp(findings: set<int>)

  function After(b: Book, op: Op): (r: Book)
    requires Known(b.requests, b.order)
  {
    match op
    case RequestOp(policy, verdict, proof, ask) => AfterRequest(b, policy, verdict, proof, ask).0
    case DecideOp(d) => AfterDecision(b, d).0
    case RemoveOp(findings) => Removed(b, findings)
  }

  // One call on the store. The id of a new request is never one the store holds.
  ghost predicate Step(b: Book, op: Op, after: Book)
  {
    Known(b.requests, b.order) && (op.RequestOp? ==> op.ask.id !in b.requests) && after == After(b, op)
  }

  ghost predicate Run(books: seq<Book>, ops: seq<Op>)
  {
    |books| == |ops| + 1 && forall i {:trigger ops[i]} :: 0 <= i < |ops| ==> Step(books[i], ops[i], books[i + 1])
  }

  lemma StepKeepsConsistent(b: Book, op: Op, after: Book)
    requires Consistent(b) && Step(b, op, after)
    ensures Consistent(after)
  {
    match op
    case RequestOp(policy, verdict, proof, ask) => RequestKeepsConsistent(b, policy, verdict, proof, ask);
    case DecideOp(d) => DecisionKeepsConsistent(b, d);
    case RemoveOp(findings) => RemovalKeepsConsistent(b, findings);
  }

  // In every reachable state the store is consistent, whatever policy each call ran under.
  lemma {:induction false} HistoryInvariant(books: seq<Book>, ops: seq<Op>, n: nat)
    requires Run(books, ops) && books[0] == EMPTY && n <= |ops|
    ensures Consistent(books[n])
  {
    if n > 0 {
      HistoryInvariant(books, ops, n - 1);
      StepKeepsConsistent(books[n - 1], ops[n - 1], books[n]);
    }
  }

  // One step never rewrites a trail, and leaves a decided request exactly as it is.
  lemma StepOnlyAppends(b: Book, op: Op, after: Book, id: int)
    requires Indexed(b) && Step(b, op, after) && id in b.requests
    requires !(op.RemoveOp? && b.requests[id].finding in op.findings)
    ensures id in after.requests && id in after.events
    ensures b.events[id] <= after.events[id]
    ensures after.requests[id].finding == b.requests[id].finding && after.requests[id].action == b.requests[id].action
    ensures !Open(b.requests[id]) ==> after.requests[id] == b.requests[id] && after.events[id] == b.events[id]
  {
  }

  // Over a whole run without its deletion, a request's trail only grows, and a decision is final.
  lemma {:induction false} HistoryOnlyGrows(books: seq<Book>, ops: seq<Op>, i: nat, j: nat, id: int)
    requires Run(books, ops) && books[0] == EMPTY && i <= j <= |ops| && id in books[i].requests
    requires forall k :: i <= k < j ==> !(ops[k].RemoveOp? && books[i].requests[id].finding in ops[k].findings)
    ensures id in books[i].events && id in books[j].requests && id in books[j].events
    ensures books[i].events[id] <= books[j].events[id]
    ensures books[j].requests[id].finding == books[i].requests[id].finding
    ensures !Open(books[i].requests[id]) ==> books[j].requests[id] == books[i].requests[id]
    decreases j
  {
    HistoryInvariant(books, ops, i);
    if i < j {
      HistoryOnlyGrows(books, ops, i, j - 1, id);
      HistoryInvariant(books, ops, j - 1);
      StepOnlyAppends(books[j - 1], ops[j - 1], books[j], id);
    }
  }

  // ---------------------------------------------------------------- what a call answers

  // The request is known, the time has a zone, and a pending request gets another status or one sent back for
  // changes gets pending again.
  predicate Accepted(b: Book, d: Decision)
  {
    && d.id in b.requests && d.at.Aware?
    && ((b.requests[d.id].status == Pending && d.status != Pending)
        || (b.requests[d.id].status == ChangesRequested && d.status == Pending))
  }

  lemma AcceptedIff(b: Book, d: Decision)
    ensures AfterDecision(b, d).1.Ok? <==> Accepted(b, d)
  {
  }

  // A decision is accepted exactly then, and leaves what it says, as a new version if it is a resubmission.
  lemma DecisionAcceptedIff(b: Book, d: Decision)
    ensures var (after, answer) := AfterDecision(b, d);
            && (answer.Ok? <==> Accepted(b, d))
            && (answer.Err? ==> after == b)
            && (answer.Ok? ==>
                  var r := b.requests[d.id];
                  && r.id in after.requests && after.requests[r.id] == answer.value
                  && answer.value.status == d.status && answer.value.reason == d.reason
                  && answer.value.reviewedBy == Some(d.actor) && answer.value.reviewedAt == Some(d.at.utc)
                  && answer.value.version == (if d.status == Pending then r.version + 1 else r.version)
                  && Trail(after.events, r.id) == Trail(b.events, r.id)
                     + [Event(r.id, r.finding, Some(r.status), d.status, d.actor, d.reason, d.at.utc)])
  {
  }

  // Why a decision is refused.
  lemma DecisionRefused(b: Book, d: Decision)
    requires AfterDecision(b, d).1.Err?
    ensures var why := AfterDecision(b, d).1.error;
            && (why == UnknownRequest <==> d.id !in b.requests)
            && (why == NaiveTime <==> d.id in b.requests && d.at.Naive?
                                      && ((b.requests[d.id].status == Pending && d.status != Pending)
                                          || (b.requests[d.id].status == ChangesRequested && d.status == Pending)))
            && (why == UnknownRequest || why == NaiveTime || why == InvalidTransition)
  {
  }

  ghost predicate HasOpen(b: Book, finding: int, action: Action)
  {
    exists id :: id in b.requests && b.requests[id].finding == finding && b.requests[id].action == action
      && Open(b.requests[id])
  }

  // A request is made exactly if none is open for the finding and action, the finding's newest one is not decided
  // or may be repeated, and the verdict and the proof the policy asks for are there.
  lemma RequestMadeIff(b: Book, policy: Policy, verdict: Option<Verdict>, proof: Option<ProofStatus>, ask: Ask)
    requires Indexed(b) && ask.id !in b.requests
    ensures var (after, answer) := AfterRequest(b, policy, verdict, proof, ask);
            var newest := Latest(b.requests, b.order, ask.finding);
            && (ask.id in after.requests <==>
                  && !HasOpen(b, ask.finding, ask.action) && ask.at.Aware?
                  && (newest.None? || Open(newest.value) || policy.allowReRequest)
                  && (policy.requireValidation ==> verdict == Some(TruePositive))
                  && (policy.requireProof ==> proof == Some(Verified)))
            && (answer.Ok? <==> ask.id in after.requests || HasOpen(b, ask.finding, ask.action))
            && (ask.id !in after.requests ==> after == b)
            && (ask.id in after.requests ==>
                  && after.requests[ask.id]
                     == Request(ask.id, ask.finding, ask.action, Pending, 1, ask.at.utc, ask.actor, None, None, None,
                                ask.run)
                  && answer.value == after.requests[ask.id])
            && (answer.Ok? && ask.id !in after.requests ==>
                  && Open(answer.value) && answer.value.finding == ask.finding && answer.value.action == ask.action
                  && answer.value.id in b.requests && b.requests[answer.value.id] == answer.value)
  {
    FirstActiveIsActive(b.requests, b.order, ask.finding, ask.action);
    RequestMade(b, policy, verdict, proof, ask);
  }

  // Why a request is refused: an earlier decision comes before the verdict, that before the proof, and the time last.
  lemma RequestRefused(b: Book, policy: Policy, verdict: Option<Verdict>, proof: Option<ProofStatus>, ask: Ask)
    requires Indexed(b) && AfterRequest(b, policy, verdict, proof, ask).1.Err?
    ensures var newest := Latest(b.requests, b.order, ask.finding);
            var decided := newest.Some? && !Open(newest.value) && !policy.allowReRequest;
            match AfterRequest(b, policy, verdict, proof, ask).1.error
            case TerminalExists => decided
            case NotValidated => !decided && policy.requireValidation && verdict.None?
            case WrongVerdict => !decided && policy.requireValidation && verdict.Some? && verdict.value != TruePositive
            case NotProven => !decided && policy.requireProof && proof.None?
                              && (policy.requireValidation ==> verdict == Some(TruePositive))
            case WrongProof => !decided && policy.requireProof && proof.Some? && proof.value != Verified
                               && (policy.requireValidation ==> verdict == Some(TruePositive))
            case NaiveTime => !decided && ask.at.Naive? && (policy.requireProof ==> proof == Some(Verified))
                              && (policy.requireValidation ==> verdict == Some(TruePositive))
            case _ => false
  {
  }

  // An action is allowed exactly if the trail's last step is an approval of a pending request, and the policy
  // lists it.
  lemma ActionAllowedIff(b: Book, policy: Policy, id: int)
    requires Consistent(b)
    ensures ActionAllowed(b, policy, id) <==>
            && id in b.requests && b.requests[id].action in policy.allowedActions
            && var story := Trail(b.events, id);
               |story| >= 2 && story[|story| - 1].status == Approved && story[|story| - 2].status == Pending
  {
    if id in b.requests {
      assert Told(b.requests[id], Trail(b.events, id));
    }
  }

  // ---------------------------------------------------------------- one request per finding

  ghost predicate OnePerFinding(b: Book)
  {
    forall x, y :: x in b.requests && y in b.requests && x != y ==> b.requests[x].finding != b.requests[y].finding
  }

  ghost predicate SingleAction(ops: seq<Op>, action: Action)
  {
    forall i :: 0 <= i < |ops| && ops[i].RequestOp? ==> ops[i].ask.action == action && !ops[i].policy.allowReRequest
  }

  ghost predicate AllOf(b: Book, action: Action)
  {
    forall id :: id in b.requests ==> b.requests[id].action == action
  }

  lemma StepKeepsOnePerFinding(b: Book, op: Op, after: Book, action: Action)
    requires Consistent(b) && OnePerFinding(b) && AllOf(b, action) && Step(b, op, after)
    requires op.RequestOp? ==> op.ask.action == action && !op.policy.allowReRequest
    ensures OnePerFinding(after) && AllOf(after, action)
  {
    if op.RequestOp? && after != b {
      FirstActiveIsActive(b.requests, b.order, op.ask.finding, action);
      LatestIsNewest(b.requests, b.order, op.ask.finding);
      assert forall id :: id in b.requests ==> b.requests[id].finding != op.ask.finding;
      assert after.requests == b.requests[op.ask.id := NewRequest(op.ask, op.ask.at.utc)];
    }
  }

  // With re-requests off and one action in use, no finding ever has two requests.
  lemma {:induction false} NeverASecondRequest(books: seq<Book>, ops: seq<Op>, action: Action, n: nat)
    requires Run(books, ops) && books[0] == EMPTY && SingleAction(ops, action) && n <= |ops|
    ensures OnePerFinding(books[n]) && AllOf(books[n], action)
  {
    if n > 0 {
      NeverASecondRequest(books, ops, action, n - 1);
      HistoryInvariant(books, ops, n - 1);
      StepKeepsOnePerFinding(books[n - 1], ops[n - 1], books[n], action);
    }
  }

  // ---------------------------------------------------------------- what the re-request gate really checks

  ghost predicate HasDecided(b: Book, finding: int, action: Action)
  {
    exists id :: id in b.requests && b.requests[id].finding == finding && b.requests[id].action == action
      && Terminal(b.requests[id].status)
  }

  // Documented: refused when this finding and action already have a decided request.
  ghost predicate RefusesAsDocumented(b: Book, policy: Policy, verdict: Option<Verdict>, proof: Option<ProofStatus>,
      ask: Ask)
    requires Known(b.requests, b.order)
  {
    AfterRequest(b, policy, verdict, proof, ask).1 == Err(TerminalExists) <==> HasDecided(b, ask.finding, ask.action)
  }

  ghost predicate EverRequested(b: Book, finding: int, action: Action)
  {
    exists id :: id in b.requests && b.requests[id].finding == finding && b.requests[id].action == action
  }

  // The code looks at the finding's newest request, of whatever action. It can only go wrong when that one
  // is for another action: then it does what is documented just if that request is decided exactly when
  // this action was ever requested.
  lemma ReRequestGateIff(b: Book, policy: Policy, verdict: Option<Verdict>, proof: Option<ProofStatus>, ask: Ask)
    requires Indexed(b) && !policy.allowReRequest
    requires FirstActive(b.requests, b.order, ask.finding, ask.action).None?
    ensures var latest := Latest(b.requests, b.order, ask.finding);
            RefusesAsDocumented(b, policy, verdict, proof, ask) <==>
            (latest.None? || latest.value.action == ask.action
             || (Terminal(latest.value.status) <==> EverRequested(b, ask.finding, ask.action)))
  {
    LatestIsNewest(b.requests, b.order, ask.finding);
    FirstActiveIsActive(b.requests, b.order, ask.finding, ask.action);
    NoneActive(b, ask.finding, ask.action);
    assert Ineligible(policy, verdict, proof) != Some(TerminalExists);
  }

  // Without an active request of an action, having been requested and having been decided are the same.
  lemma NoneActive(b: Book, finding: int, action: Action)
    requires Indexed(b) && forall id :: id in b.order ==> !Wanted(b.requests[id], finding, action)
    ensures EverRequested(b, finding, action) <==> HasDecided(b, finding, action)
  {
  }

  // Deciding a request changes nothing the search for the newest one looks at.
  lemma {:induction false} LatestAfterDecision(
    requests: map<int, Request>, order: seq<int>, finding: int, id: int, r: Request)
    requires Known(requests, order) && id in requests && r.id == id
    requires r.finding == requests[id].finding && r.requestedAt == requests[id].requestedAt
    ensures Known(requests[id := r], order)
    ensures var before, after := Latest(requests, order, finding), Latest(requests[id := r], order, finding);
            if before.Some? && before.value.id == id then after == Some(r) else after == before
  {
    if order != [] {
      var rest := order[..|order| - 1];
      assert order == rest + [order[|order| - 1]] && order[|order| - 1] in order;
      LatestAfterDecision(requests, rest, finding, id, r);
      LatestIsNewest(requests, rest, finding);
    }
  }

  // A newer request still open for another action hides a decision, so the same action is asked for again.
  lemma DecisionHidden(b: Book, d: Decision, ask: Ask, verdict: Option<Verdict>, proof: Option<ProofStatus>)
    requires Indexed(b) && OneActiveEach(b) && d.id in b.requests && ask.at.Aware?
    requires b.requests[d.id].finding == ask.finding && b.requests[d.id].action == ask.action
    requires Terminal(d.status) && AfterDecision(b, d).1.Ok? && Ineligible(DEFAULT_POLICY, verdict, proof).None?
    requires var newest := Latest(b.requests, b.order, ask.finding);
             newest.Some? && newest.value.id != d.id && Active(newest.value.status)
    ensures var after := AfterDecision(b, d).0;
            && Known(after.requests, after.order) && HasDecided(after, ask.finding, ask.action)
            && AfterRequest(after, DEFAULT_POLICY, verdict, proof, ask).1 == Ok(NewRequest(ask, ask.at.utc))
  {
    var after := AfterDecision(b, d).0;
    var decided := Decided(b.requests[d.id], d, d.at.utc);
    assert after.requests == b.requests[d.id := decided] && after.order == b.order;
    LatestAfterDecision(b.requests, b.order, ask.finding, d.id, decided);
    FirstActiveIsActive(after.requests, after.order, ask.finding, ask.action);
    assert forall id :: id in b.requests && id != d.id ==> !Wanted(b.requests[id], ask.finding, ask.action);
  }

  // A request newer than all others of its finding, none of them decided and none of its action: it is made.
  lemma Admitted(b: Book, ask: Ask)
    requires Indexed(b) && ask.id !in b.requests && ask.at.Aware?
    requires forall id :: id in b.requests && b.requests[id].finding == ask.finding ==>
               Active(b.requests[id].status) && b.requests[id].action != ask.action
                   && b.requests[id].requestedAt < ask.at.utc
    ensures var (after, answer) := AfterRequest(b, DEFAULT_POLICY, Some(TruePositive), Some(Verified), ask);
            var r := NewRequest(ask, ask.at.utc);
            && Indexed(after) && answer == Ok(r) && after.requests == b.requests[ask.id := r]
            && Latest(after.requests, after.order, ask.finding) == Some(r)
  {
    FirstActiveIsActive(b.requests, b.order, ask.finding, ask.action);
    LatestIsNewest(b.requests, b.order, ask.finding);
    RequestMade(b, DEFAULT_POLICY, Some(TruePositive), Some(Verified), ask);
    var after := AfterRequest(b, DEFAULT_POLICY, Some(TruePositive), Some(Verified), ask).0;
    var r := NewRequest(ask, ask.at.utc);
    assert after.events != b.events;
    assert after.order == b.order + [ask.id];
    assert after.order[..|after.order| - 1] == b.order;
    LatestSkips(b.requests, b.order, ask.finding, r);
  }

  // A request the dict's order does not reach yet plays no part in the search.
  lemma {:induction false} LatestSkips(requests: map<int, Request>, order: seq<int>, finding: int, r: Request)
    requires Known(requests, order) && r.id !in order
    ensures Known(requests[r.id := r], order)
    ensures Latest(requests[r.id := r], order, finding) == Latest(requests, order, finding)
  {
    if order != [] {
      var rest := order[..|order| - 1];
      assert order == rest + [order[|order| - 1]] && order[|order| - 1] in order;
      LatestSkips(requests, rest, finding, r);
    }
  }

  // Such a book is two requests away from the empty one: the code does not keep the gate as documented.
  lemma DecisionHiddenReachable(b1: Book, one: Ask, two: Ask)
    requires b1 == AfterRequest(EMPTY, DEFAULT_POLICY, Some(TruePositive), Some(Verified), one).0
    requires one.finding == two.finding && one.action != two.action && one.id != two.id
    requires one.at.Aware? && two.at.Aware? && one.at.utc < two.at.utc
    ensures Consistent(b1) && two.id !in b1.requests
    ensures var b2 := AfterRequest(b1, DEFAULT_POLICY, Some(TruePositive), Some(Verified), two).0;
            && Consistent(b2) && one.id in b2.requests && b2.requests[one.id] == NewRequest(one, one.at.utc)
            && Latest(b2.requests, b2.order, one.finding) == Some(NewRequest(two, two.at.utc))
  {
    StartsConsistent();
    RequestKeepsConsistent(EMPTY, DEFAULT_POLICY, Some(TruePositive), Some(Verified), one);
    Admitted(EMPTY, one);
    RequestKeepsConsistent(b1, DEFAULT_POLICY, Some(TruePositive), Some(Verified), two);
    Admitted(b1, two);
  }

  // The other failure: an action never asked for is refused, because the finding's newest request, for
  // another action, is decided.
  lemma WrongRefusal(b: Book, verdict: Option<Verdict>, proof: Option<ProofStatus>, ask: Ask)
    requires Indexed(b) && !EverRequested(b, ask.finding, ask.action)
    requires var newest := Latest(b.requests, b.order, ask.finding); newest.Some? && Terminal(newest.value.status)
    ensures AfterRequest(b, DEFAULT_POLICY, verdict, proof, ask) == (b, Err(TerminalExists))
    ensures !HasDecided(b, ask.finding, ask.action)
  {
    FirstActiveIsActive(b.requests, b.order, ask.finding, ask.action);
  }

  // One request and its decision lead there from the empty store.
  lemma WrongRefusalReachable(b1: Book, one: Ask, d: Decision, other: Action)
    requires one.at.Aware? && other != one.action
    requires b1 == AfterRequest(EMPTY, DEFAULT_POLICY, Some(TruePositive), Some(Verified), one).0
    requires d.id == one.id && Terminal(d.status) && d.at.Aware?
    ensures var b2 := AfterDecision(b1, d).0;
            && Consistent(b2) && !EverRequested(b2, one.finding, other)
            && Latest(b2.requests, b2.order, one.finding) == Some(Decided(NewRequest(one, one.at.utc), d, d.at.utc))
  {
    StartsConsistent();
    RequestKeepsConsistent(EMPTY, DEFAULT_POLICY, Some(TruePositive), Some(Verified), one);
    Admitted(EMPTY, one);
    DecisionKeepsConsistent(b1, d);
    LatestAfterDecision(b1.requests, b1.order, one.finding, one.id, Decided(NewRequest(one, one.at.utc), d, d.at.utc));
  }
}
