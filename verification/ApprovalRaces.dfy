/**
 Requests and decisions that check and save at different times, as the routes run them without a lock: a
 call looks at the store, and what it then saves rests on what it saw. The store's history stays consistent
 exactly as long as every save still finds what its check saw.
 */
module ApprovalRaces {
  import opened Wrappers
  import opened Approval

  // A call past its checks: a request to be saved, or a decision on a request as it was read.
  datatype Call = Asking(request: Request) | Deciding(request: Request, decision: Decision)

  datatype State = State(book: Book, calls: map<int, Call>)

  datatype Move =
    | CheckAsk(call: int, policy: Policy, verdict: Option<Verdict>, proof: Option<ProofStatus>, ask: Ask)
    | SaveAsk(call: int)
    | CheckDecision(call: int, decision: Decision)
    | SaveDecision(call: int)
    | Remove(findings: set<int>)

  const START := State(EMPTY, map[])

  // The id of a new request is that of no request and of no call under way.
  ghost predicate Fresh(s: State, id: int)
  {
    id !in s.book.requests && forall k :: k in s.calls ==> s.calls[k].request.id != id
  }

  ghost predicate Enabled(s: State, m: Move)
  {
    && Known(s.book.requests, s.book.order)
    && match m
       case CheckAsk(k, _, _, _, ask) => k !in s.calls && Fresh(s, ask.id)
       case SaveAsk(k) => k in s.calls && s.calls[k].Asking?
       case CheckDecision(k, d) => k !in s.calls
       case SaveDecision(k) => k in s.calls && s.calls[k].Deciding?
       case Remove(_) => true
  }

  function DecisionEvent(r: Request, d: Decision, now: int): (e: Event)
  {
    Event(r.id, r.finding, Some(r.status), d.status, d.actor, d.reason, now)
  }

  function Stored(b: Book, r: Request, e: Event): (after: Book)
  {
    Recorded(Saved(b, r), e)
  }

  // The time of a decision that has passed its checks.
  function Clock(d: Decision): (now: int)
  {
    if d.at.Aware? then d.at.utc else 0
  }

  function After(s: State, m: Move): (after: State)
    requires Enabled(s, m)
  {
    match m
    case CheckAsk(k, policy, verdict, proof, ask) =>
      var answer := AfterRequest(s.book, policy, verdict, proof, ask).1;
      if answer.Err? || FirstActive(s.book.requests, s.book.order, ask.finding, ask.action).Some? then s
      else s.(calls := s.calls[k := Asking(answer.value)])
    case SaveAsk(k) =>
      var r := s.calls[k].request;
      State(Stored(s.book, r, NewEvent(r)), s.calls - {k})
    case CheckDecision(k, d) =>
      if AfterDecision(s.book, d).1.Err? then s
      else s.(calls := s.calls[k := Deciding(s.book.requests[d.id], d)])
    case SaveDecision(k) =>
      var r, d := s.calls[k].request, s.calls[k].decision;
      State(Stored(s.book, Decided(r, d, Clock(d)), DecisionEvent(r, d, Clock(d))), s.calls - {k})
    case Remove(findings) => s.(book := Removed(s.book, findings))
  }

  ghost predicate Run(states: seq<State>, moves: seq<Move>)
  {
    && |states| == |moves| + 1 && states[0] == START
    && forall i {:trigger moves[i]} :: 0 <= i < |moves| ==>
         Enabled(states[i], moves[i]) && states[i + 1] == After(states[i], moves[i])
  }

  // ---------------------------------------------------------------- saves that still find what was seen

  // No active request has come up since the check, or the request is as it was read: of the same status in the
  // same cycle of review.
  ghost predicate Timely(s: State, m: Move)
    requires Enabled(s, m)
  {
    match m
    case SaveAsk(k) =>
      var r := s.calls[k].request;
      forall id :: id in s.book.requests ==> !Wanted(s.book.requests[id], r.finding, r.action)
    case SaveDecision(k) =>
      var r := s.calls[k].request;
      && r.id in s.book.requests
      && s.book.requests[r.id].status == r.status && s.book.requests[r.id].version == r.version
    case _ => true
  }

  // What never changes about a request.
  predicate SameAsk(a: Request, b: Request)
  {
    && a.id == b.id && a.finding == b.finding && a.action == b.action && a.requestedAt == b.requestedAt
    && a.requestedBy == b.requestedBy && a.run == b.run
  }

  ghost predicate CallFits(b: Book, c: Call)
  {
    match c
    case Asking(r) =>
      r.status == Pending && r.version == 1 && r.reviewedBy == None && r.reviewedAt == None && r.id !in b.requests
    case Deciding(r, d) =>
      && Allowed(r.status, d.status) && d.at.Aware? && d.id == r.id
      && (r.id in b.requests ==> SameAsk(r, b.requests[r.id]))
  }

  // Calls for new requests have an id each.
  ghost predicate Apart(calls: map<int, Call>)
  {
    forall k, l :: k in calls && l in calls && k != l && calls[k].Asking? ==> calls[k].request.id != calls[l].request.id
  }

  ghost predicate Inv(s: State)
  {
    Consistent(s.book) && Apart(s.calls) && forall k :: k in s.calls ==> CallFits(s.book, s.calls[k])
  }

  // ---------------------------------------------------------------- one step

  lemma CheckAskKeeps(s: State, m: Move)
    requires Inv(s) && Enabled(s, m) && m.CheckAsk?
    ensures Inv(After(s, m))
  {
    FirstActiveIsActive(s.book.requests, s.book.order, m.ask.finding, m.ask.action);
  }

  lemma SaveAskIff(s: State, k: int)
    requires Inv(s) && Enabled(s, SaveAsk(k))
    ensures Consistent(After(s, SaveAsk(k)).book) <==> Timely(s, SaveAsk(k))
    ensures Timely(s, SaveAsk(k)) ==> Inv(After(s, SaveAsk(k)))
  {
    var r, after := s.calls[k].request, After(s, SaveAsk(k));
    assert CallFits(s.book, s.calls[k]) && r.id !in s.book.events;
    assert [] + [NewEvent(r)] == [NewEvent(r)];
    assert after.book.requests == s.book.requests[r.id := r]
           && after.book.events == s.book.events[r.id := [NewEvent(r)]];
    if Timely(s, SaveAsk(k)) {
      ToldFirst(r);
      OneMoreActive(s.book, after.book, r);
      assert Indexed(after.book) && AllTold(after.book);
      forall l | l in after.calls
        ensures CallFits(after.book, after.calls[l])
      {
        assert CallFits(s.book, s.calls[l]) && s.calls[k].request.id != s.calls[l].request.id;
      }
    } else {
      var id :| id in s.book.requests && Wanted(s.book.requests[id], r.finding, r.action);
      assert !OneActiveEach(after.book) by {
        assert id in after.book.requests && r.id in after.book.requests && id != r.id;
        assert Active(after.book.requests[r.id].status) && Wanted(after.book.requests[id], r.finding, r.action);
      }
    }
  }

  // A trail with an event at its end that does not follow on it, or that leaves the cycles miscounted.
  lemma ToldIff(r: Request, now: Request, story: seq<Event>, d: Decision)
    requires Told(now, story) && SameAsk(r, now) && Allowed(r.status, d.status) && d.at.Aware?
    ensures Told(Decided(r, d, d.at.utc), story + [DecisionEvent(r, d, d.at.utc)]) <==>
            now.status == r.status && now.version == r.version
  {
    var e := DecisionEvent(r, d, d.at.utc);
    var longer := story + [e];
    assert longer[|story|] == e && longer[|story| - 1] == story[|story| - 1];
    if now.status == r.status {
      ToldOnward(now, story, d, e);
      assert longer[..|longer| - 1] == story;
    } else {
      assert longer[|story|].previous != Some(longer[|story| - 1].status);
      assert !Chained(longer);
    }
  }

  lemma SaveDecisionIff(s: State, k: int)
    requires Inv(s) && Enabled(s, SaveDecision(k))
    ensures Consistent(After(s, SaveDecision(k)).book) <==> Timely(s, SaveDecision(k))
    ensures Timely(s, SaveDecision(k)) ==> Inv(After(s, SaveDecision(k)))
  {
    var r, d, after := s.calls[k].request, s.calls[k].decision, After(s, SaveDecision(k));
    assert CallFits(s.book, s.calls[k]);
    var updated, e := Decided(r, d, d.at.utc), DecisionEvent(r, d, d.at.utc);
    assert after.book.requests == s.book.requests[r.id := updated];
    assert Trail(after.book.events, r.id) == Trail(s.book.events, r.id) + [e];
    if r.id in s.book.requests {
      ToldIff(r, s.book.requests[r.id], Trail(s.book.events, r.id), d);
      if Timely(s, SaveDecision(k)) {
        DecisionKeepsConsistent(s.book, d);
        assert updated == Decided(s.book.requests[r.id], d, d.at.utc);
        assert after.book == AfterDecision(s.book, d).0;
        DecidedCallsFit(s, after);
      } else {
        assert !AllTold(after.book);
      }
    } else {
      assert Trail(after.book.events, r.id)[0].previous != None;
      assert !Told(updated, Trail(after.book.events, r.id));
    }
  }

  // Calls still fit when a stored request keeps what it was asked for.
  lemma DecidedCallsFit(s: State, after: State)
    requires Inv(s) && after.calls.Keys <= s.calls.Keys && forall k :: k in after.calls ==> after.calls[k] == s.calls[k]
    requires after.book.requests.Keys == s.book.requests.Keys && Consistent(after.book)
    requires forall id :: id in s.book.requests ==> SameAsk(s.book.requests[id], after.book.requests[id])
    ensures Inv(after)
  {
    forall k | k in after.calls
      ensures CallFits(after.book, after.calls[k])
    {
      assert CallFits(s.book, s.calls[k]);
    }
  }

  lemma RemoveKeeps(s: State, findings: set<int>)
    requires Inv(s) && Enabled(s, Remove(findings))
    ensures Inv(After(s, Remove(findings)))
  {
    RemovalKeepsConsistent(s.book, findings);
    var after := After(s, Remove(findings));
    forall k | k in after.calls
      ensures CallFits(after.book, after.calls[k])
    {
      assert CallFits(s.book, s.calls[k]);
    }
  }

  lemma StepIff(s: State, m: Move)
    requires Inv(s) && Enabled(s, m)
    ensures Consistent(After(s, m).book) <==> Timely(s, m)
    ensures Timely(s, m) ==> Inv(After(s, m))
  {
    match m
    case CheckAsk(_, _, _, _, _) => CheckAskKeeps(s, m);
    case SaveAsk(k) => SaveAskIff(s, k);
    case CheckDecision(k, d) =>
    case SaveDecision(k) => SaveDecisionIff(s, k);
    case Remove(findings) => RemoveKeeps(s, findings);
  }

  // ---------------------------------------------------------------- whole runs

  ghost predicate ConsistentTo(states: seq<State>, n: nat)
    requires n < |states|
  {
    forall i :: 0 <= i <= n ==> Consistent(states[i].book)
  }

  ghost predicate TimelyTo(states: seq<State>, moves: seq<Move>, n: nat)
    requires Run(states, moves) && n <= |moves|
  {
    forall i {:trigger moves[i]} :: 0 <= i < n ==> Timely(states[i], moves[i])
  }

  lemma StartFits()
    ensures Inv(START)
  {
    StartsConsistent();
  }

  lemma OneMoveMore(states: seq<State>, moves: seq<Move>, n: nat)
    requires Run(states, moves) && 0 < n <= |moves|
    ensures Enabled(states[n - 1], moves[n - 1]) && states[n] == After(states[n - 1], moves[n - 1])
    ensures TimelyTo(states, moves, n) <==> TimelyTo(states, moves, n - 1) && Timely(states[n - 1], moves[n - 1])
    ensures ConsistentTo(states, n) <==> ConsistentTo(states, n - 1) && Consistent(states[n].book)
  {
    assert moves[n - 1] == moves[n - 1];
  }

  // In any run the history has been consistent up to a moment just if every save up to there was timely.
  lemma {:induction false} ConsistentIff(states: seq<State>, moves: seq<Move>, n: nat)
    requires Run(states, moves) && n <= |moves|
    ensures ConsistentTo(states, n) <==> TimelyTo(states, moves, n)
    ensures ConsistentTo(states, n) ==> Inv(states[n])
  {
    if n == 0 {
      StartFits();
    } else {
      ConsistentIff(states, moves, n - 1);
      var m := moves[n - 1];
      OneMoveMore(states, moves, n);
      if ConsistentTo(states, n - 1) {
        StepIff(states[n - 1], m);
      }
    }
  }

  predicate Checks(m: Move, k: int)
  {
    (m.CheckAsk? || m.CheckDecision?) && m.call == k
  }

  predicate Saves(m: Move, k: int)
  {
    (m.SaveAsk? || m.SaveDecision?) && m.call == k
  }

  // Every save rests on a check of its own: the same call checked before, and has not saved since.
  lemma {:induction false} SaveHasOwnCheck(states: seq<State>, moves: seq<Move>, n: nat, k: int) returns (i: nat)
    requires Run(states, moves) && n <= |moves| && k in states[n].calls
    ensures i < n && Checks(moves[i], k)
    ensures k in states[i + 1].calls && states[i + 1].calls[k] == states[n].calls[k]
    ensures forall j {:trigger moves[j]} :: i < j < n ==> !Saves(moves[j], k)
    decreases n
  {
    CallAt(states, moves, n, k);
    if Checks(moves[n - 1], k) {
      i := n - 1;
    } else {
      i := SaveHasOwnCheck(states, moves, n - 1, k);
    }
  }

  lemma CallAt(states: seq<State>, moves: seq<Move>, n: nat, k: int)
    requires Run(states, moves) && n <= |moves| && k in states[n].calls
    ensures n > 0 && !Saves(moves[n - 1], k)
    ensures Checks(moves[n - 1], k) || (k in states[n - 1].calls && states[n - 1].calls[k] == states[n].calls[k])
  {
    assert n > 0;
    OneMoveMore(states, moves, n);
    CallStays(states[n - 1], moves[n - 1], k);
  }

  lemma CallStays(s: State, m: Move, k: int)
    requires Enabled(s, m) && k in After(s, m).calls
    ensures !Saves(m, k) && (Checks(m, k) || (k in s.calls && s.calls[k] == After(s, m).calls[k]))
  {
  }

  // ---------------------------------------------------------------- what comes of saves that are not

  // One more move at the end of a run.
  lemma Extend(states: seq<State>, moves: seq<Move>, m: Move) returns (longer: seq<State>, more: seq<Move>)
    requires Run(states, moves) && Enabled(states[|moves|], m)
    ensures Run(longer, more) && |more| == |moves| + 1
    ensures longer[|more|] == After(states[|moves|], m) && longer[|moves|] == states[|moves|]
  {
    longer, more := states + [After(states[|moves|], m)], moves + [m];
    forall i | 0 <= i < |more|
      ensures Enabled(longer[i], more[i]) && longer[i + 1] == After(longer[i], more[i])
    {
      if i < |moves| {
        assert moves[i] == more[i];
      }
    }
  }

  function Proven(call: int, ask: Ask): (m: Move)
  {
    CheckAsk(call, DEFAULT_POLICY, Some(TruePositive), Some(Verified), ask)
  }

  function Made(ask: Ask): (r: Request)
    requires ask.at.Aware?
  {
    NewRequest(ask, ask.at.utc)
  }

  // The store with just this request.
  function Single(ask: Ask): (b: Book)
    requires ask.at.Aware?
  {
    Book(map[ask.id := Made(ask)], [ask.id], map[ask.id := [NewEvent(Made(ask))]])
  }

  // A run that has checked one request, and another that has saved it.
  lemma CheckedRun(ask: Ask) returns (states: seq<State>, moves: seq<Move>)
    requires ask.at.Aware?
    ensures Run(states, moves) && states[|moves|] == State(EMPTY, map[1 := Asking(Made(ask))])
  {
    states, moves := Extend([START], [], Proven(1, ask));
  }

  lemma SavedRun(ask: Ask) returns (states: seq<State>, moves: seq<Move>)
    requires ask.at.Aware?
    ensures Run(states, moves) && states[|moves|] == State(Single(ask), map[])
  {
    states, moves := CheckedRun(ask);
    states, moves := Extend(states, moves, SaveAsk(1));
    assert [] + [ask.id] == [ask.id] && [] + [NewEvent(Made(ask))] == [NewEvent(Made(ask))];
    assert states[|moves|].calls == map[];
  }

  // Two requests for one finding and one action that both check before either saves: both are active.
  lemma TwoActive(one: Ask, two: Ask)
    requires one.at.Aware? && two.at.Aware? && one.id != two.id && one.finding == two.finding
             && one.action == two.action
    ensures exists states: seq<State>, moves: seq<Move> ::
              && Run(states, moves) && var requests := states[|moves|].book.requests;
              && one.id in requests && Wanted(requests[one.id], one.finding, one.action)
              && two.id in requests && Wanted(requests[two.id], one.finding, one.action)
  {
    var states, moves := CheckedRun(one);
    states, moves := Extend(states, moves, Proven(2, two));
    states, moves := Extend(states, moves, SaveAsk(1));
    states, moves := Extend(states, moves, SaveAsk(2));
  }

  // Two decisions on one request that both check before either saves: an approval is overwritten by a
  // rejection.
  lemma ApprovalOverruled(ask: Ask, yes: Decision, no: Decision)
    requires ask.at.Aware? && yes.at.Aware? && no.at.Aware? && yes.id == no.id == ask.id
    requires yes.status == Approved && no.status == Rejected
    ensures exists states: seq<State>, moves: seq<Move> ::
              && Run(states, moves) && |moves| > 0
              && ask.id in states[|moves| - 1].book.requests && ask.id in states[|moves|].book.requests
              && states[|moves| - 1].book.requests[ask.id].status == Approved
              && states[|moves|].book.requests[ask.id].status == Rejected
  {
    var states, moves := SavedRun(ask);
    states, moves := Extend(states, moves, CheckDecision(2, yes));
    states, moves := Extend(states, moves, CheckDecision(3, no));
    states, moves := Extend(states, moves, SaveDecision(2));
    states, moves := Extend(states, moves, SaveDecision(3));
  }
}
