/**
 What the reads and writes outside the lock can spoil: whether a record's level is the number of its
 events, and whether a record only moves forward. Each theorem names exactly the writes that do it.
 */
module SlaRaces {
  import opened Wrappers
  import opened Sla
  import opened SlaConcurrent

  // ---------------------------------------------------------------- the level counts the events

  // The events of a life, with the one a check has stored the breach for and not appended yet.
  function Total(s: State, f: int, life: nat): (events: seq<Escalation>)
  {
    var holder := Holder(s);
    Of(Trail(s.trails, f), life)
    + (if holder.Stored? && holder.finding == f && holder.life == life then AsSeq(holder.event) else [])
  }

  // The stored record calls for exactly the events its life has.
  ghost predicate Matches(s: State, f: int)
    requires f in s.cells
  {
    Sane(s.cells[f].record) && Total(s, f, s.cells[f].life) == Expected(s.cells[f].record)
  }

  ghost predicate AllMatch(s: State)
  {
    forall f :: f in s.cells ==> Matches(s, f)
  }

  // The writes that would spoil it: a check that read a record breached, stores its copy and finds the breach
  // removed since; a resolution that read the record before its breach, or breached before a removal.
  predicate Harmless(s: State, m: Move)
    requires Enabled(s, m)
  {
    match m
    case Write(t) =>
      var c := ThreadAt(s, t);
      c.updated == c.read.record || c.since != Removal || c.read.record.level == 0
    case ResolveWrite(k) =>
      var c := s.calls[k];
      c.since.Nothing? || (c.since.Removal? && c.read.record.level == 0)
    case _ => true
  }

  // What has become of the events a copy called for when it was read.
  ghost predicate ReadFits(s: State, f: int, read: Cell, since: Since)
  {
    && Sane(read.record)
    && match since
       case Nothing => Total(s, f, read.life) == Expected(read.record)
       case Breach => Total(s, f, read.life) != [] && read.record.level == 0
       case Removal => Total(s, f, read.life) == []
  }

  ghost predicate ReadsFit(s: State)
  {
    && (Holder(s).Computed? ==>
          ReadFits(s, Holder(s).finding, Holder(s).read, Holder(s).since) && !Holder(s).since.Breach?)
    && (forall k :: k in s.calls && s.calls[k].Resolving? ==>
          ReadFits(s, s.calls[k].finding, s.calls[k].read, s.calls[k].since))
  }

  ghost predicate Strict(s: State)
  {
    Inv(s) && AllMatch(s) && ReadsFit(s)
  }

  // The totals of every life are the same before and after.
  ghost predicate SameTotals(s: State, after: State)
  {
    forall f, life :: Total(after, f, life) == Total(s, f, life)
  }

  lemma KeptReads(s: State, after: State)
    requires ReadsFit(s) && SameTotals(s, after)
    requires Holder(after).Computed? ==> Holder(after) == Holder(s)
    requires forall k :: k in after.calls && after.calls[k].Resolving? ==> k in s.calls && after.calls[k] == s.calls[k]
    ensures ReadsFit(after)
  {
  }

  lemma KeptMatches(s: State, after: State, f: int)
    requires SameTotals(s, after) && f in s.cells && f in after.cells && after.cells[f] == s.cells[f] && Matches(s, f)
    ensures Matches(after, f)
  {
  }

  lemma TurnStrict(s: State, m: Move)
    requires Strict(s) && Enabled(s, m) && (m.Acquire? || m.Release?)
    ensures AllMatch(After(s, m)) && ReadsFit(After(s, m))
  {
    var after := After(s, m);
    assert Holder(after) == if m.Acquire? then Holding(m.finding, m.now) else Idle;
    assert SameTotals(s, after);
    KeptReads(s, after);
    forall f | f in after.cells
      ensures Matches(after, f)
    {
      KeptMatches(s, after, f);
    }
  }

  lemma ReadStrict(s: State, t: int)
    requires Strict(s) && ThreadAt(s, t).Holding?
    ensures AllMatch(After(s, Read(t))) && ReadsFit(After(s, Read(t)))
  {
    var after := After(s, Read(t));
    ReadTotals(s, t);
    forall f | f in after.cells
      ensures Matches(after, f)
    {
      KeptMatches(s, after, f);
    }
    var f := ThreadAt(s, t).finding;
    if f in s.cells {
      assert Matches(s, f);
    }
  }

  lemma ReadTotals(s: State, t: int)
    requires Mutex(s) && ThreadAt(s, t).Holding?
    ensures var after := After(s, Read(t));
            Holder(s) == ThreadAt(s, t) && Holder(after) == ThreadAt(after, t) && SameTotals(s, after)
  {
    HolderMoves(s, t, ThreadAt(After(s, Read(t)), t));
    assert Holder(s) == ThreadAt(s, t);
  }

  // Appending turns the event that was to come into one that is there.
  lemma AppendTotals(s: State, t: int)
    requires Mutex(s) && ThreadAt(s, t).Stored?
    ensures Holder(After(s, Append(t))) == Leaving && SameTotals(s, After(s, Append(t)))
  {
    var after := After(s, Append(t));
    var c := ThreadAt(s, t);
    HolderMoves(s, t, Leaving);
    assert Holder(s) == c;
    forall f, life
      ensures Total(after, f, life) == Total(s, f, life)
    {
      if c.event.Some? && f == c.finding {
        OfOneMore(Trail(s.trails, f), Tagged(c.event.value, c.life), life);
      }
    }
  }

  lemma AppendStrict(s: State, t: int)
    requires Strict(s) && ThreadAt(s, t).Stored?
    ensures AllMatch(After(s, Append(t))) && ReadsFit(After(s, Append(t)))
  {
    var after := After(s, Append(t));
    AppendTotals(s, t);
    KeptReads(s, after);
    forall f | f in after.cells
      ensures Matches(after, f)
    {
      KeptMatches(s, after, f);
    }
  }

  lemma StartWriteStrict(s: State, k: int)
    requires Strict(s) && k in s.calls && s.calls[k].Starting?
    ensures AllMatch(After(s, StartWrite(k))) && ReadsFit(After(s, StartWrite(k)))
  {
    var after := After(s, StartWrite(k));
    var r := s.calls[k].record;
    assert CallFits(s.calls[k], s.births, s.breaches);
    assert Holder(after) == Holder(s);
    assert SameTotals(s, after);
    KeptReads(s, after);
    NoneOfUnused(Trail(s.trails, r.finding), |s.births|);
    forall f | f in after.cells
      ensures Matches(after, f)
    {
      if f != r.finding {
        KeptMatches(s, after, f);
      }
    }
  }

  // A resolution that reads a record now finds its events as the record calls for them.
  lemma ReadCallFits(s: State, after: State, k: int, f: int, at: int)
    requires ReadsFit(s) && f in s.cells && Matches(s, f) && SameTotals(s, after) && Holder(after) == Holder(s)
    requires after.calls == s.calls[k := Resolving(f, s.cells[f], at, Nothing)]
    ensures ReadsFit(after)
  {
  }

  lemma ResolveReadStrict(s: State, k: int, f: int, at: int)
    requires Strict(s) && k !in s.calls
    ensures AllMatch(After(s, ResolveRead(k, f, at))) && ReadsFit(After(s, ResolveRead(k, f, at)))
  {
    var after := After(s, ResolveRead(k, f, at));
    assert Holder(after) == Holder(s) && SameTotals(s, after);
    if f in s.cells {
      ReadCallFits(s, after, k, f, at);
    } else {
      KeptReads(s, after);
    }
    forall g | g in after.cells
      ensures Matches(after, g)
    {
      KeptMatches(s, after, g);
    }
  }

  // A resolution spoils the match exactly when it is not harmless.
  lemma ResolveWriteStrict(s: State, k: int)
    requires Strict(s) && k in s.calls && s.calls[k].Resolving?
    ensures AllMatch(After(s, ResolveWrite(k))) <==> Harmless(s, ResolveWrite(k))
    ensures ReadsFit(After(s, ResolveWrite(k)))
  {
    var after := After(s, ResolveWrite(k));
    var c := s.calls[k];
    ResolveSteps(c.read.record, c.at);
    assert ReadFits(s, c.finding, c.read, c.since);
    assert Holder(after) == Holder(s) && SameTotals(s, after);
    KeptReads(s, after);
    forall f | f in after.cells && f != c.finding
      ensures Matches(after, f)
    {
      KeptMatches(s, after, f);
    }
    assert AllMatch(after) <==> Matches(after, c.finding);
  }

  lemma RemoveStrict(s: State, f: int)
    requires Strict(s)
    ensures AllMatch(AfterRemove(s, f)) && ReadsFit(AfterRemove(s, f))
  {
    var after := AfterRemove(s, f);
    forall g, life
      ensures Total(after, g, life) == if g == f && !Pending(Holder(s), f, life) then [] else Total(s, g, life)
    {
      RemovedTotal(s, f, g, life);
    }
    forall g | g in after.cells
      ensures Matches(after, g)
    {
      assert Matches(s, g);
    }
    forall k | k in after.calls && after.calls[k].Resolving?
      ensures ReadFits(after, after.calls[k].finding, after.calls[k].read, after.calls[k].since)
    {
      assert ReadFits(s, s.calls[k].finding, s.calls[k].read, s.calls[k].since);
    }
  }

  lemma RemovedTotal(s: State, f: int, g: int, life: nat)
    requires Inv(s)
    ensures Total(AfterRemove(s, f), g, life)
         == if g == f && !Pending(Holder(s), f, life) then [] else Total(s, g, life)
  {
    var after := AfterRemove(s, f);
    assert Holder(s).Stored? ==> Holder(after) == Holder(s);
    assert Holder(after).Stored? ==> Holder(s).Stored?;
  }

  // ---------------------------------------------------------------- the write of a check

  // A check that escalates writes a breach of a life that had none, and its event is counted with it.
  lemma BreachTotals(s: State, t: int, c: Thread)
    requires Inv(s) && ThreadAt(s, t) == c && c.Computed? && c.event.Some? && c.updated != c.read.record
    requires Total(s, c.finding, c.read.life) == []
    ensures var after := AfterWrite(s, t, c);
            forall f, life :: Total(after, f, life)
              == if f == c.finding && life == c.read.life then [c.event.value] else Total(s, f, life)
  {
    HolderMoves(s, t, Stored(c.finding, c.read.life, c.event));
    assert Holder(s) == c;
  }

  lemma BreachWriteStrict(s: State, t: int, c: Thread, now: int)
    requires Strict(s) && ThreadAt(s, t) == c && c.Computed? && c.event.Some?
    requires (c.updated, c.event) == Check(c.read.record, now)
    ensures AllMatch(AfterWrite(s, t, c)) && ReadsFit(AfterWrite(s, t, c)) && Harmless(s, Write(t))
  {
    var after := AfterWrite(s, t, c);
    assert Holder(s) == c;
    CheckSteps(c.read.record, now);
    BreachTotals(s, t, c);
    HolderMoves(s, t, Stored(c.finding, c.read.life, c.event));
    forall f | f in after.cells
      ensures Matches(after, f)
    {
      assert f != c.finding ==> Matches(s, f) && CopyFits(s.cells[f], f, s.births, s.breaches);
    }
    forall k | k in after.calls && after.calls[k].Resolving?
      ensures ReadFits(after, after.calls[k].finding, after.calls[k].read, after.calls[k].since)
    {
      assert ReadFits(s, s.calls[k].finding, s.calls[k].read, s.calls[k].since);
      assert CallFits(s.calls[k], s.births, s.breaches);
    }
  }

  // A check that does not escalate spoils the match exactly when it is not harmless.
  lemma PlainWriteStrict(s: State, t: int, c: Thread, now: int)
    requires Strict(s) && ThreadAt(s, t) == c && c.Computed? && c.event.None?
    requires (c.updated, c.event) == Check(c.read.record, now)
    ensures AllMatch(AfterWrite(s, t, c)) <==> Harmless(s, Write(t))
    ensures ReadsFit(AfterWrite(s, t, c))
  {
    var after := AfterWrite(s, t, c);
    assert Holder(s) == c;
    CheckSteps(c.read.record, now);
    HolderMoves(s, t, Stored(c.finding, c.read.life, c.event));
    assert SameTotals(s, after);
    KeptReads(s, after);
    forall f | f in after.cells && (f != c.finding || c.updated == c.read.record)
      ensures Matches(after, f)
    {
      KeptMatches(s, after, f);
    }
    if c.updated != c.read.record {
      assert Expected(c.updated) == Expected(c.read.record);
      assert AllMatch(after) <==> Matches(after, c.finding);
    }
  }

  lemma WriteStrict(s: State, t: int)
    requires Strict(s) && ThreadAt(s, t).Computed?
    ensures AllMatch(After(s, Write(t))) <==> Harmless(s, Write(t))
    ensures ReadsFit(After(s, Write(t)))
  {
    var c := ThreadAt(s, t);
    assert Holder(s) == c;
    var now :| (c.updated, c.event) == Check(c.read.record, now);
    if c.event.Some? {
      BreachWriteStrict(s, t, c, now);
    } else {
      PlainWriteStrict(s, t, c, now);
    }
  }

  // ---------------------------------------------------------------- over whole runs

  lemma StepStrict(s: State, m: Move)
    requires Strict(s) && Enabled(s, m)
    ensures AllMatch(After(s, m)) <==> Harmless(s, m)
    ensures ReadsFit(After(s, m)) && Inv(After(s, m))
  {
    StepKeeps(s, m);
    match m
    case Read(t) => ReadStrict(s, t);
    case Write(t) => WriteStrict(s, t);
    case Append(t) => AppendStrict(s, t);
    case StartRead(k, f, policy, priority, at) => StartReadStrict(s, m);
    case StartWrite(k) => StartWriteStrict(s, k);
    case ResolveRead(k, f, at) => ResolveReadStrict(s, k, f, at);
    case ResolveWrite(k) => ResolveWriteStrict(s, k);
    case Remove(f) => RemoveStrict(s, f);
    case _ => TurnStrict(s, m);
  }

  lemma StartReadStrict(s: State, m: Move)
    requires Strict(s) && Enabled(s, m) && m.StartRead?
    ensures AllMatch(After(s, m)) && ReadsFit(After(s, m))
  {
    var after := After(s, m);
    assert Holder(after) == Holder(s) && SameTotals(s, after);
    KeptReads(s, after);
    forall g | g in after.cells
      ensures Matches(after, g)
    {
      KeptMatches(s, after, g);
    }
  }

  ghost predicate MatchesTo(states: seq<State>, n: nat)
    requires n < |states|
  {
    forall k :: 0 <= k <= n ==> AllMatch(states[k])
  }

  ghost predicate HarmlessTo(states: seq<State>, moves: seq<Move>, n: nat)
    requires Run(states, moves) && n <= |moves|
  {
    forall k {:trigger moves[k]} :: 0 <= k < n ==> Harmless(states[k], moves[k])
  }

  lemma MatchStep(states: seq<State>, moves: seq<Move>, n: nat)
    requires Run(states, moves) && n < |moves| && Strict(states[n])
    ensures Enabled(states[n], moves[n])
    ensures AllMatch(states[n + 1]) <==> Harmless(states[n], moves[n])
    ensures AllMatch(states[n + 1]) ==> Strict(states[n + 1])
  {
    StepStrict(states[n], moves[n]);
  }

  // In any run, the records call for exactly the events they have at all times up to a moment, just if every
  // write up to there was harmless.
  lemma {:induction false} MatchIff(states: seq<State>, moves: seq<Move>, n: nat)
    requires Run(states, moves) && n <= |moves|
    ensures MatchesTo(states, n) <==> HarmlessTo(states, moves, n)
    ensures MatchesTo(states, n) ==> Strict(states[n])
  {
    if n > 0 {
      MatchIff(states, moves, n - 1);
      if MatchesTo(states, n - 1) {
        MatchStep(states, moves, n - 1);
      }
      var m := moves[n - 1];
      assert HarmlessTo(states, moves, n) <==> HarmlessTo(states, moves, n - 1) && Harmless(states[n - 1], m);
      assert MatchesTo(states, n) <==> MatchesTo(states, n - 1) && AllMatch(states[n]);
    }
  }

  // While it lasts, and with no thread between its write and its event, the events of a record's life are
  // exactly those its breach calls for, and its level is their number.
  lemma LevelCountsEvents(states: seq<State>, moves: seq<Move>, n: nat, f: int)
    requires Run(states, moves) && n <= |moves| && HarmlessTo(states, moves, n)
    requires f in states[n].cells && !(Holder(states[n]).Stored? && Holder(states[n]).finding == f)
    ensures var cell := states[n].cells[f];
            var events := Of(Trail(states[n].trails, f), cell.life);
            Sane(cell.record) && events == Expected(cell.record) && cell.record.level == |events|
  {
    MatchIff(states, moves, n);
    assert Matches(states[n], f);
    assert Of(Trail(states[n].trails, f), states[n].cells[f].life) + []
        == Of(Trail(states[n].trails, f), states[n].cells[f].life);
  }

  // ---------------------------------------------------------------- going forward

  // A write that finds stored what was read, as if the two were one step.
  predicate Undisturbed(s: State, m: Move)
    requires Enabled(s, m)
  {
    match m
    case Write(t) =>
      var c := ThreadAt(s, t);
      c.finding in s.cells && s.cells[c.finding] == c.read
    case ResolveWrite(k) =>
      var c := s.calls[k];
      c.finding in s.cells && s.cells[c.finding] == c.read
    case _ => true
  }

  ghost predicate Progress(before: State, after: State, f: int)
  {
    f in after.cells ==>
      || (f in before.cells && before.cells[f].life == after.cells[f].life
          && Forward(before.cells[f].record, after.cells[f].record))
      || |before.births| <= after.cells[f].life
  }

  lemma UndisturbedCheck(s: State, t: int, f: int)
    requires Inv(s) && ThreadAt(s, t).Computed? && Undisturbed(s, Write(t))
    ensures Progress(s, After(s, Write(t)), f)
  {
    var c := ThreadAt(s, t);
    assert Holder(s) == c;
    var now :| (c.updated, c.event) == Check(c.read.record, now);
    CheckSteps(c.read.record, now);
  }

  lemma UndisturbedResolution(s: State, k: int, f: int)
    requires Inv(s) && k in s.calls && s.calls[k].Resolving? && Undisturbed(s, ResolveWrite(k))
    ensures Progress(s, After(s, ResolveWrite(k)), f)
  {
    assert CallFits(s.calls[k], s.births, s.breaches);
    ResolveSteps(s.calls[k].read.record, s.calls[k].at);
  }

  lemma UndisturbedStep(s: State, m: Move, f: int)
    requires Inv(s) && Enabled(s, m) && Undisturbed(s, m)
    ensures Progress(s, After(s, m), f) && |s.births| <= |After(s, m).births|
  {
    match m
    case Write(t) => UndisturbedCheck(s, t, f);
    case ResolveWrite(k) => UndisturbedResolution(s, k, f);
    case _ =>
  }

  // Between two moments with only undisturbed writes, a record of the same start has only moved forward.
  lemma {:induction false} RecordsMoveForward(states: seq<State>, moves: seq<Move>, i: nat, j: nat, f: int)
    requires Run(states, moves) && i <= j <= |moves| && f in states[i].cells
    requires forall k {:trigger moves[k]} :: i <= k < j ==> Undisturbed(states[k], moves[k])
    ensures |states[i].births| <= |states[j].births|
    ensures f in states[j].cells && states[j].cells[f].life == states[i].cells[f].life ==>
              Forward(states[i].cells[f].record, states[j].cells[f].record)
    decreases j
  {
    RunKeeps(states, moves, i);
    if i < j {
      var m := moves[j - 1];
      RecordsMoveForward(states, moves, i, j - 1, f);
      RunKeeps(states, moves, j - 1);
      UndisturbedStep(states[j - 1], m, f);
    }
  }

  // ---------------------------------------------------------------- exactly what a stale write loses

  // The record a move writes back, if it does.
  function WrittenBack(s: State, m: Move): (r: Option<Cell>)
    requires Enabled(s, m)
  {
    match m
    case Write(t) =>
      var c := ThreadAt(s, t);
      if c.updated == c.read.record then None else Some(Cell(c.updated, c.read.life))
    case ResolveWrite(k) => Some(Cell(Resolve(s.calls[k].read.record, s.calls[k].at), s.calls[k].read.life))
    case _ => None
  }

  // The stored record has a breach, a resolution or an earlier resolution's time that the other has not.
  predicate Loses(stored: Record, written: Record)
  {
    || (stored.breachedAt.Some? && written.breachedAt.None?)
    || (stored.status == Resolved && written.status != Resolved)
    || (stored.resolvedAt.Some? && written.resolvedAt.Some? && stored.resolvedAt != written.resolvedAt)
  }

  lemma BackwardMeansLoss(a: Cell, b: Cell, f: int, births: seq<Record>, breaches: map<nat, int>)
    requires CopyFits(a, f, births, breaches) && CopyFits(b, f, births, breaches) && a.life == b.life
    ensures !Forward(a.record, b.record) <==> Loses(a.record, b.record)
  {
  }

  lemma WrittenCopy(s: State, m: Move, f: int)
    requires Inv(s) && Enabled(s, m) && f in s.cells
    requires WrittenBack(s, m).Some? && WrittenBack(s, m).value.record.finding == f
    requires WrittenBack(s, m).value.life == s.cells[f].life
    ensures !Forward(s.cells[f].record, WrittenBack(s, m).value.record)
            <==> Loses(s.cells[f].record, WrittenBack(s, m).value.record)
  {
    var b := WrittenBack(s, m).value;
    if m.Write? {
      var c := ThreadAt(s, m.thread);
      assert Holder(s) == c;
      var now :| (c.updated, c.event) == Check(c.read.record, now);
      CheckedCopy(c.read, c.finding, s.births, s.breaches, now);
      if c.event.Some? {
        var later := s.breaches[c.read.life := c.event.value.at];
        BreachKeepsCopy(s.cells[f], f, s.births, s.breaches, c.read.life, c.event.value.at);
        BackwardMeansLoss(s.cells[f], b, f, s.births, later);
      } else {
        BackwardMeansLoss(s.cells[f], b, f, s.births, s.breaches);
      }
    } else {
      assert CallFits(s.calls[m.call], s.births, s.breaches);
      ResolveSteps(s.calls[m.call].read.record, s.calls[m.call].at);
      BackwardMeansLoss(s.cells[f], b, f, s.births, s.breaches);
    }
  }

  lemma WrittenFinding(s: State, m: Move)
    requires Inv(s) && Enabled(s, m) && WrittenBack(s, m).Some?
    ensures var b := WrittenBack(s, m).value;
            && b.record.finding in After(s, m).cells && After(s, m).cells[b.record.finding] == b
            && forall f :: f != b.record.finding ==>
                 (f in After(s, m).cells <==> f in s.cells) && (f in s.cells ==> After(s, m).cells[f] == s.cells[f])
  {
    if m.Write? {
      var c := ThreadAt(s, m.thread);
      assert Holder(s) == c;
      var now :| (c.updated, c.event) == Check(c.read.record, now);
      CheckSteps(c.read.record, now);
    } else {
      assert CallFits(s.calls[m.call], s.births, s.breaches);
      ResolveSteps(s.calls[m.call].read.record, s.calls[m.call].at);
    }
  }

  // In any run, a record of the same start goes backwards in a step exactly if the step writes a copy that
  // has not the breach, the resolution or the first resolution's time of the record stored.
  lemma BackwardsIff(states: seq<State>, moves: seq<Move>, n: nat, f: int)
    requires Run(states, moves) && n < |moves|
    requires f in states[n].cells && f in states[n + 1].cells && states[n].cells[f].life == states[n + 1].cells[f].life
    ensures Enabled(states[n], moves[n])
    ensures var written := WrittenBack(states[n], moves[n]);
            !Forward(states[n].cells[f].record, states[n + 1].cells[f].record) <==>
            written.Some? && written.value.record.finding == f && Loses(states[n].cells[f].record, written.value.record)
  {
    RunKeeps(states, moves, n);
    var s, m := states[n], moves[n];
    var written := WrittenBack(s, m);
    if written.Some? {
      WrittenFinding(s, m);
      if written.value.record.finding == f {
        WrittenCopy(s, m, f);
      }
    } else {
      assert m.StartWrite? ==> CallFits(s.calls[m.call], s.births, s.breaches);
      assert CopyFits(s.cells[f], f, s.births, s.breaches);
      assert After(s, m).cells[f] == s.cells[f];
    }
  }
}
