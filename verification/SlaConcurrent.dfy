/**
 Any number of threads checking SLAs at once. A check takes the one lock, reads the record, writes the
 checked record, appends the escalation event and gives the lock back. Starting and resolving an SLA take
 no lock: each reads the record and writes it later, with anything in between. Removing a finding's
 records is one step. Each start gives the record a new life, a ghost number that lets copies of the
 record and its events be told apart by the start they belong to.
 */
module SlaConcurrent {
  import opened Wrappers
  import opened Sla

  datatype Cell = Cell(record: Record, life: nat)

  datatype Tagged = Tagged(event: Escalation, life: nat)

  // What has happened last to the breach of a life since a copy of its record was read.
  datatype Since = Nothing | Breach | Removal

  datatype Thread =
    | Idle
    | Holding(finding: int, now: int)
    | Computed(finding: int, read: Cell, updated: Record, event: Option<Escalation>, since: Since)
    | Stored(finding: int, life: nat, event: Option<Escalation>)
    | Leaving

  // A start or a resolution that has read and not written yet.
  datatype Call =
    | Starting(record: Record)
    | Resolving(finding: int, read: Cell, at: int, since: Since)

  // births holds each life's first record, breaches the time of each life's breach.
  datatype State = State(lock: Option<int>, threads: map<int, Thread>, calls: map<int, Call>,
                         cells: map<int, Cell>, trails: map<int, seq<Tagged>>,
                         births: seq<Record>, breaches: map<nat, int>)

  datatype Move =
    | Acquire(thread: int, finding: int, now: int)
    | Read(thread: int)
    | Write(thread: int)
    | Append(thread: int)
    | Release(thread: int)
    | StartRead(call: int, finding: int, policy: Policy, priority: Priority, at: int)
    | StartWrite(call: int)
    | ResolveRead(call: int, finding: int, at: int)
    | ResolveWrite(call: int)
    | Remove(finding: int)

  const START := State(None, map[], map[], map[], map[], [], map[])

  function ThreadAt(s: State, t: int): (c: Thread)
  {
    if t in s.threads then s.threads[t] else Idle
  }

  // What the thread that has the lock is doing.
  function Holder(s: State): (c: Thread)
  {
    if s.lock.None? then Idle else ThreadAt(s, s.lock.value)
  }

  function Trail(trails: map<int, seq<Tagged>>, f: int): (trail: seq<Tagged>)
  {
    if f in trails then trails[f] else []
  }

  predicate Enabled(s: State, m: Move)
  {
    match m
    case Acquire(t, f, now) => s.lock.None? && ThreadAt(s, t).Idle?
    case Read(t) => ThreadAt(s, t).Holding?
    case Write(t) => ThreadAt(s, t).Computed?
    case Append(t) => ThreadAt(s, t).Stored?
    case Release(t) => ThreadAt(s, t).Leaving?
    case StartRead(k, f, policy, priority, at) => k !in s.calls
    case StartWrite(k) => k in s.calls && s.calls[k].Starting?
    case ResolveRead(k, f, at) => k !in s.calls
    case ResolveWrite(k) => k in s.calls && s.calls[k].Resolving?
    case Remove(f) => true
  }

  function Goes(s: State, t: int, to: Thread): (after: State)
  {
    s.(threads := s.threads[t := to])
  }

  function AfterRead(s: State, t: int, f: int, now: int): (after: State)
  {
    if f !in s.cells then Goes(s, t, Leaving)
    else
      var (updated, event) := Check(s.cells[f].record, now);
      Goes(s, t, Computed(f, s.cells[f], updated, event, Nothing))
  }

  // Resolutions under way that read this life before its breach take note of it.
  function NoteBreach(calls: map<int, Call>, f: int, life: nat): (after: map<int, Call>)
  {
    map k | k in calls ::
      if calls[k].Resolving? && calls[k].finding == f && calls[k].read.life == life then calls[k].(since := Breach)
      else calls[k]
  }

  function AfterWrite(s: State, t: int, c: Thread): (after: State)
    requires c.Computed?
  {
    var next := Goes(s, t, Stored(c.finding, c.read.life, c.event));
    if c.updated == c.read.record then next
    else
      var stored := next.(cells := s.cells[c.finding := Cell(c.updated, c.read.life)]);
      if c.event.None? then stored
      else stored.(breaches := s.breaches[c.read.life := c.event.value.at],
                   calls := NoteBreach(s.calls, c.finding, c.read.life))
  }

  function AfterAppend(s: State, t: int, c: Thread): (after: State)
    requires c.Stored?
  {
    var next := Goes(s, t, Leaving);
    if c.event.None? then next
    else next.(trails := s.trails[c.finding := Trail(s.trails, c.finding) + [Tagged(c.event.value, c.life)]])
  }

  function AfterStartWrite(s: State, k: int, r: Record): (after: State)
  {
    s.(cells := s.cells[r.finding := Cell(r, |s.births|)], births := s.births + [r], calls := s.calls - {k})
  }

  // The life whose event has still to be appended to a finding's trail.
  predicate Pending(holder: Thread, f: int, life: nat)
  {
    holder.Stored? && holder.finding == f && holder.life == life && holder.event.Some?
  }

  // A removal takes the breaches of the finding away, except one whose event is still to come.
  function NoteRemoval(calls: map<int, Call>, f: int, holder: Thread): (after: map<int, Call>)
  {
    map k | k in calls ::
      if calls[k].Resolving? && calls[k].finding == f && !Pending(holder, f, calls[k].read.life)
      then calls[k].(since := Removal) else calls[k]
  }

  function AfterRemove(s: State, f: int): (after: State)
  {
    var threads := if Holder(s).Computed? && Holder(s).finding == f && s.lock.Some?
                   then s.threads[s.lock.value := Holder(s).(since := Removal)] else s.threads;
    s.(cells := s.cells - {f}, trails := s.trails - {f}, threads := threads,
        calls := NoteRemoval(s.calls, f, Holder(s)))
  }

  function After(s: State, m: Move): (after: State)
    requires Enabled(s, m)
  {
    match m
    case Acquire(t, f, now) => Goes(s, t, Holding(f, now)).(lock := Some(t))
    case Read(t) => AfterRead(s, t, ThreadAt(s, t).finding, ThreadAt(s, t).now)
    case Write(t) => AfterWrite(s, t, ThreadAt(s, t))
    case Append(t) => AfterAppend(s, t, ThreadAt(s, t))
    case Release(t) => Goes(s, t, Idle).(lock := None)
    case StartRead(k, f, policy, priority, at) =>
      if f in s.cells && s.cells[f].record.priority == priority then s
      else s.(calls := s.calls[k := Starting(Create(policy, f, priority, at))])
    case StartWrite(k) => AfterStartWrite(s, k, s.calls[k].record)
    case ResolveRead(k, f, at) =>
      if f !in s.cells then s else s.(calls := s.calls[k := Resolving(f, s.cells[f], at, Nothing)])
    case ResolveWrite(k) =>
      var c := s.calls[k];
      s.(cells := s.cells[c.finding := Cell(Resolve(c.read.record, c.at), c.read.life)], calls := s.calls - {k})
    case Remove(f) => AfterRemove(s, f)
  }

  ghost predicate Run(states: seq<State>, moves: seq<Move>)
  {
    && |states| == |moves| + 1 && states[0] == START
    && forall i {:trigger moves[i]} :: 0 <= i < |moves| ==>
         Enabled(states[i], moves[i]) && states[i + 1] == After(states[i], moves[i])
  }

  // ---------------------------------------------------------------- the invariant

  // The events of one life, in order.
  function Of(trail: seq<Tagged>, life: nat): (events: seq<Escalation>)
  {
    if trail == [] then []
    else
      var last := trail[|trail| - 1];
      Of(trail[..|trail| - 1], life) + (if last.life == life then [last.event] else [])
  }

  ghost predicate Mutex(s: State)
  {
    forall t :: !ThreadAt(s, t).Idle? <==> s.lock == Some(t)
  }

  // A copy of a record is of its life: what the start fixed is unchanged, and so is the time of the breach.
  ghost predicate CopyFits(c: Cell, f: int, births: seq<Record>, breaches: map<nat, int>)
  {
    && c.life < |births| && Sane(c.record) && c.record.finding == f
    && births[c.life].finding == f && births[c.life].priority == c.record.priority
    && births[c.life].dueAt == c.record.dueAt
    && (c.record.breachedAt.Some? ==> c.life in breaches && breaches[c.life] == c.record.breachedAt.value)
  }

  // A copy that a check may still find active and due is of a life not breached yet.
  ghost predicate Unspent(c: Cell, breaches: map<nat, int>)
  {
    c.record.status == Active ==> c.life !in breaches
  }

  ghost predicate CellsFit(cells: map<int, Cell>, births: seq<Record>, breaches: map<nat, int>)
  {
    forall f :: f in cells ==> CopyFits(cells[f], f, births, breaches) && Unspent(cells[f], breaches)
  }

  ghost predicate CallFits(c: Call, births: seq<Record>, breaches: map<nat, int>)
  {
    match c
    case Starting(r) => Sane(r) && r.breachedAt.None?
    case Resolving(f, read, at, since) => CopyFits(read, f, births, breaches)
  }

  ghost predicate CallsFit(calls: map<int, Call>, births: seq<Record>, breaches: map<nat, int>)
  {
    forall k :: k in calls ==> CallFits(calls[k], births, breaches)
  }

  ghost predicate HolderFits(holder: Thread, trails: map<int, seq<Tagged>>, births: seq<Record>,
      breaches: map<nat, int>)
  {
    match holder
    case Computed(f, read, updated, event, since) =>
      && CopyFits(read, f, births, breaches) && Unspent(read, breaches)
      && exists now :: (updated, event) == Check(read.record, now)
    case Stored(f, life, event) =>
      life < |births| && (event.Some? ==> life in breaches && Of(Trail(trails, f), life) == [])
    case _ => true
  }

  ghost predicate TrailFits(trail: seq<Tagged>, births: seq<Record>, breaches: map<nat, int>)
  {
    && (forall k :: 0 <= k < |trail| ==> trail[k].life < |births|)
    && forall life :: |Of(trail, life)| <= 1 && (Of(trail, life) != [] ==> life in breaches)
  }

  ghost predicate TrailsFit(trails: map<int, seq<Tagged>>, births: seq<Record>, breaches: map<nat, int>)
  {
    forall f :: f in trails ==> TrailFits(trails[f], births, breaches)
  }

  ghost predicate Born(births: seq<Record>, breaches: map<nat, int>)
  {
    forall life :: life in breaches ==> life < |births|
  }

  ghost predicate Inv(s: State)
  {
    && Mutex(s) && Born(s.births, s.breaches)
    && CellsFit(s.cells, s.births, s.breaches) && CallsFit(s.calls, s.births, s.breaches)
    && HolderFits(Holder(s), s.trails, s.births, s.breaches) && TrailsFit(s.trails, s.births, s.breaches)
  }

  lemma {:induction false} NoneOfUnused(trail: seq<Tagged>, life: nat)
    requires forall k :: 0 <= k < |trail| ==> trail[k].life < life
    ensures Of(trail, life) == []
  {
    if trail != [] {
      NoneOfUnused(trail[..|trail| - 1], life);
    }
  }

  lemma OfOneMore(trail: seq<Tagged>, e: Tagged, life: nat)
    ensures Of(trail + [e], life) == Of(trail, life) + (if e.life == life then [e.event] else [])
  {
    assert (trail + [e])[..|trail|] == trail;
  }

  // ---------------------------------------------------------------- each move keeps it

  lemma HolderMoves(s: State, t: int, to: Thread)
    requires Mutex(s) && s.lock == Some(t) && !to.Idle?
    ensures Mutex(Goes(s, t, to)) && Holder(Goes(s, t, to)) == to
  {
    assert forall u :: ThreadAt(Goes(s, t, to), u) == if u == t then to else ThreadAt(s, u);
  }

  lemma TurnKeeps(s: State, m: Move)
    requires Inv(s) && Enabled(s, m) && (m.Acquire? || m.Release?)
    ensures Inv(After(s, m))
  {
    var after := After(s, m);
    assert forall u :: u != m.thread ==> ThreadAt(after, u) == ThreadAt(s, u);
  }

  // The breach of a life that has none yet touches no copy of a record but the one written.
  lemma BreachKeepsCopy(c: Cell, f: int, births: seq<Record>, breaches: map<nat, int>, life: nat, at: int)
    requires CopyFits(c, f, births, breaches) && life !in breaches
    ensures CopyFits(c, f, births, breaches[life := at])
  {
  }

  lemma CheckedCopy(c: Cell, f: int, births: seq<Record>, breaches: map<nat, int>, now: int)
    requires CopyFits(c, f, births, breaches) && Unspent(c, breaches)
    ensures var (updated, event) := Check(c.record, now);
            var later := if event.None? then breaches else breaches[c.life := event.value.at];
            && CopyFits(Cell(updated, c.life), f, births, later) && Unspent(Cell(updated, c.life), later)
            && (event.Some? ==> updated != c.record && c.life !in breaches)
  {
    CheckSteps(c.record, now);
  }

  lemma WriteKeepsCells(cells: map<int, Cell>, births: seq<Record>, breaches: map<nat, int>, c: Cell, f: int, at: int)
    requires CellsFit(cells, births, breaches) && c.life < |births| && births[c.life].finding == f
    requires c.life !in breaches
    requires CopyFits(c, f, births, breaches[c.life := at]) && Unspent(c, breaches[c.life := at])
    ensures CellsFit(cells[f := c], births, breaches[c.life := at])
  {
    forall g | g in cells && g != f
      ensures CopyFits(cells[g], g, births, breaches[c.life := at]) && Unspent(cells[g], breaches[c.life := at])
    {
      BreachKeepsCopy(cells[g], g, births, breaches, c.life, at);
    }
  }

  lemma BreachKeepsCalls(calls: map<int, Call>, births: seq<Record>, breaches: map<nat, int>, f: int, life: nat,
      at: int)
    requires CallsFit(calls, births, breaches) && life !in breaches
    ensures CallsFit(NoteBreach(calls, f, life), births, breaches[life := at])
  {
    forall k | k in calls
      ensures CallFits(NoteBreach(calls, f, life)[k], births, breaches[life := at])
    {
      if calls[k].Resolving? {
        BreachKeepsCopy(calls[k].read, calls[k].finding, births, breaches, life, at);
      }
    }
  }

  lemma BreachKeepsTrails(trails: map<int, seq<Tagged>>, births: seq<Record>, breaches: map<nat, int>, life: nat,
      at: int)
    requires TrailsFit(trails, births, breaches) && life !in breaches
    ensures TrailsFit(trails, births, breaches[life := at])
    ensures forall f :: Of(Trail(trails, f), life) == []
  {
    forall f
      ensures Of(Trail(trails, f), life) == []
    {
      assert f in trails ==> TrailFits(trails[f], births, breaches);
    }
  }

  lemma BreachWriteKeeps(s: State, t: int, c: Thread)
    requires Inv(s) && ThreadAt(s, t) == c && c.Computed? && c.event.Some? && c.read.life !in s.breaches
    requires c.updated != c.read.record
    requires var later := s.breaches[c.read.life := c.event.value.at];
             var written := Cell(c.updated, c.read.life);
             CopyFits(written, c.finding, s.births, later) && Unspent(written, later)
    ensures Inv(AfterWrite(s, t, c))
  {
    var at := c.event.value.at;
    HolderMoves(s, t, Stored(c.finding, c.read.life, c.event));
    WriteKeepsCells(s.cells, s.births, s.breaches, Cell(c.updated, c.read.life), c.finding, at);
    BreachKeepsCalls(s.calls, s.births, s.breaches, c.finding, c.read.life, at);
    BreachKeepsTrails(s.trails, s.births, s.breaches, c.read.life, at);
  }

  lemma WriteKeeps(s: State, t: int)
    requires Inv(s) && ThreadAt(s, t).Computed?
    ensures Inv(After(s, Write(t)))
  {
    var c := ThreadAt(s, t);
    assert Holder(s) == c;
    var now :| (c.updated, c.event) == Check(c.read.record, now);
    CheckedCopy(c.read, c.finding, s.births, s.breaches, now);
    if c.event.Some? {
      BreachWriteKeeps(s, t, c);
    } else {
      HolderMoves(s, t, Stored(c.finding, c.read.life, c.event));
    }
  }

  lemma AppendedTrailFits(trail: seq<Tagged>, e: Tagged, births: seq<Record>, breaches: map<nat, int>)
    requires TrailFits(trail, births, breaches) && e.life < |births| && e.life in breaches && Of(trail, e.life) == []
    ensures TrailFits(trail + [e], births, breaches)
  {
    forall life: nat {
      OfOneMore(trail, e, life);
    }
  }

  lemma AppendedTrailsFit(trails: map<int, seq<Tagged>>, f: int, e: Tagged, births: seq<Record>,
      breaches: map<nat, int>)
    requires TrailsFit(trails, births, breaches) && e.life < |births| && e.life in breaches
    requires Of(Trail(trails, f), e.life) == []
    ensures TrailsFit(trails[f := Trail(trails, f) + [e]], births, breaches)
  {
    AppendedTrailFits(Trail(trails, f), e, births, breaches);
  }

  lemma AppendKeeps(s: State, t: int)
    requires Inv(s) && ThreadAt(s, t).Stored?
    ensures Inv(After(s, Append(t)))
  {
    var c := ThreadAt(s, t);
    HolderMoves(s, t, Leaving);
    assert Holder(s) == c;
    if c.event.Some? {
      AppendedTrailsFit(s.trails, c.finding, Tagged(c.event.value, c.life), s.births, s.breaches);
    }
  }

  lemma StartWriteKeeps(s: State, k: int)
    requires Inv(s) && k in s.calls && s.calls[k].Starting?
    ensures Inv(After(s, StartWrite(k)))
  {
    assert CallFits(s.calls[k], s.births, s.breaches);
  }

  lemma ResolveWriteKeeps(s: State, k: int)
    requires Inv(s) && k in s.calls && s.calls[k].Resolving?
    ensures Inv(After(s, ResolveWrite(k)))
  {
    assert CallFits(s.calls[k], s.births, s.breaches);
    ResolveSteps(s.calls[k].read.record, s.calls[k].at);
  }

  lemma RemoveKeeps(s: State, f: int)
    requires Inv(s)
    ensures Inv(AfterRemove(s, f))
  {
    var after := AfterRemove(s, f);
    assert forall u :: ThreadAt(after, u).Idle? == ThreadAt(s, u).Idle?;
    forall k | k in s.calls
      ensures CallFits(after.calls[k], s.births, s.breaches)
    {
      assert CallFits(s.calls[k], s.births, s.breaches);
    }
  }

  lemma StepKeeps(s: State, m: Move)
    requires Inv(s) && Enabled(s, m)
    ensures Inv(After(s, m))
  {
    match m
    case Read(t) => HolderMoves(s, t, ThreadAt(After(s, m), t));
    case Write(t) => WriteKeeps(s, t);
    case Append(t) => AppendKeeps(s, t);
    case StartRead(k, f, policy, priority, at) => CreateSane(policy, f, priority, at);
    case StartWrite(k) => StartWriteKeeps(s, k);
    case ResolveRead(k, f, at) =>
    case ResolveWrite(k) => ResolveWriteKeeps(s, k);
    case Remove(f) => RemoveKeeps(s, f);
    case _ => TurnKeeps(s, m);
  }

  lemma {:induction false} RunKeeps(states: seq<State>, moves: seq<Move>, n: nat)
    requires Run(states, moves) && n <= |moves|
    ensures Inv(states[n])
  {
    if n > 0 {
      var m := moves[n - 1];
      RunKeeps(states, moves, n - 1);
      StepKeeps(states[n - 1], m);
    }
  }

  // ---------------------------------------------------------------- what it promises

  // However the threads interleave with each other and with starts, resolutions and removals: no life of
  // an SLA ever has two escalation events.
  lemma AtMostOneEscalation(states: seq<State>, moves: seq<Move>, n: nat, f: int, life: nat)
    requires Run(states, moves) && n <= |moves|
    ensures |Of(Trail(states[n].trails, f), life)| <= 1
  {
    RunKeeps(states, moves, n);
    if f in states[n].trails {
      assert TrailFits(states[n].trails[f], states[n].births, states[n].breaches);
    }
  }

  // An event is due just when the check that gave it found its record active and due, and made it breached.
  lemma EventMeansBreach(states: seq<State>, moves: seq<Move>, n: nat, t: int)
    requires Run(states, moves) && n < |moves| && moves[n] == Write(t)
    ensures var c := ThreadAt(states[n], t);
            && c.Computed?
            && (c.event.Some? <==> c.read.record.status == Active && c.updated.status == Breached)
            && (c.event.Some? ==>
                c.finding in states[n + 1].cells && states[n + 1].cells[c.finding] == Cell(c.updated, c.read.life))
  {
    RunKeeps(states, moves, n);
    var s, m := states[n], moves[n];
    var c := ThreadAt(s, t);
    assert Holder(s) == c;
    var now :| (c.updated, c.event) == Check(c.read.record, now);
    CheckSteps(c.read.record, now);
  }
}
