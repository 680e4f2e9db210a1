/** Histories of the rollup protocol: what completed flushes, shutdowns and boots leave behind,
    and the runs its guarantees do not cover. */
module RollupHistories {
  import opened Days
  import opened Rollup
  import opened RollupProtocol
  import opened Sequences
  import opened Wrappers

  // ----- What a completed flush leaves stale -----

  lemma BegunFlush(z: Zone, maxDays: nat, s: System, todo: seq<int>)
    requires Enabled(z, s, BeginFlush(todo)) && todo != []
    ensures
      var begun := Step(z, maxDays, s, BeginFlush(todo));
      && begun.db == s.db && begun.service.Some? && begun.service.value.pass.Some?
      && begun.service.value.pass.value.todo == todo && begun.service.value.pass.value.reading.None?
      && begun.service.value.plannedFrom == s.service.value.plannedFrom
      && Ascending(todo)
  {
    assert todo[0] in Members(todo);
  }

  /** A flush that runs to its end with no commit in between leaves stale exactly the stale days
      it did not take. */
  lemma FlushLeaves(z: Zone, maxDays: nat, s: System, todo: seq<int>, es: seq<Event>, t: System)
    requires z.Valid() && Enabled(z, s, BeginFlush(todo)) && todo != []
    requires
      var begun := Step(z, maxDays, s, BeginFlush(todo));
      && Feasible(z, maxDays, begun, es) && (forall i :: 0 <= i < |es| ==> RebuildEvent(es[i]))
      && Enabled(z, Run(z, maxDays, begun, es), FinishPass)
      && t == Step(z, maxDays, Run(z, maxDays, begun, es), FinishPass)
    ensures forall d :: Stale(z, t.db.facts, t.db.rows, d) <==> Stale(z, s.db.facts, s.db.rows, d) && d !in Members(todo)
  {
    BegunFlush(z, maxDays, s, todo);
    hide *;
    var begun := Step(z, maxDays, s, BeginFlush(todo));
    RebuildKeepsPass(z, maxDays, begun, es);
    var last := Run(z, maxDays, begun, es);
    Finishing(z, maxDays, last, t);
    CompletedPass(z, maxDays, begun, es);
  }

  lemma DirtyIsTaken(z: Zone, s: System, todo: seq<int>)
    requires Enabled(z, s, BeginFlush(todo))
    ensures s.service.Some? && s.service.value.pass.None? && s.service.value.dirty <= Members(todo)
  {
  }

  /** Along every ordinary run, a flush that completes while nothing is committed leaves no day
      from the first planned one on stale; one with nothing to take finds none. */
  lemma CaughtUp(z: Zone, maxDays: nat, floor: int, clock: int, run: seq<Event>, todo: seq<int>, es: seq<Event>, t: System)
    requires z.Valid() && Ordinary(z, maxDays, floor, NewInstall(clock), run)
    requires
      var s := Run(z, maxDays, NewInstall(clock), run);
      && Enabled(z, s, BeginFlush(todo)) && !Stopped(s.service.value)
      && (var begun := Step(z, maxDays, s, BeginFlush(todo));
          if todo == [] then t == begun
          else
            && Feasible(z, maxDays, begun, es) && (forall i :: 0 <= i < |es| ==> RebuildEvent(es[i]))
            && Enabled(z, Run(z, maxDays, begun, es), FinishPass)
            && t == Step(z, maxDays, Run(z, maxDays, begun, es), FinishPass))
    ensures
      var s := Run(z, maxDays, NewInstall(clock), run);
      forall d :: s.service.value.plannedFrom <= d ==> !Stale(z, t.db.facts, t.db.rows, d)
  {
    var s := Run(z, maxDays, NewInstall(clock), run);
    OrdinaryRuns(z, maxDays, floor, clock, run);
    DirtyIsTaken(z, s, todo);
    if todo == [] {
      assert t.db == s.db;
      assert Members([]) == {};
    } else {
      FlushLeaves(z, maxDays, s, todo, es, t);
    }
    hide Run, Stale, Ordinary, Enabled, Step, Feasible, Members;
  }

  // ----- Shutting down -----

  /** Cancelling a flush under way drops its days: the stale days that nobody has queued
      afterwards are exactly those it had still to do and that had not been notified again. */
  lemma StoppedPassLoses(z: Zone, maxDays: nat, floor: int, s: System, t: System)
    requires Invariant(z, floor, s) && Enabled(z, s, Stop) && !Stopped(s.service.value) && t == Step(z, maxDays, s, Stop)
    ensures
      var v := s.service.value;
      && t.db == s.db && t.service.Some? && t.service.value.pass.None? && t.service.value.dirty == v.dirty
      && forall d :: v.plannedFrom <= d ==>
           (Stale(z, t.db.facts, t.db.rows, d) && d !in t.service.value.dirty <==>
            Stale(z, s.db.facts, s.db.rows, d) && d in Todo(v) && d !in v.dirty)
  {
    hide Stale, Members, WatermarkSound, EarliestStart;
  }

  /** A shutdown whose last flush completes, or has nothing to take, leaves stale, of the days
      from the first planned one on, exactly what the cancelled flush had still to do and the
      last flush did not take. So it leaves nothing stale whenever it cancels nothing. */
  lemma ShutdownLeaves(z: Zone, maxDays: nat, floor: int, s: System, todo: seq<int>, es: seq<Event>, t: System)
    requires z.Valid() && Invariant(z, floor, s) && Enabled(z, s, Stop) && !Stopped(s.service.value)
    requires
      var stopped := Step(z, maxDays, s, Stop);
      && Enabled(z, stopped, BeginFlush(todo))
      && (var begun := Step(z, maxDays, stopped, BeginFlush(todo));
          if todo == [] then t == begun
          else
            && Feasible(z, maxDays, begun, es) && (forall i :: 0 <= i < |es| ==> RebuildEvent(es[i]))
            && Enabled(z, Run(z, maxDays, begun, es), FinishPass)
            && t == Step(z, maxDays, Run(z, maxDays, begun, es), FinishPass))
    ensures
      var v := s.service.value;
      && (forall d :: v.plannedFrom <= d ==>
            (Stale(z, t.db.facts, t.db.rows, d) <==>
             Stale(z, s.db.facts, s.db.rows, d) && d in Todo(v) && d !in Members(todo)))
      && (v.pass.None? ==> forall d :: v.plannedFrom <= d ==> !Stale(z, t.db.facts, t.db.rows, d))
  {
    var v, stopped := s.service.value, Step(z, maxDays, s, Stop);
    StoppedPassLoses(z, maxDays, floor, s, stopped);
    DirtyIsTaken(z, stopped, todo);
    if todo == [] {
      assert t.db == stopped.db;
      assert Members([]) == {};
    } else {
      FlushLeaves(z, maxDays, stopped, todo, es, t);
    }
    hide Run, Stale, Enabled, Step, Feasible, Members, Invariant;
  }

  // ----- Sightings committed during a repair -----

  /** What happens while start waits for its repair. */
  predicate StartingEvent(e: Event) { RebuildEvent(e) || e.Commit? }

  /** The sightings a day was last read with along a run. */
  ghost function LastRead(z: Zone, maxDays: nat, s0: System, es: seq<Event>, d: int): Option<seq<SightingFact>> {
    if es == [] then None
    else
      var n := |es| - 1;
      var s := Run(z, maxDays, s0, es[..n]);
      if es[n].ReadDay? && Todo0(s) == Some(d) then Some(FactsOn(z, s.db.facts, d)) else LastRead(z, maxDays, s0, es[..n], d)
  }

  /** The day the pass under way is at. */
  function Todo0(s: System): Option<int> {
    if s.service.Some? && s.service.value.pass.Some? && s.service.value.pass.value.todo != []
    then Some(s.service.value.pass.value.todo[0]) else None
  }

  /** The two lists of sightings have one row. */
  ghost predicate SameFold(z: Zone, d: int, closed: bool, a: seq<SightingFact>, b: seq<SightingFact>) {
    exists row :: IsFold(z, d, a, closed, row) && IsFold(z, d, b, closed, row)
  }

  /** The day's row is the fold of what was read. */
  ghost predicate RowOfRead(z: Zone, rows: map<int, Stored>, d: int, closed: bool, read: Option<seq<SightingFact>>) {
    d in rows && rows[d].closed == closed && read.Some? && IsFold(z, d, read.value, closed, rows[d].rollup)
  }

  /** s is s0 after the first k days of the repair under way in s0, whatever was committed. */
  ghost predicate Repaired(z: Zone, maxDays: nat, s0: System, es: seq<Event>, s: System, k: nat) {
    && s0.service.Some? && s0.service.value.pass.Some? && s.service.Some? && s.service.value.pass.Some?
    && (var p0, p := s0.service.value.pass.value, s.service.value.pass.value;
        && k <= |p0.todo| && p.todo == p0.todo[k..]
        && s.service.value == s0.service.value.(pass := Some(p0.(todo := p.todo, reading := p.reading)))
        && s.db.watermark == s0.db.watermark
        && (p.reading.Some? ==> p.todo != [] && LastRead(z, maxDays, s0, es, p.todo[0]) == p.reading)
        && (forall d :: d !in Members(p0.todo[..k]) ==> SameRow(s0.db.rows, s.db.rows, d))
        && (forall d :: d in Members(p0.todo[..k]) ==>
              RowOfRead(z, s.db.rows, d, z.dayStart(d + 1) <= p0.nowMs, LastRead(z, maxDays, s0, es, d))))
  }

  lemma ReadSnoc(z: Zone, maxDays: nat, s0: System, es: seq<Event>, e: Event)
    ensures
      var s := Run(z, maxDays, s0, es);
      forall d :: LastRead(z, maxDays, s0, es + [e], d)
                  == if e.ReadDay? && Todo0(s) == Some(d) then Some(FactsOn(z, s.db.facts, d)) else LastRead(z, maxDays, s0, es, d)
  {
    hide Run, FactsOn, Todo0;
    assert (es + [e])[..|es|] == es;
  }

  lemma RepairedStep(z: Zone, maxDays: nat, s0: System, es: seq<Event>, s: System, k: nat, e: Event, t: System)
    requires Repaired(z, maxDays, s0, es, s, k) && s == Run(z, maxDays, s0, es) && !s0.service.value.subscribed
    requires StartingEvent(e) && Enabled(z, s, e) && t == Step(z, maxDays, s, e)
    requires Ascending(s0.service.value.pass.value.todo)
    ensures Repaired(z, maxDays, s0, es + [e], t, if e.WriteDay? then k + 1 else k)
  {
    ReadSnoc(z, maxDays, s0, es, e);
    hide IsFold, FactsOn, Members, Ascending, LastRead, Run;
    var p0 := s0.service.value.pass.value;
    if e.WriteDay? || e.ReadDay? {
      PrefixMembers(p0.todo, k);
    }
  }

  lemma {:induction false} RepairedRun(z: Zone, maxDays: nat, s0: System, es: seq<Event>) returns (k: nat)
    requires Repaired(z, maxDays, s0, [], s0, 0) && Ascending(s0.service.value.pass.value.todo) && !s0.service.value.subscribed
    requires Feasible(z, maxDays, s0, es) && forall i :: 0 <= i < |es| ==> StartingEvent(es[i])
    ensures Repaired(z, maxDays, s0, es, Run(z, maxDays, s0, es), k)
  {
    hide Repaired, Enabled, Step, Ascending, LastRead, StartingEvent;
    k := 0;
    if es != [] {
      var n := |es| - 1;
      assert forall i :: 0 <= i < n ==> es[..n][..i] == es[..i] && es[..n][i] == es[i];
      k := RepairedRun(z, maxDays, s0, es[..n]);
      assert es[..n] + [es[n]] == es;
      RepairedStep(z, maxDays, s0, es[..n], Run(z, maxDays, s0, es[..n]), k, es[n], Run(z, maxDays, s0, es));
      k := if es[n].WriteDay? then k + 1 else k;
    }
  }

  lemma StaleUnlessSameFold(z: Zone, facts: seq<SightingFact>, rows: map<int, Stored>, d: int, closed: bool, read: Option<seq<SightingFact>>)
    requires RowOfRead(z, rows, d, closed, read)
    ensures Stale(z, facts, rows, d) <==> !SameFold(z, d, closed, read.value, FactsOn(z, facts, d))
  {
    var now := FactsOn(z, facts, d);
    hide IsFold, FactsOn;
    if SameFold(z, d, closed, read.value, now) {
      var row :| IsFold(z, d, read.value, closed, row) && IsFold(z, d, now, closed, row);
      FoldOfPermutation(z, d, read.value, read.value, closed, row, rows[d].rollup);
    }
  }

  /** The service is not notified until its repair has ended, so a sighting committed after its
      day was read is not seen by anyone: when the repair ends, the days it took that are stale
      are exactly those whose sightings no longer have the row of the sightings that were
      read, and nothing is queued. */
  lemma RepairLoses(z: Zone, maxDays: nat, s0: System, es: seq<Event>, t: System)
    requires z.Valid() && s0.service.Some? && Repairing(s0.service.value) && !s0.service.value.subscribed
    requires s0.service.value.pass.value.reading.None? && Ascending(s0.service.value.pass.value.todo)
    requires Feasible(z, maxDays, s0, es) && forall i :: 0 <= i < |es| ==> StartingEvent(es[i])
    requires Enabled(z, Run(z, maxDays, s0, es), FinishPass) && t == Step(z, maxDays, Run(z, maxDays, s0, es), FinishPass)
    ensures t.service.Some? && t.service.value.subscribed && t.service.value.dirty == s0.service.value.dirty
    ensures forall d :: d in Members(s0.service.value.pass.value.todo) ==> LastRead(z, maxDays, s0, es, d).Some?
    ensures
      var p := s0.service.value.pass.value;
      forall d :: Stale(z, t.db.facts, t.db.rows, d) <==>
        if d in Members(p.todo) then
          !SameFold(z, d, d < z.localDay(p.nowMs), LastRead(z, maxDays, s0, es, d).value, FactsOn(z, t.db.facts, d))
        else Stale(z, t.db.facts, s0.db.rows, d)
  {
    hide IsFold, FactsOn, Run, Feasible, LastRead, SameFold;
    var p := s0.service.value.pass.value;
    assert p.todo[..0] == [] && p.todo[0..] == p.todo;
    var k := RepairedRun(z, maxDays, s0, es);
    var last := Run(z, maxDays, s0, es);
    assert k == |p.todo| && p.todo[..k] == p.todo;
    forall d | d in Members(p.todo) ensures LastRead(z, maxDays, s0, es, d).Some? {
      assert RowOfRead(z, t.db.rows, d, z.dayStart(d + 1) <= p.nowMs, LastRead(z, maxDays, s0, es, d));
    }
    forall d ensures Stale(z, t.db.facts, t.db.rows, d) <==>
        if d in Members(p.todo) then
          !SameFold(z, d, d < z.localDay(p.nowMs), LastRead(z, maxDays, s0, es, d).value, FactsOn(z, t.db.facts, d))
        else Stale(z, t.db.facts, s0.db.rows, d)
    {
      ClosedWhenLater(z, d, p.nowMs);
      if d in Members(p.todo) {
        StaleUnlessSameFold(z, t.db.facts, t.db.rows, d, d < z.localDay(p.nowMs), LastRead(z, maxDays, s0, es, d));
      }
    }
  }

  // ----- Boot after boot -----

  /** One process: what was committed before it, when it boots, its repair run to the end, and
      its death before another midnight's flush. */
  datatype Life = Life(facts: seq<SightingFact>, nowMs: int, rebuild: seq<Event>)

  function LifeEvents(l: Life): seq<Event> { [Commit(l.facts, []), Tick(l.nowMs), Boot] + l.rebuild + [FinishPass, Crash] }

  function Events(lives: seq<Life>): seq<Event> {
    if lives == [] then [] else Events(lives[..|lives| - 1]) + LifeEvents(lives[|lives| - 1])
  }

  predicate Repairs(l: Life) { l.facts != [] && forall i :: 0 <= i < |l.rebuild| ==> RebuildEvent(l.rebuild[i]) }

  function BootDays(z: Zone, lives: seq<Life>): seq<int> { seq(|lives|, i requires 0 <= i < |lives| => z.localDay(lives[i].nowMs)) }

  /** How far boots on the given days get from the first day to build: maxDays a boot, and never
      past the yesterday of the boot. */
  function Reached(first: int, days: seq<int>, maxDays: nat): int {
    if days == [] then first - 1
    else Least(Reached(first, days[..|days| - 1], maxDays) + maxDays, days[|days| - 1] - 1)
  }

  lemma LifeInPieces(z: Zone, maxDays: nat, s: System, l: Life) returns (booting: System, last: System)
    requires Feasible(z, maxDays, s, LifeEvents(l)) && s.service.None?
    ensures booting == System(s.db.(facts := l.facts), None, l.nowMs) && s.clock <= l.nowMs
    ensures
      var booted := Step(z, maxDays, booting, Boot);
      && Feasible(z, maxDays, booted, l.rebuild) && last == Run(z, maxDays, booted, l.rebuild)
      && Enabled(z, last, FinishPass)
      && Run(z, maxDays, s, LifeEvents(l)) == Step(z, maxDays, Step(z, maxDays, last, FinishPass), Crash)
  {
    var front, back := [Commit(l.facts, []), Tick(l.nowMs), Boot], [FinishPass, Crash];
    assert LifeEvents(l) == front + (l.rebuild + back);
    FeasibleSplit(z, maxDays, s, front, l.rebuild + back);
    RunAppend(z, maxDays, s, front, l.rebuild + back);
    booting := Opening(z, maxDays, s, l);
    var booted := Step(z, maxDays, booting, Boot);
    FeasibleSplit(z, maxDays, booted, l.rebuild, back);
    RunAppend(z, maxDays, booted, l.rebuild, back);
    last := Run(z, maxDays, booted, l.rebuild);
    assert back == [FinishPass] + [Crash];
    FeasibleSplit(z, maxDays, last, [FinishPass], [Crash]);
    RunAppend(z, maxDays, last, [FinishPass], [Crash]);
    FeasibleOne(z, maxDays, last, FinishPass);
    FeasibleOne(z, maxDays, Step(z, maxDays, last, FinishPass), Crash);
    hide *;
  }

  lemma Opening(z: Zone, maxDays: nat, s: System, l: Life) returns (booting: System)
    requires Feasible(z, maxDays, s, [Commit(l.facts, []), Tick(l.nowMs), Boot]) && s.service.None?
    ensures booting == System(s.db.(facts := l.facts), None, l.nowMs) && s.clock <= l.nowMs
    ensures Run(z, maxDays, s, [Commit(l.facts, []), Tick(l.nowMs), Boot]) == Step(z, maxDays, booting, Boot)
  {
    hide Feasible, Run, BootService;
    var c, t := Commit(l.facts, []), Tick(l.nowMs);
    assert [c, t, Boot] == [c] + ([t] + [Boot]);
    FeasibleSplit(z, maxDays, s, [c], [t] + [Boot]);
    RunAppend(z, maxDays, s, [c], [t] + [Boot]);
    FeasibleOne(z, maxDays, s, c);
    var committed := Step(z, maxDays, s, c);
    FeasibleSplit(z, maxDays, committed, [t], [Boot]);
    RunAppend(z, maxDays, committed, [t], [Boot]);
    FeasibleOne(z, maxDays, committed, t);
    booting := Step(z, maxDays, committed, t);
    FeasibleOne(z, maxDays, booting, Boot);
  }

  /** Rebuilding only lets time pass forwards. */
  lemma {:induction false} RebuildClock(z: Zone, maxDays: nat, s: System, es: seq<Event>)
    requires Feasible(z, maxDays, s, es) && forall i :: 0 <= i < |es| ==> RebuildEvent(es[i])
    ensures s.clock <= Run(z, maxDays, s, es).clock
  {
    hide Enabled, Step;
    if es != [] {
      var n := |es| - 1;
      assert forall i :: 0 <= i < n ==> es[..n][..i] == es[..i] && es[..n][i] == es[i];
      RebuildClock(z, maxDays, s, es[..n]);
      RebuildTime(z, maxDays, Run(z, maxDays, s, es[..n]), es[n]);
    }
  }

  lemma RebuildTime(z: Zone, maxDays: nat, s: System, e: Event)
    requires Enabled(z, s, e) && RebuildEvent(e)
    ensures s.clock <= Step(z, maxDays, s, e).clock
  {
    hide IsFold, FactsOn;
  }

  /** One boot: the repair covers a stretch of at most maxDays days, up to yesterday. */
  lemma OneLife(z: Zone, maxDays: nat, s: System, l: Life, floor: int, through: int)
    requires z.Valid() && 1 <= maxDays <= MAX_WINDOW_DAYS && s.service.None?
    requires Feasible(z, maxDays, s, LifeEvents(l)) && Repairs(l)
    requires floor == PlanFloor(z, s.db.(facts := l.facts), z.localDay(l.nowMs))
    requires through == Least(PlanCeiling(floor, z.localDay(l.nowMs), maxDays), z.localDay(l.nowMs) - 1)
    ensures
      var t := Run(z, maxDays, s, LifeEvents(l));
      && s.clock <= l.nowMs <= t.clock && t.service.None?
      && t.db.watermark == Some(through)
      && (forall d :: d < z.localDay(l.nowMs) ==> (Final(t.db.rows, d) <==> (floor <= d <= through) || Final(s.db.rows, d)))
  {
    hide LifeEvents, Feasible, Run, PlanFloor, Step, Final, Stale, BootService, Enabled;
    var booting, last := LifeInPieces(z, maxDays, s, l);
    var finished := Step(z, maxDays, last, FinishPass);
    RepairedLife(z, maxDays, booting, l, last, finished, floor, through);
    BootsAtOnce(z, maxDays, booting);
    RebuildClock(z, maxDays, Step(z, maxDays, booting, Boot), l.rebuild);
    DiesAsItIs(z, maxDays, last, finished);
  }

  lemma RepairedLife(z: Zone, maxDays: nat, booting: System, l: Life, last: System, finished: System, floor: int, through: int)
    requires z.Valid() && 1 <= maxDays <= MAX_WINDOW_DAYS && booting.service.None? && booting.db.facts != [] && Repairs(l)
    requires
      var booted := Step(z, maxDays, booting, Boot);
      && Feasible(z, maxDays, booted, l.rebuild) && last == Run(z, maxDays, booted, l.rebuild)
      && Enabled(z, last, FinishPass) && finished == Step(z, maxDays, last, FinishPass)
    requires floor == PlanFloor(z, booting.db, z.localDay(booting.clock))
    requires through == Least(PlanCeiling(floor, z.localDay(booting.clock), maxDays), z.localDay(booting.clock) - 1)
    ensures finished.db.watermark == Some(through)
    ensures forall d :: d < z.localDay(booting.clock) ==> (Final(finished.db.rows, d) <==> (floor <= d <= through) || Final(booting.db.rows, d))
  {
    hide Feasible, Run, PlanFloor, Step, Final, Stale, BootService, Enabled;
    CompletedRepair(z, maxDays, booting, l.rebuild, finished);
  }

  lemma BootsAtOnce(z: Zone, maxDays: nat, s: System)
    ensures Step(z, maxDays, s, Boot).clock == s.clock
  {
  }

  lemma DiesAsItIs(z: Zone, maxDays: nat, last: System, finished: System)
    requires finished == Step(z, maxDays, last, FinishPass)
    ensures finished.clock == last.clock
    ensures Step(z, maxDays, finished, Crash) == finished.(service := None)
  {
  }

  /** After some boots: the process is gone, and from the first day to the watermark, which is
      before today, every day has a row built after it closed. */
  ghost predicate Built(z: Zone, t: System, first: int, through: int) {
    && t.service.None? && t.db.watermark == Some(through) && through < z.localDay(t.clock)
    && (forall d :: first <= d <= through ==> Final(t.db.rows, d))
  }

  /** The first boot starts at the first day of the history, or yesterday if that is earlier. */
  lemma FirstLife(z: Zone, maxDays: nat, s: System, l: Life, first: int, t: System)
    requires z.Valid() && 1 <= maxDays <= MAX_WINDOW_DAYS && s.service.None? && s.db.watermark.None?
    requires Feasible(z, maxDays, s, LifeEvents(l)) && t == Run(z, maxDays, s, LifeEvents(l)) && Repairs(l)
    requires first == Least(z.localDay(EarliestStart(l.facts)), z.localDay(l.nowMs) - 1)
    ensures Built(z, t, first, Least(first - 1 + maxDays, z.localDay(l.nowMs) - 1))
  {
    hide LifeEvents, Feasible, Run, EarliestStart, Final;
    OneLife(z, maxDays, s, l, first, Least(PlanCeiling(first, z.localDay(l.nowMs), maxDays), z.localDay(l.nowMs) - 1));
    LocalDayMonotone(z, l.nowMs, t.clock);
  }

  /** A later boot starts after the watermark, or at yesterday. */
  lemma NextLife(z: Zone, maxDays: nat, s: System, l: Life, first: int, done: int, t: System)
    requires z.Valid() && 1 <= maxDays <= MAX_WINDOW_DAYS && Built(z, s, first, done)
    requires Feasible(z, maxDays, s, LifeEvents(l)) && t == Run(z, maxDays, s, LifeEvents(l)) && Repairs(l)
    ensures Built(z, t, first, Least(done + maxDays, z.localDay(l.nowMs) - 1))
  {
    hide LifeEvents, Feasible, Run, Final;
    var today := z.localDay(l.nowMs);
    var floor := Least(done + 1, today - 1);
    OneLife(z, maxDays, s, l, floor, Least(PlanCeiling(floor, today, maxDays), today - 1));
    LocalDayMonotone(z, s.clock, l.nowMs);
    LocalDayMonotone(z, l.nowMs, t.clock);
  }

  /** A history longer than one repair is walked in strides of maxDays a boot, on whatever days
      the boots happen, and never past the boot's yesterday; and every day from the first one to
      the watermark then has a row built after it closed. */
  lemma {:induction false} BootsCatchUp(z: Zone, maxDays: nat, s: System, lives: seq<Life>, first: int)
    requires z.Valid() && 1 <= maxDays <= MAX_WINDOW_DAYS && s.service.None? && s.db.watermark.None?
    requires Feasible(z, maxDays, s, Events(lives)) && lives != [] && forall i :: 0 <= i < |lives| ==> Repairs(lives[i])
    requires Repairs(lives[0]) && first == Least(z.localDay(EarliestStart(lives[0].facts)), z.localDay(lives[0].nowMs) - 1)
    ensures Built(z, Run(z, maxDays, s, Events(lives)), first, Reached(first, BootDays(z, lives), maxDays))
    decreases |lives|
  {
    hide LifeEvents, Feasible, Run, Events, EarliestStart, Built, BootDays, Reached;
    var n := |lives| - 1;
    var init, l := lives[..n], lives[n];
    LastLife(z, maxDays, s, lives);
    BootDaysSnoc(z, lives, maxDays, first);
    var u, t := Run(z, maxDays, s, Events(init)), Run(z, maxDays, s, Events(lives));
    assert Repairs(l);
    if n == 0 {
      NoLives(z, maxDays, s, init);
      FirstLife(z, maxDays, u, l, first, t);
    } else {
      assert forall i :: 0 <= i < n ==> init[i] == lives[i] && Repairs(init[i]);
      BootsCatchUp(z, maxDays, s, init, first);
      NextLife(z, maxDays, u, l, first, Reached(first, BootDays(z, init), maxDays), t);
    }
  }

  lemma NoLives(z: Zone, maxDays: nat, s: System, lives: seq<Life>)
    requires lives == []
    ensures Run(z, maxDays, s, Events(lives)) == s
  {
  }

  lemma LastLife(z: Zone, maxDays: nat, s: System, lives: seq<Life>)
    requires lives != [] && Feasible(z, maxDays, s, Events(lives))
    ensures
      var n := |lives| - 1;
      var u := Run(z, maxDays, s, Events(lives[..n]));
      && Feasible(z, maxDays, s, Events(lives[..n])) && Feasible(z, maxDays, u, LifeEvents(lives[n]))
      && Run(z, maxDays, s, Events(lives)) == Run(z, maxDays, u, LifeEvents(lives[n]))
  {
    hide Feasible, Run, LifeEvents;
    var n := |lives| - 1;
    FeasibleSplit(z, maxDays, s, Events(lives[..n]), LifeEvents(lives[n]));
    RunAppend(z, maxDays, s, Events(lives[..n]), LifeEvents(lives[n]));
  }

  lemma BootDaysSnoc(z: Zone, lives: seq<Life>, maxDays: nat, first: int)
    requires lives != []
    ensures
      var n := |lives| - 1;
      Reached(first, BootDays(z, lives), maxDays)
      == Least(Reached(first, BootDays(z, lives[..n]), maxDays) + maxDays, z.localDay(lives[n].nowMs) - 1)
    ensures |lives| == 1 ==> Reached(first, BootDays(z, lives[..|lives| - 1]), maxDays) == first - 1
  {
    assert BootDays(z, lives)[..|lives| - 1] == BootDays(z, lives[..|lives| - 1]);
  }

  lemma OneStrideMore(n: nat, maxDays: nat)
    ensures (n + 1) * maxDays == n * maxDays + maxDays
  {
  }

  /** In closed form: the first day plus maxDays per boot, or some boot's yesterday plus maxDays
      per boot since, whichever is least. */
  lemma {:induction false} ReachedIsLeast(first: int, days: seq<int>, maxDays: nat) returns (k: nat)
    ensures Reached(first, days, maxDays) <= first - 1 + |days| * maxDays
    ensures forall i :: 0 <= i < |days| ==> Reached(first, days, maxDays) <= days[i] - 1 + (|days| - 1 - i) * maxDays
    ensures k <= |days|
    ensures
      Reached(first, days, maxDays)
      == if k == |days| then first - 1 + |days| * maxDays else days[k] - 1 + (|days| - 1 - k) * maxDays
  {
    if days == [] {
      k := 0;
      assert 0 * maxDays == 0;
    } else {
      var n := |days| - 1;
      k := ReachedIsLeast(first, days[..n], maxDays);
      OneStrideMore(n, maxDays);
      assert 0 * maxDays == 0;
      forall i | 0 <= i < n ensures (n - i) * maxDays == (n - 1 - i) * maxDays + maxDays && days[..n][i] == days[i] {
        OneStrideMore(n - 1 - i, maxDays);
      }
      if Reached(first, days, maxDays) == days[n] - 1 {
        k := n;
      } else if k == n {
        k := n + 1;
      }
    }
  }

  /** While the day stays the same, the boots stop at yesterday. */
  lemma {:induction false} BootsOnOneDay(first: int, days: seq<int>, today: int, maxDays: nat)
    requires first < today && forall i :: 0 <= i < |days| ==> days[i] == today
    ensures Reached(first, days, maxDays) == Least(first - 1 + |days| * maxDays, today - 1)
  {
    if days == [] {
      assert 0 * maxDays == 0;
    } else {
      var n := |days| - 1;
      BootsOnOneDay(first, days[..n], today, maxDays);
      assert (n + 1) * maxDays == n * maxDays + maxDays;
    }
  }

  // ----- Days nothing revisits -----

  /** At or below the watermark, at least two days old, and neither queued nor in a pass. */
  ghost predicate Overlooked(z: Zone, s: System, d: int) {
    && d < z.localDay(s.clock) - 1
    && s.db.watermark.Some? && d <= s.db.watermark.value
    && (s.service.Some? ==>
          var v := s.service.value;
          && d < v.currentDay && d !in v.dirty
          && (v.pass.Some? ==>
                var p := v.pass.value;
                d !in p.due && d !in Members(p.todo) && (p.closed != [] ==> d < p.closed[|p.closed| - 1])))
  }

  /** The event neither changes the day's sightings nor is about them. */
  ghost predicate LeavesAlone(z: Zone, s: System, e: Event, d: int) {
    e.Commit? ==>
      && FactsOn(z, e.facts, d) == FactsOn(z, s.db.facts, d)
      && (s.service.Some? && s.service.value.subscribed ==> !StartedOn(z, e.started, d))
  }

  ghost predicate Undisturbed(z: Zone, maxDays: nat, s: System, es: seq<Event>, d: int) {
    forall i :: 0 <= i < |es| ==>
      var at := Run(z, maxDays, s, es[..i]);
      Enabled(z, at, es[i]) && LeavesAlone(z, at, es[i], d)
  }

  predicate SameRow(before: map<int, Stored>, after: map<int, Stored>, d: int) {
    (d in before <==> d in after) && (d in before ==> before[d] == after[d])
  }

  lemma OverlookedStep(z: Zone, maxDays: nat, s: System, e: Event, t: System, d: int)
    requires z.Valid() && Overlooked(z, s, d) && Enabled(z, s, e) && LeavesAlone(z, s, e, d) && t == Step(z, maxDays, s, e)
    ensures Overlooked(z, t, d) && SameRow(s.db.rows, t.db.rows, d)
    ensures FactsOn(z, t.db.facts, d) == FactsOn(z, s.db.facts, d)
  {
    hide IsFold, FactsOn, EarliestStart;
    match e {
      case Tick(now) => LocalDayMonotone(z, s.clock, now);
      case BeginFlush(todo) => FlushOverlooks(z, maxDays, s, todo, t, d);
      case Boot => BootOverlooks(z, maxDays, s, t, d);
      case WriteDay(_) => {
        var todo := s.service.value.pass.value.todo;
        assert todo[0] in Members(todo);
        TailMembers(todo);
      }
      case _ =>
    }
  }

  lemma FlushOverlooks(z: Zone, maxDays: nat, s: System, todo: seq<int>, t: System, d: int)
    requires Overlooked(z, s, d) && Enabled(z, s, BeginFlush(todo)) && t == Step(z, maxDays, s, BeginFlush(todo))
    ensures Overlooked(z, t, d) && t.db == s.db
  {
    var v, today := s.service.value, z.localDay(s.clock);
    var ended := Rollover(v.currentDay, today);
    assert forall i :: 0 <= i < |ended.days| ==> d < ended.days[i];
    assert d !in Due(v.dirty, ended.days, today);
  }

  lemma BootOverlooks(z: Zone, maxDays: nat, s: System, t: System, d: int)
    requires Overlooked(z, s, d) && s.service.None? && t == Step(z, maxDays, s, Boot)
    ensures Overlooked(z, t, d) && t.db == s.db
  {
    hide EarliestStart;
  }

  /** A day that is stale and overlooked stays so in every further run in which nothing is
      committed for it and nothing notified about it: no flush, no boot, no shutdown rebuilds it. */
  lemma {:induction false} OverlookedStaysStale(z: Zone, maxDays: nat, s: System, es: seq<Event>, d: int)
    requires z.Valid() && Overlooked(z, s, d) && Stale(z, s.db.facts, s.db.rows, d) && Undisturbed(z, maxDays, s, es, d)
    ensures
      var t := Run(z, maxDays, s, es);
      Overlooked(z, t, d) && Stale(z, t.db.facts, t.db.rows, d)
  {
    hide Overlooked, Enabled, LeavesAlone, Step, IsFold, FactsOn;
    if es != [] {
      var n := |es| - 1;
      assert forall i :: 0 <= i < n ==> es[..n][..i] == es[..i] && es[..n][i] == es[i];
      OverlookedStaysStale(z, maxDays, s, es[..n], d);
      OverlookedStep(z, maxDays, Run(z, maxDays, s, es[..n]), es[n], Run(z, maxDays, s, es), d);
    }
  }

  // ----- Two histories the guarantees do not cover -----

  const MS_PER_DAY := 86_400_000

  function Utc(): Zone { Zone(d => d * MS_PER_DAY, ts => ts / MS_PER_DAY, ts => ts / 3_600_000 % 24) }

  lemma UtcValid()
    ensures Utc().Valid()
  {
  }

  function EmptyRow(day: int): DayRollup { DayRollup(day, 0, 0, 0, 0, 0, 0, 0, None, None, map[], map[]) }

  lemma EmptyRowFolds(z: Zone, day: int, closed: bool)
    ensures IsFold(z, day, [], closed, EmptyRow(day))
  {
    assert Groups([], TypeCode()) == map[] && Groups([], OperatorGroup()) == map[];
  }

  function LateFact(): SightingFact {
    SightingFact(1, 1, MS_PER_DAY - 1, MS_PER_DAY - 1, None, false, false, false, false, None, None)
  }

  lemma LateFactDays(d: int)
    ensures FactsOn(Utc(), [LateFact()], d) == if d == 0 then [LateFact()] else []
    ensures Utc().localDay(EarliestStart([LateFact()])) == 0
  {
    var db := [LateFact()];
    assert db[..0] == [];
    assert Utc().dayStart(d) == d * MS_PER_DAY && Utc().dayStart(d + 1) == (d + 1) * MS_PER_DAY;
    assert FactsBetween(db[..0], Utc().dayStart(d), Utc().dayStart(d + 1)) == [];
  }

  /** Appends one event to a run. */
  lemma Extend(z: Zone, maxDays: nat, floor: int, s: System, es: seq<Event>, e: Event) returns (more: seq<Event>, t: System)
    requires Ordinary(z, maxDays, floor, s, es)
    requires
      var at := Run(z, maxDays, s, es);
      Enabled(z, at, e) && Announced(z, floor, at, e) && Unhurried(z, maxDays, at, e)
    ensures more == es + [e] && Ordinary(z, maxDays, floor, s, more)
    ensures t == Run(z, maxDays, s, more) == Step(z, maxDays, Run(z, maxDays, s, es), e)
  {
    hide Enabled, Announced, Unhurried, Step;
    more := es + [e];
    assert more[..|es|] == es;
    t := Run(z, maxDays, s, more);
    forall i | 0 <= i < |more|
      ensures
        var at := Run(z, maxDays, s, more[..i]);
        Enabled(z, at, more[i]) && Announced(z, floor, at, more[i]) && Unhurried(z, maxDays, at, more[i])
    {
      if i < |es| {
        assert more[..i] == es[..i] && more[i] == es[i];
      }
    }
  }

  /** Rebuilding a day without sightings: one read and one write. */
  lemma QuietDay(z: Zone, maxDays: nat, floor: int, s0: System, es: seq<Event>, s: System) returns (more: seq<Event>, t: System)
    requires Ordinary(z, maxDays, floor, s0, es) && s == Run(z, maxDays, s0, es)
    requires s.service.Some? && s.service.value.pass.Some? && s.service.value.pass.value.todo != []
    requires FactsOn(z, s.db.facts, s.service.value.pass.value.todo[0]) == []
    ensures Ordinary(z, maxDays, floor, s0, more) && t == Run(z, maxDays, s0, more)
    ensures
      var v := s.service.value;
      var p := v.pass.value;
      var d := p.todo[0];
      t == s.(db := s.db.(rows := s.db.rows[d := Stored(EmptyRow(d), z.dayStart(d + 1) <= p.nowMs)]),
              service := Some(v.(pass := Some(p.(todo := p.todo[1..], reading := None)))))
  {
    hide IsFold, FactsOn, EarliestStart, Ordinary, Run;
    var d := s.service.value.pass.value.todo[0];
    var m, u := Extend(z, maxDays, floor, s0, es, ReadDay);
    EmptyRowFolds(z, d, z.dayStart(d + 1) <= s.service.value.pass.value.nowMs);
    more, t := Extend(z, maxDays, floor, s0, m, WriteDay(EmptyRow(d)));
  }

  /** A quiet first day, up to the pass of the flush that follows its midnight. */
  lemma MidnightPass() returns (es: seq<Event>, s: System)
    ensures Ordinary(Utc(), 3650, 0, NewInstall(0), es) && s == Run(Utc(), 3650, NewInstall(0), es)
    ensures s == System(Database([], map[], None), Some(Service({}, 1, true,
      Some(Pass(Flush, MS_PER_DAY, {0, 1}, [0, 1], None, [0], true)), 0, true)), MS_PER_DAY)
  {
    hide IsFold, EarliestStart, Run, Ordinary;
    var z, s0 := Utc(), NewInstall(0);
    OrdinaryNothing(z, 3650, 0, s0);
    es, s := Extend(z, 3650, 0, s0, [], Boot);
    es, s := Extend(z, 3650, 0, s0, es, FinishPass);
    es, s := Extend(z, 3650, 0, s0, es, Tick(MS_PER_DAY));
    assert Rollover(0, 1).days == [0];
    assert Members([0, 1]) == {0, 1} by { assert [0, 1][0] == 0 && [0, 1][1] == 1; }
    assert Members([0]) == {0} by { assert [0][0] == 0; }
    assert s == System(Database([], map[], None), Some(Service({}, 0, true, None, 0, true)), MS_PER_DAY);
    assert Due({}, [0], 1) == {0, 1};
    var none: set<int> := {};
    assert none - {0, 1} == {};
    es, s := Extend(z, 3650, 0, s0, es, BeginFlush([0, 1]));
  }

  /** A first midnight without sightings: one watermark, two empty rows. */
  lemma QuietMidnight() returns (es: seq<Event>, s: System)
    ensures Ordinary(Utc(), 3650, 0, NewInstall(0), es) && s == Run(Utc(), 3650, NewInstall(0), es)
    ensures s == System(
      Database([], map[0 := Stored(EmptyRow(0), true), 1 := Stored(EmptyRow(1), false)], Some(0)),
      Some(Service({}, 1, true, None, 0, true)), MS_PER_DAY)
  {
    hide IsFold, EarliestStart, Run, Ordinary;
    var z, s0 := Utc(), NewInstall(0);
    es, s := MidnightPass();
    NoFacts(z, s.db.facts, 0);
    NoFacts(z, s.db.facts, 1);
    es, s := QuietDay(z, 3650, 0, s0, es, s);
    es, s := QuietDay(z, 3650, 0, s0, es, s);
    assert s.db.rows == map[0 := Stored(EmptyRow(0), true), 1 := Stored(EmptyRow(1), false)];
    es, s := Extend(z, 3650, 0, s0, es, FinishPass);
  }

  lemma OrdinaryNothing(z: Zone, maxDays: nat, floor: int, s: System)
    ensures Ordinary(z, maxDays, floor, s, []) && Run(z, maxDays, s, []) == s
  {
  }

  function LatePass(): Pass { Pass(Repair, 3 * MS_PER_DAY, {1, 2, 3}, [1, 2, 3], None, [1, 2], true) }

  function QuietRows(): map<int, Stored> { map[0 := Stored(EmptyRow(0), true), 1 := Stored(EmptyRow(1), false)] }

  /** A sighting of the first day is committed after the midnight flush, the process dies
      before the next flush, and comes back two days later. */
  lemma LateCommitThenCrash() returns (es: seq<Event>, s: System)
    ensures Ordinary(Utc(), 3650, 0, NewInstall(0), es) && s == Run(Utc(), 3650, NewInstall(0), es)
    ensures s == System(
      Database([LateFact()], QuietRows(), Some(0)), Some(Service({}, 3, false, Some(LatePass()), 1, false)), 3 * MS_PER_DAY)
  {
    hide IsFold, Run, Ordinary, FactsOn;
    var z, s0 := Utc(), NewInstall(0);
    es, s := QuietMidnight();
    LateFactDays(0);
    forall d: int ensures Changes(z, [], [LateFact()], d) ==> d == 0 {
      LateFactDays(d);
      NoFacts(z, [], d);
    }
    assert 0 in Notified(z, s.service.value, [MS_PER_DAY - 1]) by { assert [MS_PER_DAY - 1][0] == MS_PER_DAY - 1; }
    es, s := Extend(z, 3650, 0, s0, es, Commit([LateFact()], [MS_PER_DAY - 1]));
    es, s := Extend(z, 3650, 0, s0, es, Crash);
    es, s := Extend(z, 3650, 0, s0, es, Tick(3 * MS_PER_DAY));
    assert s == System(Database([LateFact()], QuietRows(), Some(0)), None, 3 * MS_PER_DAY);
    assert PlanFloor(z, s.db, 3) == 1;
    es, s := Extend(z, 3650, 0, s0, es, Boot);
    assert DaysInRange(1, 3) == [1, 2, 3] && DaysInRange(1, 2) == [1, 2];
    assert Members([1, 2, 3]) == {1, 2, 3} by {
      assert [1, 2, 3][0] == 1 && [1, 2, 3][1] == 2 && [1, 2, 3][2] == 3;
    }
  }

  /** The repair that follows does not reach the first day. */
  lemma LateRepair() returns (es: seq<Event>)
    ensures Ordinary(Utc(), 3650, 0, NewInstall(0), es)
    ensures
      Run(Utc(), 3650, NewInstall(0), es)
      == System(Database([LateFact()], RowsRepaired(), Some(2)), Some(Service({}, 3, true, None, 1, true)), 3 * MS_PER_DAY)
  {
    hide IsFold, Run, Ordinary, FactsOn, EarliestStart, EmptyRow;
    var z, s0 := Utc(), NewInstall(0);
    var s;
    es, s := LateCommitThenCrash();
    LateFactDays(1);
    LateFactDays(2);
    LateFactDays(3);
    es, s := QuietDay(z, 3650, 0, s0, es, s);
    es, s := QuietDay(z, 3650, 0, s0, es, s);
    es, s := QuietDay(z, 3650, 0, s0, es, s);
    assert s.db.rows == RowsRepaired();
    es, s := Extend(z, 3650, 0, s0, es, FinishPass);
  }

  /** The documentation says the next boot rebuilds a day left stale by a crash. It does not
      when that day is at or below the watermark and two days have gone by: an ordinary run
      can end with a stale day below the watermark, and whatever follows, the day stays stale
      until it gets another sighting or notification of its own. */
  lemma StaleDaySurvivesCrash() returns (es: seq<Event>)
    ensures Ordinary(Utc(), 3650, 0, NewInstall(0), es)
    ensures
      var s := Run(Utc(), 3650, NewInstall(0), es);
      && Stale(Utc(), s.db.facts, s.db.rows, 0)
      && s.db.watermark == Some(2)
      && s.service == Some(Service({}, 3, true, None, 1, true))
      && forall more :: Undisturbed(Utc(), 3650, s, more, 0) ==>
           var t := Run(Utc(), 3650, s, more);
           Stale(Utc(), t.db.facts, t.db.rows, 0)
  {
    hide IsFold, Run, Ordinary, FactsOn, EarliestStart, Undisturbed;
    var z := Utc();
    es := LateRepair();
    var s := Run(z, 3650, NewInstall(0), es);
    LateFactDays(0);
    assert s.db.rows[0] == Stored(EmptyRow(0), true);
    NotFreshWhenCountDiffers(z, s.db.facts, s.db.rows, 0);
    UtcValid();
    assert Overlooked(z, s, 0);
    hide Overlooked, Stale, Utc;
    forall more | Undisturbed(z, 3650, s, more, 0)
      ensures var t := Run(z, 3650, s, more); Stale(z, t.db.facts, t.db.rows, 0)
    {
      OverlookedStaysStale(z, 3650, s, more, 0);
    }
  }

  lemma NotFreshWhenCountDiffers(z: Zone, facts: seq<SightingFact>, rows: map<int, Stored>, d: int)
    requires d in rows && rows[d].rollup.sightings != |FactsOn(z, facts, d)|
    ensures Stale(z, facts, rows, d)
  {
  }

  /** And a shutdown does cancel one: a sighting of the day is committed, a flush takes the day,
      the shutdown cancels it, the last flush finds nothing to do, and the day stays stale. */
  lemma ShutdownLeavesDayStale() returns (es: seq<Event>)
    ensures Feasible(Utc(), 3650, NewInstall(0), es)
    ensures
      var s := Run(Utc(), 3650, NewInstall(0), es);
      && s == System(Database([LateFact()], map[], None), Some(Service({}, 0, false, None, 0, true)), MS_PER_DAY - 1)
      && Stale(Utc(), s.db.facts, s.db.rows, 0)
  {
    hide IsFold, FactsOn, EarliestStart, Run, Feasible;
    var z, s0 := Utc(), NewInstall(0);
    LateFactDays(0);
    es := FeasibleNothing(z, 3650, s0);
    es := FeasibleStep(z, 3650, s0, es, Boot);
    es := FeasibleStep(z, 3650, s0, es, FinishPass);
    es := FeasibleStep(z, 3650, s0, es, Tick(MS_PER_DAY - 1));
    assert Notified(z, Service({}, 0, true, None, 0, true), [MS_PER_DAY - 1]) == {0} by {
      assert [MS_PER_DAY - 1][0] == MS_PER_DAY - 1;
    }
    es := FeasibleStep(z, 3650, s0, es, Commit([LateFact()], [MS_PER_DAY - 1]));
    var none: set<int> := {};
    assert Members([]) == none && Members([0]) == {0} by { assert [0][0] == 0; }
    assert none + {0} == {0} && {0} - {0} == none && none - none == none;
    assert Run(z, 3650, s0, es) == System(Database([LateFact()], map[], None), Some(Service({0}, 0, true, None, 0, true)), MS_PER_DAY - 1);
    assert Due({0}, [], 0) == {0} && Due({}, [], 0) == {};
    es := FeasibleStep(z, 3650, s0, es, BeginFlush([0]));
    es := FeasibleStep(z, 3650, s0, es, Stop);
    assert Run(z, 3650, s0, es) == System(Database([LateFact()], map[], None), Some(Service({}, 0, false, None, 0, true)), MS_PER_DAY - 1);
    es := FeasibleStep(z, 3650, s0, es, BeginFlush([]));
  }

  /** A sighting of the second day. */
  function RecoveredFact(): SightingFact {
    SightingFact(2, 2, 2 * MS_PER_DAY - 1, 2 * MS_PER_DAY - 1, None, false, false, false, false, None, None)
  }

  lemma RecoveredDays(d: int)
    requires d >= 1
    ensures FactsOn(Utc(), [LateFact(), RecoveredFact()], d) == if d == 1 then [RecoveredFact()] else []
  {
    LateFactDays(d);
    var db := [LateFact(), RecoveredFact()];
    assert db[..1] == [LateFact()];
    assert Utc().dayStart(d) == d * MS_PER_DAY && Utc().dayStart(d + 1) == (d + 1) * MS_PER_DAY;
    assert FactsBetween(db[..1], Utc().dayStart(d), Utc().dayStart(d + 1)) == [];
  }

  /** Rebuilding a day that had no sightings when it was read. */
  lemma RebuildQuietDay(z: Zone, maxDays: nat, s0: System, es: seq<Event>, s: System, facts: seq<SightingFact>) returns (more: seq<Event>, t: System)
    requires Feasible(z, maxDays, s0, es) && s == Run(z, maxDays, s0, es)
    requires s.service.Some? && Repairing(s.service.value) && !s.service.value.subscribed && s.service.value.pass.value.todo != []
    requires FactsOn(z, s.db.facts, s.service.value.pass.value.todo[0]) == []
    ensures Feasible(z, maxDays, s0, more) && t == Run(z, maxDays, s0, more)
    ensures
      var v := s.service.value;
      var p := v.pass.value;
      var d := p.todo[0];
      t == s.(db := s.db.(facts := facts, rows := s.db.rows[d := Stored(EmptyRow(d), z.dayStart(d + 1) <= p.nowMs)]),
              service := Some(v.(pass := Some(p.(todo := p.todo[1..], reading := None)))))
  {
    hide IsFold, FactsOn, Feasible, Run;
    var v := s.service.value;
    var d := v.pass.value.todo[0];
    more := FeasibleStep(z, maxDays, s0, es, ReadDay);
    var none: set<int> := {};
    assert v.dirty + none == v.dirty;
    more := FeasibleStep(z, maxDays, s0, more, Commit(facts, []));
    EmptyRowFolds(z, d, z.dayStart(d + 1) <= v.pass.value.nowMs);
    more := FeasibleStep(z, maxDays, s0, more, WriteDay(EmptyRow(d)));
    t := Run(z, maxDays, s0, more);
  }

  lemma OrdinaryIsFeasible(z: Zone, maxDays: nat, floor: int, s: System, es: seq<Event>)
    requires Ordinary(z, maxDays, floor, s, es)
    ensures Feasible(z, maxDays, s, es)
  {
    hide Run, Enabled, Announced, Unhurried;
  }

  function RowsRepaired(): map<int, Stored> {
    map[0 := Stored(EmptyRow(0), true), 1 := Stored(EmptyRow(1), true), 2 := Stored(EmptyRow(2), true), 3 := Stored(EmptyRow(3), false)]
  }

  /** A sighting recovered from the last process is committed between its day's read and write
      by the startup repair. */
  lemma RepairOverlooks() returns (es: seq<Event>)
    ensures Feasible(Utc(), 3650, NewInstall(0), es)
    ensures
      Run(Utc(), 3650, NewInstall(0), es)
      == System(Database([LateFact(), RecoveredFact()], RowsRepaired(), Some(2)), Some(Service({}, 3, true, None, 1, true)), 3 * MS_PER_DAY)
  {
    hide IsFold, Run, Ordinary, FactsOn, EarliestStart, Feasible, EmptyRow;
    var z, s0, facts := Utc(), NewInstall(0), [LateFact(), RecoveredFact()];
    var s;
    es, s := LateCommitThenCrash();
    OrdinaryIsFeasible(z, 3650, 0, s0, es);
    LateFactDays(1);
    es, s := RebuildQuietDay(z, 3650, s0, es, s, facts);
    RecoveredDays(2);
    es, s := RebuildQuietDay(z, 3650, s0, es, s, facts);
    RecoveredDays(3);
    es, s := RebuildQuietDay(z, 3650, s0, es, s, facts);
    assert s.db.rows == RowsRepaired();
    es := FeasibleStep(z, 3650, s0, es, FinishPass);
  }

  /** The repair then completes, nothing is queued, and the day stays stale in every continuation
      that commits nothing for it and notifies nothing about it. */
  lemma RepairLosesDay() returns (es: seq<Event>)
    ensures Feasible(Utc(), 3650, NewInstall(0), es)
    ensures
      var s := Run(Utc(), 3650, NewInstall(0), es);
      && Stale(Utc(), s.db.facts, s.db.rows, 1)
      && s.db.watermark == Some(2)
      && s.service == Some(Service({}, 3, true, None, 1, true))
      && forall more :: Undisturbed(Utc(), 3650, s, more, 1) ==>
           var t := Run(Utc(), 3650, s, more);
           Stale(Utc(), t.db.facts, t.db.rows, 1)
  {
    hide IsFold, Run, FactsOn, EarliestStart, Feasible, Undisturbed;
    var z := Utc();
    es := RepairOverlooks();
    var s := Run(z, 3650, NewInstall(0), es);
    RecoveredDays(1);
    assert s.db.rows[1] == Stored(EmptyRow(1), true);
    NotFreshWhenCountDiffers(z, s.db.facts, s.db.rows, 1);
    UtcValid();
    assert Overlooked(z, s, 1);
    hide Overlooked, Stale, Utc;
    forall more | Undisturbed(z, 3650, s, more, 1)
      ensures var t := Run(z, 3650, s, more); Stale(z, t.db.facts, t.db.rows, 1)
    {
      OverlookedStaysStale(z, 3650, s, more, 1);
    }
  }

  lemma RunSnoc(z: Zone, maxDays: nat, s: System, es: seq<Event>, e: Event)
    ensures Run(z, maxDays, s, es + [e]) == Step(z, maxDays, Run(z, maxDays, s, es), e)
  {
    hide Step;
    assert (es + [e])[..|es|] == es;
  }

  /** A boot with a history to build, whose repair fails, one day later. */
  function AfterFailedRepair(): System {
    System(Database([LateFact()], map[], None), Some(Service({}, 5, true, None, 0, false)), 6 * MS_PER_DAY)
  }

  lemma FailedRepairReaches()
    ensures
      Run(Utc(), 3650, System(Database([LateFact()], map[], None), None, 5 * MS_PER_DAY), [Boot, FailPass(false), Tick(6 * MS_PER_DAY)])
      == AfterFailedRepair()
  {
    hide IsFold, FactsOn, EarliestStart, Run;
    var z, s0 := Utc(), System(Database([LateFact()], map[], None), None, 5 * MS_PER_DAY);
    LateFactDays(0);
    assert PlanFloor(z, s0.db, 5) == 0;
    OrdinaryNothing(z, 3650, 0, s0);
    RunSnoc(z, 3650, s0, [], Boot);
    RunSnoc(z, 3650, s0, [Boot], FailPass(false));
    RunSnoc(z, 3650, s0, [Boot, FailPass(false)], Tick(6 * MS_PER_DAY));
    var nothing: seq<Event> := [];
    assert nothing + [Boot] == [Boot] && [Boot] + [FailPass(false)] == [Boot, FailPass(false)];
    assert [Boot, FailPass(false)] + [Tick(6 * MS_PER_DAY)] == [Boot, FailPass(false), Tick(6 * MS_PER_DAY)];
  }

  /** A startup repair that fails leaves the history unbuilt, and the next midnight moves the
      watermark over it all the same. */
  lemma FailedRepairThenMidnight(todo: seq<int>, es: seq<Event>, t: System)
    requires Enabled(Utc(), AfterFailedRepair(), BeginFlush(todo))
    requires
      var begun := Step(Utc(), 3650, AfterFailedRepair(), BeginFlush(todo));
      && Feasible(Utc(), 3650, begun, es) && (forall i :: 0 <= i < |es| ==> RebuildEvent(es[i]))
      && Enabled(Utc(), Run(Utc(), 3650, begun, es), FinishPass)
      && t == Step(Utc(), 3650, Run(Utc(), 3650, begun, es), FinishPass)
    ensures t.db.watermark == Some(5) && !WatermarkSound(t.db, 0)
  {
    hide IsFold, FactsOn, EarliestStart, Feasible, Run, Step, Enabled, Rollover, Stale;
    UtcValid();
    NothingBuilt();
    hide Utc, AfterFailedRepair;
    WatermarkAdvanceExact(Utc(), 3650, 0, AfterFailedRepair(), todo, es, t);
  }

  lemma NothingBuilt()
    ensures
      var s := AfterFailedRepair();
      && s.service.Some? && s.service.value.currentDay == 5 && s.service.value.dirty == {} && Utc().localDay(s.clock) == 6
      && Rollover(5, 6).complete && !Final(s.db.rows, 0)
  {
    hide LateFact, DaysInRange;
  }
}
