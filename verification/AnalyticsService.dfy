/** The analytics service as the object the source has (analytics/service.py,
    analytics/backfill.py), each pass running on its own. Its methods are runs of
    RollupProtocol, which also covers passes that other steps interleave with. */
module Analytics {
  import opened Days
  import opened Rollup
  import opened RollupProtocol
  import opened Sequences
  import opened Wrappers

  lemma LeastOf(s: set<int>) returns (x: int)
    requires s != {}
    ensures x in s && forall y :: y in s ==> x <= y
    decreases |s|
  {
    assert (forall e: int :: e !in s) ==> s == {};
    var e: int :| e in s;
    var rest := s - {e};
    if rest == {} {
      x := e;
      assert s == {e};
    } else {
      x := LeastOf(rest);
      x := if e < x then e else x;
      assert s == rest + {e};
    }
  }

  method SortedDays(days: set<int>) returns (sorted: seq<int>)
    ensures Ascending(sorted) && Members(sorted) == days
  {
    sorted := [];
    var left := days;
    while left != {}
      invariant Ascending(sorted) && Members(sorted) + left == days
      invariant forall i, d :: 0 <= i < |sorted| && d in left ==> sorted[i] < d
      decreases left
    {
      ghost var least := LeastOf(left);
      var d :| d in left && forall y :: y in left ==> d <= y;
      var was := sorted;
      sorted := sorted + [d];
      assert forall i :: 0 <= i < |was| ==> sorted[i] == was[i];
      assert sorted[|was|] == d;
      assert Members(sorted) == Members(was) + {d};
      left := left - {d};
    }
  }

  /** How an await that does not return ends the pass: with an exception, possibly after the
      watermark was written, or cancelled by a shutdown. */
  datatype Interruption = Raised(marked: bool) | Cancelled

  class AnalyticsService {
    const z: Zone
    const maxDays: nat
    // The sightings table, the day rows and the watermark.
    var facts: seq<SightingFact>
    var rows: map<int, Stored>
    var watermark: Option<int>
    // The service's own fields.
    var running: bool
    var subscribed: bool
    var dirty: set<int>
    var currentDay: int
    var clock: int
    ghost var plannedFrom: int
    ghost var contiguous: bool

    ghost function State(): System
      reads this
    {
      System(
        Database(facts, rows, watermark),
        if running then Some(Service(dirty, currentDay, subscribed, None, plannedFrom, contiguous)) else None,
        clock)
    }

    constructor (z: Zone, maxDays: nat, clock: int)
      ensures this.z == z && this.maxDays == maxDays && State() == NewInstall(clock)
    {
      this.z, this.maxDays, this.clock := z, maxDays, clock;
      facts, rows, watermark, running, subscribed := [], map[], None, false, false;
    }

    /** Marks the day each notified sighting started in. */
    method RecordLifecycle(started: seq<int>)
      requires running && subscribed
      modifies this`dirty
      ensures State() == Step(z, maxDays, old(State()), Commit(facts, started))
      ensures forall d :: d in dirty <==> d in old(dirty) || StartedOn(z, started, d)
    {
      for n := 0 to |started|
        invariant dirty == old(dirty) + set i | 0 <= i < n :: z.localDay(started[i])
      {
        dirty := dirty + {z.localDay(started[n])};
      }
    }

    /** Rebuilds days in order, one row each; failAt days succeed before an exception, if
        there are that many. */
    method RebuildDays(days: seq<int>, nowMs: int, failAt: nat, ghost begun: System)
      returns (ok: bool, ghost es: seq<Event>)
      requires z.Valid() && running
      requires begun.db == State().db && begun.service.Some? && begun.service.value.pass.Some?
      requires
        var p := begun.service.value.pass.value;
        p.todo == days && p.nowMs == nowMs && p.reading.None?
      modifies this`rows
      ensures ok <==> failAt >= |days|
      ensures Feasible(z, maxDays, begun, es) && forall i :: 0 <= i < |es| ==> RebuildEvent(es[i])
      ensures
        var k := if ok then |days| else failAt;
        var p := begun.service.value.pass.value;
        Run(z, maxDays, begun, es)
        == begun.(db := State().db, service := Some(begun.service.value.(pass := Some(p.(todo := days[k..])))))
    {
      es := FeasibleNothing(z, maxDays, begun);
      ghost var v := begun.service.value;
      ghost var p := v.pass.value;
      hide *;
      for n := 0 to |days|
        invariant n <= failAt
        invariant Feasible(z, maxDays, begun, es) && forall i :: 0 <= i < |es| ==> RebuildEvent(es[i])
        invariant Run(z, maxDays, begun, es)
                  == begun.(db := State().db, service := Some(v.(pass := Some(p.(todo := days[n..], reading := None)))))
      {
        if n == failAt {
          return false, es;
        }
        var d := days[n];
        var dayFacts := FactsOn(z, facts, d);
        var closed := z.dayStart(d + 1) <= nowMs;
        var rollup := FoldDay(z, d, dayFacts, closed);
        es := RebuildOne(z, maxDays, begun, es, State().db, days, n, rollup);
        rows := rows[d := Stored(rollup, closed)];
      }
      return true, es;
    }

    /** The guarded part of flush: rebuild, advance the watermark, or put the days back. */
    method RunFlush(todo: seq<int>, due: set<int>, ended: Ended, awaits: nat, how: Interruption, ghost s0: System, ghost es0: seq<Event>)
      returns (failed: bool, ghost es: seq<Event>)
      requires z.Valid() && running && Ascending(todo) && Members(todo) == due
      requires Feasible(z, maxDays, s0, es0)
      requires
        var pass := Pass(Kind.Flush, clock, due, todo, None, ended.days, ended.complete);
        Run(z, maxDays, s0, es0) == State().(service := Some(State().service.value.(pass := Some(pass))))
      modifies this`rows, this`watermark, this`dirty, this`subscribed
      ensures Feasible(z, maxDays, s0, es) && State() == Run(z, maxDays, s0, es)
      ensures failed <==> awaits <= |due|
      ensures dirty == old(dirty) + if failed && how.Raised? then due else {}
      ensures subscribed == (old(subscribed) && !(failed && how.Cancelled?))
    {
      hide IsFold, FactsOn, Feasible, Run, Step, Enabled;
      ghost var begun := Run(z, maxDays, s0, es0);
      var ok, rebuilt := RebuildDays(todo, clock, awaits, begun);
      AscendingLength(todo);
      es := FeasibleAppend(z, maxDays, s0, es0, rebuilt);
      if !ok || awaits == |todo| {
        if how.Cancelled? {
          es := StoppingPass(z, maxDays, s0, es);
          subscribed := false;
          return true, es;
        }
        es := FailingPass(z, maxDays, s0, es, ok && how.marked);
        if ok && how.marked && ended.days != [] && ended.complete {
          watermark := Some(ended.days[|ended.days| - 1]);
        }
        dirty := dirty + due;
        return true, es;
      }
      es := FinishingPass(z, maxDays, s0, es);
      if ended.days != [] && ended.complete {
        watermark := Some(ended.days[|ended.days| - 1]);
      }
      return false, es;
    }

    /** The start of flush: the days that ended, and what is due drained out of the dirty set. */
    method RollOver(nowMs: int) returns (todo: seq<int>, due: set<int>, ended: Ended, ghost es: seq<Event>)
      requires z.Valid() && running && clock <= nowMs
      modifies this`clock, this`dirty, this`currentDay, this`contiguous
      ensures clock == nowMs && currentDay == z.localDay(nowMs)
      ensures ended == Rollover(old(currentDay), currentDay) && due == Due(old(dirty), ended.days, currentDay)
      ensures dirty == {} && Ascending(todo) && Members(todo) == due
      ensures Feasible(z, maxDays, old(State()), es)
      ensures
        var pass := if due == {} then None else Some(Pass(Kind.Flush, clock, due, todo, None, ended.days, ended.complete));
        Run(z, maxDays, old(State()), es) == State().(service := Some(State().service.value.(pass := pass)))
    {
      hide IsFold, FactsOn, Feasible, Run, Step, Enabled, Rollover, Members, Ascending, Due;
      ghost var s0 := State();
      clock := nowMs;
      var today := z.localDay(nowMs);
      ended := Rollover(currentDay, today);
      due := Due(dirty, ended.days, today);
      todo := SortedDays(due);
      es := BeginningFlush(z, maxDays, s0, nowMs, todo);
      DueTakesAll(dirty, ended.days, today);
      dirty, currentDay, contiguous := dirty - due, today, contiguous && ended.complete;
    }

    /** Rebuild what is dirty and what has closed. awaits counts the database calls that
        succeed before one does not: the day rebuilds first, then the watermark. An exception
        puts the drained days back; a cancellation does not. */
    method Flush(nowMs: int, awaits: nat, how: Interruption) returns (failed: bool, ghost es: seq<Event>)
      requires z.Valid() && running && clock <= nowMs
      modifies this
      ensures Feasible(z, maxDays, old(State()), es) && State() == Run(z, maxDays, old(State()), es)
      ensures clock == nowMs && currentDay == z.localDay(nowMs) && facts == old(facts)
      ensures
        var due := Due(old(dirty), Rollover(old(currentDay), currentDay).days, currentDay);
        && (failed <==> due != {} && awaits <= |due|)
        && dirty == (if failed && how.Raised? then due else {})
        && running && subscribed == (old(subscribed) && !(failed && how.Cancelled?))
    {
      hide IsFold, FactsOn, Feasible, Run, Step, Enabled, Rollover, Members, Ascending, Due;
      ghost var s0 := State();
      var todo, due, ended;
      todo, due, ended, es := RollOver(nowMs);
      if due == {} {
        return false, es;
      }
      failed, es := RunFlush(todo, due, ended, awaits, how, s0, es);
    }

    /** stop, once a flush under way has been cancelled: no more notifications, one last flush,
        and the process is done. */
    method Stop(nowMs: int, awaits: nat, marked: bool) returns (failed: bool, ghost es: seq<Event>)
      requires z.Valid() && running && clock <= nowMs
      modifies this
      ensures Feasible(z, maxDays, old(State()), es) && State() == Run(z, maxDays, old(State()), es)
      ensures !running && facts == old(facts)
    {
      hide IsFold, FactsOn, Feasible, Run, Enabled, Rollover, Members, Ascending, Due;
      ghost var s0 := State();
      es := Stopping(z, maxDays, s0);
      subscribed := false;
      ghost var last;
      failed, last := Flush(nowMs, awaits, Raised(marked));
      es := FeasibleAppend(z, maxDays, s0, es, last);
      es := Ending(z, maxDays, s0, es);
      running := false;
    }

    /** The repair itself: rebuild the plan and advance the watermark, if it had closed days, or
        leave it. */
    method RunRepair(planned: seq<int>, closed: seq<int>, awaits: nat, marked: bool, ghost s0: System, ghost es0: seq<Event>)
      returns (repaired: bool, ghost es: seq<Event>)
      requires z.Valid() && running && !contiguous
      requires Feasible(z, maxDays, s0, es0)
      requires
        var pass := Pass(Repair, clock, Members(planned), planned, None, closed, true);
        Run(z, maxDays, s0, es0)
        == State().(service := Some(State().service.value.(subscribed := false, pass := Some(pass))))
      requires subscribed
      modifies this`rows, this`watermark, this`contiguous
      ensures Feasible(z, maxDays, s0, es) && State() == Run(z, maxDays, s0, es)
      ensures repaired <==> awaits > |planned|
    {
      hide IsFold, FactsOn, Feasible, Run, Step, Enabled, Members;
      ghost var begun := Run(z, maxDays, s0, es0);
      var ok, rebuilt := RebuildDays(planned, clock, awaits, begun);
      es := FeasibleAppend(z, maxDays, s0, es0, rebuilt);
      if !ok || awaits == |planned| {
        es := FailingPass(z, maxDays, s0, es, ok && marked);
        if ok && marked && closed != [] {
          watermark := Some(closed[|closed| - 1]);
        }
        return false, es;
      }
      es := FinishingPass(z, maxDays, s0, es);
      if closed != [] {
        watermark := Some(closed[|closed| - 1]);
      }
      contiguous := Members(planned) == {} || currentDay in Members(planned);
      return true, es;
    }

    /** Forget, repair, subscribe. */
    method Start(nowMs: int, awaits: nat, marked: bool) returns (repaired: bool, ghost es: seq<Event>)
      requires z.Valid() && !running && clock <= nowMs && maxDays >= 1
      modifies this
      ensures Feasible(z, maxDays, old(State()), es) && State() == Run(z, maxDays, old(State()), es)
      ensures running && dirty == {} && currentDay == z.localDay(nowMs) && facts == old(facts)
    {
      hide IsFold, FactsOn, Feasible, Run, Step, Enabled, PlanFloor, Members;
      ghost var s0 := State();
      clock := nowMs;
      var today := z.localDay(nowMs);
      es := Booting(z, maxDays, s0, nowMs);
      running, subscribed, dirty, currentDay := true, true, {}, today;
      if facts == [] {
        plannedFrom, contiguous := today, false;
        NoMembers();
        repaired, es := RunRepair([], [], awaits, marked, s0, es);
        return;
      }
      var floor := PlanFloor(z, Database(facts, rows, watermark), today);
      var ceiling := PlanCeiling(floor, today, maxDays);
      plannedFrom, contiguous := floor, false;
      var planned := EnumeratedDays(floor, ceiling);
      if planned.None? {
        return false, es;
      }
      PlanReachesYesterday(z, Database(facts, rows, watermark), today, maxDays);
      var closed := DaysInRange(floor, Least(ceiling, today - 1));
      repaired, es := RunRepair(planned.value, closed, awaits, marked, s0, es);
    }
  }

  lemma NoMembers()
    ensures Members([]) == {}
  {
  }

  lemma DueTakesAll(dirty: set<int>, closed: seq<int>, today: int)
    ensures var due := Due(dirty, closed, today); dirty - due == {} && (due == {} ==> dirty == {})
  {
  }

  lemma PlanReachesYesterday(z: Zone, db: Database, today: int, maxDays: nat)
    requires db.facts != [] && maxDays >= 1
    ensures PlanFloor(z, db, today) <= Least(PlanCeiling(PlanFloor(z, db, today), today, maxDays), today - 1)
  {
  }

  lemma BeginningFlush(z: Zone, maxDays: nat, s: System, nowMs: int, todo: seq<int>) returns (es: seq<Event>)
    requires s.service.Some? && s.service.value.pass.None? && s.clock <= nowMs
    requires
      var v, today := s.service.value, z.localDay(nowMs);
      Ascending(todo) && Members(todo) == Due(v.dirty, Rollover(v.currentDay, today).days, today)
    ensures Feasible(z, maxDays, s, es)
    ensures Run(z, maxDays, s, es) == System(s.db, Some(StartFlush(s.service.value, nowMs, z.localDay(nowMs), todo)), nowMs)
  {
    hide Feasible, Run;
    es := FeasibleNothing(z, maxDays, s);
    es := FeasibleStep(z, maxDays, s, es, Tick(nowMs));
    es := FeasibleStep(z, maxDays, s, es, BeginFlush(todo));
  }

  lemma Booting(z: Zone, maxDays: nat, s: System, nowMs: int) returns (es: seq<Event>)
    requires s.service.None? && s.clock <= nowMs
    ensures Feasible(z, maxDays, s, es)
    ensures Run(z, maxDays, s, es) == System(s.db, Some(BootService(z, s.(clock := nowMs), maxDays)), nowMs)
  {
    hide Feasible, Run, BootService;
    es := FeasibleNothing(z, maxDays, s);
    es := FeasibleStep(z, maxDays, s, es, Tick(nowMs));
    es := FeasibleStep(z, maxDays, s, es, Boot);
  }

  lemma FailingPass(z: Zone, maxDays: nat, s0: System, es: seq<Event>, marked: bool) returns (more: seq<Event>)
    requires Feasible(z, maxDays, s0, es)
    requires var s := Run(z, maxDays, s0, es); s.service.Some? && s.service.value.pass.Some?
    requires marked ==> Run(z, maxDays, s0, es).service.value.pass.value.todo == []
    ensures Feasible(z, maxDays, s0, more)
    ensures
      var s := Run(z, maxDays, s0, es);
      var v := s.service.value;
      var p := v.pass.value;
      Run(z, maxDays, s0, more)
      == s.(db := if marked && LastClosed(p).Some? then s.db.(watermark := LastClosed(p)) else s.db,
            service := Some(v.(dirty := if p.kind.Flush? then v.dirty + p.due else v.dirty,
                               pass := None, subscribed := p.kind.Repair? || v.subscribed)))
  {
    hide Feasible, Run;
    more := FeasibleStep(z, maxDays, s0, es, FailPass(marked));
  }

  lemma Stopping(z: Zone, maxDays: nat, s: System) returns (es: seq<Event>)
    requires s.service.Some? && s.service.value.pass.None?
    ensures Feasible(z, maxDays, s, es) && Run(z, maxDays, s, es) == s.(service := Some(s.service.value.(subscribed := false)))
  {
    hide Feasible, Run;
    es := FeasibleNothing(z, maxDays, s);
    es := FeasibleStep(z, maxDays, s, es, RollupProtocol.Stop);
  }

  lemma Ending(z: Zone, maxDays: nat, s0: System, es: seq<Event>) returns (more: seq<Event>)
    requires Feasible(z, maxDays, s0, es) && Run(z, maxDays, s0, es).service.Some?
    ensures Feasible(z, maxDays, s0, more) && Run(z, maxDays, s0, more) == Run(z, maxDays, s0, es).(service := None)
  {
    hide Feasible, Run;
    more := FeasibleStep(z, maxDays, s0, es, Crash);
  }

  lemma StoppingPass(z: Zone, maxDays: nat, s0: System, es: seq<Event>) returns (more: seq<Event>)
    requires Feasible(z, maxDays, s0, es)
    requires var s := Run(z, maxDays, s0, es); s.service.Some? && s.service.value.pass.Some? && s.service.value.pass.value.kind.Flush?
    ensures Feasible(z, maxDays, s0, more)
    ensures
      var s := Run(z, maxDays, s0, es);
      Run(z, maxDays, s0, more) == s.(service := Some(s.service.value.(pass := None, subscribed := false)))
  {
    hide Feasible, Run;
    more := FeasibleStep(z, maxDays, s0, es, RollupProtocol.Stop);
  }

  lemma FinishingPass(z: Zone, maxDays: nat, s0: System, es: seq<Event>) returns (more: seq<Event>)
    requires Feasible(z, maxDays, s0, es)
    requires var s := Run(z, maxDays, s0, es); s.service.Some? && s.service.value.pass.Some? && s.service.value.pass.value.todo == []
    ensures Feasible(z, maxDays, s0, more)
    ensures
      var s := Run(z, maxDays, s0, es);
      var v := s.service.value;
      var p := v.pass.value;
      Run(z, maxDays, s0, more)
      == s.(db := if LastClosed(p).Some? then s.db.(watermark := LastClosed(p)) else s.db,
            service := Some(v.(pass := None, subscribed := p.kind.Repair? || v.subscribed,
                               contiguous := if p.kind.Repair? then p.due == {} || v.currentDay in p.due else v.contiguous)))
  {
    hide Feasible, Run;
    more := FeasibleStep(z, maxDays, s0, es, FinishPass);
  }

  /** One turn of RebuildDays is one read and one write. */
  lemma RebuildOne(
    z: Zone, maxDays: nat, begun: System, es: seq<Event>, db: Database, days: seq<int>, n: nat, row: DayRollup)
    returns (more: seq<Event>)
    requires n < |days|
    requires Feasible(z, maxDays, begun, es) && forall i :: 0 <= i < |es| ==> RebuildEvent(es[i])
    requires begun.service.Some? && begun.service.value.pass.Some?
    requires
      var v := begun.service.value;
      Run(z, maxDays, begun, es) == begun.(db := db, service := Some(v.(pass := Some(v.pass.value.(todo := days[n..], reading := None)))))
    requires IsFold(z, days[n], FactsOn(z, db.facts, days[n]), z.dayStart(days[n] + 1) <= begun.service.value.pass.value.nowMs, row)
    ensures Feasible(z, maxDays, begun, more) && forall i :: 0 <= i < |more| ==> RebuildEvent(more[i])
    ensures
      var v := begun.service.value;
      var closed := z.dayStart(days[n] + 1) <= v.pass.value.nowMs;
      Run(z, maxDays, begun, more)
      == begun.(db := db.(rows := db.rows[days[n] := Stored(row, closed)]),
                service := Some(v.(pass := Some(v.pass.value.(todo := days[n + 1..], reading := None)))))
  {
    hide IsFold, FactsOn, Feasible, Run;
    assert days[n..][0] == days[n] && days[n..][1..] == days[n + 1..];
    more := FeasibleStep(z, maxDays, begun, es, ReadDay);
    more := FeasibleStep(z, maxDays, begun, more, WriteDay(row));
  }

  lemma {:induction false} FeasibleAppend(z: Zone, maxDays: nat, s: System, es: seq<Event>, fs: seq<Event>) returns (more: seq<Event>)
    requires Feasible(z, maxDays, s, es) && Feasible(z, maxDays, Run(z, maxDays, s, es), fs)
    ensures more == es + fs && Feasible(z, maxDays, s, more)
    ensures Run(z, maxDays, s, more) == Run(z, maxDays, Run(z, maxDays, s, es), fs)
  {
    hide Enabled, Step;
    more := es + fs;
    if fs == [] {
      assert more == es;
    } else {
      var n := |fs| - 1;
      FeasiblePrefix(z, maxDays, Run(z, maxDays, s, es), fs);
      hide Feasible, Run;
      var init := FeasibleAppend(z, maxDays, s, es, fs[..n]);
      var all := FeasibleStep(z, maxDays, s, init, fs[n]);
      assert all == more;
    }
  }

  lemma FeasiblePrefix(z: Zone, maxDays: nat, s: System, fs: seq<Event>)
    requires Feasible(z, maxDays, s, fs) && fs != []
    ensures
      var n := |fs| - 1;
      && Feasible(z, maxDays, s, fs[..n]) && Enabled(z, Run(z, maxDays, s, fs[..n]), fs[n])
      && Run(z, maxDays, s, fs) == Step(z, maxDays, Run(z, maxDays, s, fs[..n]), fs[n])
  {
    hide Enabled, Step;
    var n := |fs| - 1;
    assert forall i :: 0 <= i < n ==> fs[..n][..i] == fs[..i] && fs[..n][i] == fs[i];
  }

  lemma {:induction false} AscendingLength(days: seq<int>)
    requires Ascending(days)
    ensures |Members(days)| == |days|
  {
    if days != [] {
      var n := |days| - 1;
      AscendingLength(days[..n]);
      PrefixMembers(days, n);
      assert days[..n + 1] == days;
    } else {
      assert Members(days) == {};
    }
  }
}
