/** Rollup maintenance as a protocol (analytics/service.py, analytics/backfill.py).

    Rows of the day table are rebuilt from the sightings table by two kinds of pass: the
    startup repair and the periodic flush. Each pass reads and writes one day at a time,
    so a sighting can be committed between a day's read and its write, a pass can fail
    after any day, and the process can die anywhere. One event is one such step. */
module RollupProtocol {
  import opened Days
  import opened Rollup
  import opened Sequences
  import opened Wrappers

  const MAX_ROLLOVER_DAYS: nat := 31

  /** A stored row, with the `closed` argument it was folded with. */
  datatype Stored = Stored(rollup: DayRollup, closed: bool)

  datatype Database = Database(facts: seq<SightingFact>, rows: map<int, Stored>, watermark: Option<int>)

  datatype Kind = Repair | Flush

  /** A pass under way: the days it took, those still to do, and the facts of the day being
      rebuilt once they have been read. closed lists the closed days whose completion the
      watermark will record; complete says that the run has no hole behind it. */
  datatype Pass = Pass(
    kind: Kind, nowMs: int, due: set<int>, todo: seq<int>, reading: Option<seq<SightingFact>>,
    closed: seq<int>, complete: bool)

  /** The fields of AnalyticsService, and two facts about its history that the properties
      below speak of: the first day its startup repair planned, and whether every day it has
      seen end was queued for a rebuild. */
  datatype Service = Service(
    dirty: set<int>, currentDay: int, subscribed: bool, pass: Option<Pass>,
    plannedFrom: int, contiguous: bool)

  datatype System = System(db: Database, service: Option<Service>, clock: int)

  /** FailPass is an exception in the pass, marked if the watermark was written before it was
      lost. Stop is the first half of a shutdown: it cancels the flush under way, whose days
      nobody puts back, and ends the notifications; a last flush may follow it. */
  datatype Event =
    | Tick(nowMs: int)
    | Commit(facts: seq<SightingFact>, started: seq<int>)
    | BeginFlush(todo: seq<int>)
    | ReadDay
    | WriteDay(row: DayRollup)
    | FinishPass
    | FailPass(marked: bool)
    | Stop
    | Crash
    | Boot

  function Least(x: int, y: int): int { if x <= y then x else y }

  // ----- The steps -----

  datatype Ended = Ended(days: seq<int>, complete: bool)

  /** Every day that ended since the last pass, capped, and whether the cap left none out. */
  function Rollover(previous: int, today: int): Ended {
    if previous >= today then Ended([], true)
    else
      var floor := if previous >= today - MAX_ROLLOVER_DAYS then previous else today - MAX_ROLLOVER_DAYS;
      Ended(DaysInRange(floor, today - 1), floor == previous)
  }

  function Due(dirty: set<int>, closed: seq<int>, today: int): set<int> {
    var due := dirty + Members(closed);
    if due == {} then {} else due + {today}
  }

  function EarliestStart(facts: seq<SightingFact>): int
    requires facts != []
  {
    if |facts| == 1 then facts[0].startedMs
    else Least(EarliestStart(facts[..|facts| - 1]), facts[|facts| - 1].startedMs)
  }

  lemma {:induction false} EarliestIsLeast(facts: seq<SightingFact>)
    requires facts != []
    ensures forall f :: f in facts ==> EarliestStart(facts) <= f.startedMs
    ensures exists f :: f in facts && f.startedMs == EarliestStart(facts)
  {
    var n := |facts| - 1;
    assert facts == facts[..n] + [facts[n]];
    if n > 0 {
      EarliestIsLeast(facts[..n]);
      var f :| f in facts[..n] && f.startedMs == EarliestStart(facts[..n]);
      assert f in facts && facts[n] in facts;
    } else {
      assert facts[0] in facts;
    }
  }

  function PlanFloor(z: Zone, db: Database, today: int): int
    requires db.facts != []
  {
    var from := if db.watermark.Some? then db.watermark.value + 1 else z.localDay(EarliestStart(db.facts));
    Least(from, today - 1)
  }

  function PlanCeiling(floor: int, today: int, maxDays: nat): int { Least(today, floor + maxDays - 1) }

  /** Boot: nothing is remembered, and the repair is planned. With no history there is nothing to
      rebuild; a range that days_in_range refuses ends the repair at once. */
  function BootService(z: Zone, s: System, maxDays: nat): Service {
    var today := z.localDay(s.clock);
    if s.db.facts == [] then Service({}, today, false, Some(Pass(Repair, s.clock, {}, [], None, [], true)), today, false)
    else
      var floor := PlanFloor(z, s.db, today);
      var ceiling := PlanCeiling(floor, today, maxDays);
      if EnumeratedDays(floor, ceiling).None? then Service({}, today, true, None, floor, false)
      else
        var planned := EnumeratedDays(floor, ceiling).value;
        var closed := DaysInRange(floor, Least(ceiling, today - 1));
        Service({}, today, false, Some(Pass(Repair, s.clock, Members(planned), planned, None, closed, true)), floor, false)
  }

  function LastClosed(p: Pass): Option<int> {
    if p.closed != [] && p.complete then Some(p.closed[|p.closed| - 1]) else None
  }

  /** One of the notified sightings started on the day. */
  predicate StartedOn(z: Zone, started: seq<int>, d: int) { exists i :: 0 <= i < |started| && z.localDay(started[i]) == d }

  function Notified(z: Zone, v: Service, started: seq<int>): set<int> {
    if v.subscribed then set i | 0 <= i < |started| :: z.localDay(started[i]) else {}
  }

  /** The start of flush: roll the day over, and drain what is due into a pass. */
  function StartFlush(v: Service, nowMs: int, today: int, todo: seq<int>): Service {
    var ended := Rollover(v.currentDay, today);
    var due := Due(v.dirty, ended.days, today);
    v.(dirty := v.dirty - due, currentDay := today, contiguous := v.contiguous && ended.complete,
       pass := if due == {} then None else Some(Pass(Flush, nowMs, due, todo, None, ended.days, ended.complete)))
  }

  predicate Repairing(v: Service) { v.pass.Some? && v.pass.value.kind.Repair? }

  /** Shutting down: no longer notified, and not because it is still starting. */
  predicate Stopped(v: Service) { !v.subscribed && !Repairing(v) }

  /** The events that can happen in a state, and what the environment may offer with them. */
  ghost predicate Enabled(z: Zone, s: System, e: Event) {
    match e
    case Tick(now) => s.clock <= now
    case Commit(facts, started) => true
    case BeginFlush(todo) =>
      && s.service.Some? && s.service.value.pass.None?
      && (var v := s.service.value;
          var today := z.localDay(s.clock);
          Ascending(todo) && Members(todo) == Due(v.dirty, Rollover(v.currentDay, today).days, today))
    case ReadDay => s.service.Some? && s.service.value.pass.Some? && s.service.value.pass.value.todo != []
    case WriteDay(row) =>
      && s.service.Some? && s.service.value.pass.Some?
      && (var p := s.service.value.pass.value;
          && p.todo != [] && p.reading.Some?
          && IsFold(z, p.todo[0], p.reading.value, z.dayStart(p.todo[0] + 1) <= p.nowMs, row))
    case FinishPass => s.service.Some? && s.service.value.pass.Some? && s.service.value.pass.value.todo == []
    case FailPass(marked) => s.service.Some? && s.service.value.pass.Some? && (marked ==> s.service.value.pass.value.todo == [])
    case Stop => s.service.Some? && !Repairing(s.service.value)
    case Crash => s.service.Some?
    case Boot => s.service.None?
  }

  function Step(z: Zone, maxDays: nat, s: System, e: Event): System {
    match e
    case Tick(now) => s.(clock := now)
    case Commit(facts, started) =>
      var db := s.db.(facts := facts);
      if s.service.None? then s.(db := db)
      else
        var v := s.service.value;
        s.(db := db, service := Some(v.(dirty := v.dirty + Notified(z, v, started))))
    case BeginFlush(todo) =>
      if s.service.None? then s
      else
        var v := s.service.value;
        var today := z.localDay(s.clock);
        s.(service := Some(StartFlush(v, s.clock, today, todo)))
    case ReadDay =>
      if s.service.None? || s.service.value.pass.None? || s.service.value.pass.value.todo == [] then s
      else
        var v := s.service.value;
        var p := v.pass.value;
        s.(service := Some(v.(pass := Some(p.(reading := Some(FactsOn(z, s.db.facts, p.todo[0])))))))
    case WriteDay(row) =>
      if s.service.None? || s.service.value.pass.None? || s.service.value.pass.value.todo == [] then s
      else
        var v := s.service.value;
        var p := v.pass.value;
        var d := p.todo[0];
        s.(db := s.db.(rows := s.db.rows[d := Stored(row, z.dayStart(d + 1) <= p.nowMs)]),
           service := Some(v.(pass := Some(p.(todo := p.todo[1..], reading := None)))))
    case FinishPass =>
      if s.service.None? || s.service.value.pass.None? then s
      else
        var v := s.service.value;
        var p := v.pass.value;
        var through := LastClosed(p);
        s.(db := if through.Some? then s.db.(watermark := through) else s.db,
           service := Some(v.(
             pass := None, subscribed := p.kind.Repair? || v.subscribed,
             contiguous := if p.kind.Repair? then p.due == {} || v.currentDay in p.due else v.contiguous)))
    case FailPass(marked) =>
      if s.service.None? || s.service.value.pass.None? then s
      else
        var v := s.service.value;
        var p := v.pass.value;
        var through := if marked then LastClosed(p) else None;
        s.(db := if through.Some? then s.db.(watermark := through) else s.db,
           service := Some(v.(
             dirty := if p.kind.Flush? then v.dirty + p.due else v.dirty, pass := None,
             subscribed := p.kind.Repair? || v.subscribed)))
    case Stop =>
      if s.service.None? || Repairing(s.service.value) then s
      else s.(service := Some(s.service.value.(pass := None, subscribed := false)))
    case Crash => s.(service := None)
    case Boot => s.(service := Some(BootService(z, s, maxDays)))
  }

  function Run(z: Zone, maxDays: nat, s: System, es: seq<Event>): System {
    if es == [] then s else Step(z, maxDays, Run(z, maxDays, s, es[..|es| - 1]), es[|es| - 1])
  }

  ghost predicate Feasible(z: Zone, maxDays: nat, s: System, es: seq<Event>) {
    forall i :: 0 <= i < |es| ==> Enabled(z, Run(z, maxDays, s, es[..i]), es[i])
  }

  // ----- What the protocol is for -----

  ghost predicate Fresh(z: Zone, facts: seq<SightingFact>, rows: map<int, Stored>, d: int) {
    d in rows && IsFold(z, d, FactsOn(z, facts, d), rows[d].closed, rows[d].rollup)
  }

  /** A day with a row or a sighting whose row is not the fold of its sightings. */
  ghost predicate Stale(z: Zone, facts: seq<SightingFact>, rows: map<int, Stored>, d: int) {
    (d in rows || FactsOn(z, facts, d) != []) && !Fresh(z, facts, rows, d)
  }

  /** The day's row was built after the day was over. */
  predicate Final(rows: map<int, Stored>, d: int) { d in rows && rows[d].closed }

  function Todo(v: Service): set<int> {
    if v.pass.Some? then Members(v.pass.value.todo) else {}
  }

  /** Until the service shuts down, every stale day from the first planned one on is queued or
      in the pass under way. */
  ghost predicate StaleIsQueued(z: Zone, s: System) {
    s.service.Some? && !Stopped(s.service.value) ==>
      var v := s.service.value;
      forall d :: v.plannedFrom <= d && Stale(z, s.db.facts, s.db.rows, d) ==> d in v.dirty || d in Todo(v)
  }

  /** The watermark keeps its promise from the history floor on. */
  ghost predicate WatermarkSound(db: Database, floor: int) {
    db.watermark.Some? ==> forall d :: floor <= d <= db.watermark.value ==> Final(db.rows, d)
  }

  // ----- The conditions under which it is met -----

  /** Days of facts that the step changes. */
  ghost predicate Changes(z: Zone, before: seq<SightingFact>, after: seq<SightingFact>, d: int) {
    FactsOn(z, before, d) != FactsOn(z, after, d)
  }

  /** In the pass, and not read yet. */
  predicate Unread(p: Pass, d: int) {
    d in Members(if p.reading.Some? && p.todo != [] then p.todo[1..] else p.todo)
  }

  /** A change to the day reaches the service: it is notified; or it is still starting, and
      its repair has yet to read the day, or begins after it. */
  predicate Reaches(z: Zone, v: Service, started: seq<int>, d: int) {
    || (v.subscribed && StartedOn(z, started, d))
    || (Repairing(v) && (d < v.plannedFrom || Unread(v.pass.value, d)))
  }

  /** What the surrounding process guarantees: sightings start no later than now and no
      earlier than the history floor, where history begins; history is not erased; and while the
      service runs a day's facts change only together with a notification it receives or, while
      it is starting, before its repair reads the day. */
  ghost predicate Announced(z: Zone, floor: int, s: System, e: Event) {
    && (e.Commit? ==>
          && (s.db.facts != [] ==> e.facts != [])
          && (e.facts != [] ==> z.localDay(EarliestStart(e.facts)) == floor)
          && (forall i :: 0 <= i < |e.facts| ==> e.facts[i].startedMs <= s.clock)
          && (forall i :: 0 <= i < |e.started| ==> e.started[i] <= s.clock)
          && (s.service.Some? && !Stopped(s.service.value) ==>
                forall d :: Changes(z, s.db.facts, e.facts, d) ==> Reaches(z, s.service.value, e.started, d)))
    && (e.Boot? ==> s.db.facts == [] ==> z.localDay(s.clock) <= floor)
  }

  /** Startup repairs reach today and complete, no pass has to leave days out, and no shutdown
      cancels a flush under way. */
  ghost predicate Unhurried(z: Zone, maxDays: nat, s: System, e: Event) {
    && (e.Boot? && s.db.facts != [] ==>
          var today := z.localDay(s.clock);
          var plan := PlanFloor(z, s.db, today);
          PlanCeiling(plan, today, maxDays) == today && today - plan < MAX_WINDOW_DAYS)
    && (e.FailPass? && s.service.Some? && s.service.value.pass.Some? ==> s.service.value.pass.value.kind.Flush?)
    && (e.BeginFlush? && s.service.Some? ==> Rollover(s.service.value.currentDay, z.localDay(s.clock)).complete)
    && (e.Stop? && s.service.Some? ==> s.service.value.pass.None?)
  }

  ghost predicate Ordinary(z: Zone, maxDays: nat, floor: int, s: System, es: seq<Event>) {
    forall i :: 0 <= i < |es| ==>
      var at := Run(z, maxDays, s, es[..i]);
      Enabled(z, at, es[i]) && Announced(z, floor, at, es[i]) && Unhurried(z, maxDays, at, es[i])
  }

  function NewInstall(clock: int): System { System(Database([], map[], None), None, clock) }

  // ----- The invariant -----

  /** A pass is internally consistent: what it has done stays done. */
  ghost predicate PassInvariant(z: Zone, s: System, v: Service, p: Pass) {
    && Ascending(p.todo) && Members(p.todo) <= p.due
    && p.nowMs <= s.clock && v.currentDay == z.localDay(p.nowMs)
    && (forall d :: d in p.due ==> d <= v.currentDay)
    && (p.reading.Some? ==>
          && p.todo != []
          && (!Stopped(v) && p.reading.value != FactsOn(z, s.db.facts, p.todo[0]) ==> p.todo[0] in v.dirty)
          && (s.db.facts == [] ==> p.reading.value == []))
    && (p.closed != [] ==> p.closed[|p.closed| - 1] < v.currentDay)
  }

  /** A repair with anything to do covers the first planned day to today. */
  predicate RepairInvariant(v: Service, p: Pass) {
    && p.complete && (forall d :: d in p.due ==> v.plannedFrom <= d)
    && if p.due == {} then p.closed == []
       else v.currentDay in p.due && p.closed != [] && p.closed[|p.closed| - 1] == v.currentDay - 1
  }

  ghost predicate ServiceInvariant(z: Zone, floor: int, s: System, v: Service) {
    && v.currentDay <= z.localDay(s.clock)
    && (s.db.watermark.Some? ==> s.db.watermark.value < v.currentDay)
    && (forall d :: d in v.dirty ==> d <= z.localDay(s.clock))
    && StaleIsQueued(z, s)
    && !(v.subscribed && Repairing(v))
    && (v.pass.Some? ==> PassInvariant(z, s, v, v.pass.value))
    && (Repairing(v) ==> RepairInvariant(v, v.pass.value))
    && (v.pass.Some? && v.pass.value.kind.Flush? ==>
          v.pass.value.closed != [] ==> v.pass.value.closed[|v.pass.value.closed| - 1] == v.currentDay - 1)
    && (!Repairing(v) ==> v.contiguous)
    // Closed days without a final row are queued; during a pass, in that pass.
    && (forall d :: floor <= d < v.currentDay && !Final(s.db.rows, d) ==>
          if v.pass.Some? then d in Todo(v) else d in v.dirty)
  }

  ghost predicate Invariant(z: Zone, floor: int, s: System) {
    && WatermarkSound(s.db, floor)
    && (s.db.watermark.Some? ==> s.db.watermark.value < z.localDay(s.clock))
    && (s.db.facts != [] ==> z.localDay(EarliestStart(s.db.facts)) == floor)
    && (forall i :: 0 <= i < |s.db.facts| ==> s.db.facts[i].startedMs <= s.clock)
    && (s.db.facts == [] ==> forall d :: d in s.db.rows ==> Fresh(z, s.db.facts, s.db.rows, d))
    && (forall d :: d in s.db.rows ==> d <= z.localDay(s.clock))
    && (s.service.Some? ==> ServiceInvariant(z, floor, s, s.service.value))
  }

  // ----- Each step keeps it -----

  lemma {:induction false} NothingAfter(db: seq<SightingFact>, lo: int, hi: int)
    requires forall i :: 0 <= i < |db| ==> db[i].startedMs < lo
    ensures FactsBetween(db, lo, hi) == []
  {
    if db != [] {
      assert forall i :: 0 <= i < |db| - 1 ==> db[..|db| - 1][i] == db[i];
      NothingAfter(db[..|db| - 1], lo, hi);
    }
  }

  lemma NoFutureFacts(z: Zone, s: System, d: int)
    requires z.Valid() && z.localDay(s.clock) < d
    requires forall i :: 0 <= i < |s.db.facts| ==> s.db.facts[i].startedMs <= s.clock
    ensures FactsOn(z, s.db.facts, d) == []
  {
    ClosedWhenLater(z, d - 1, s.clock);
    NothingAfter(s.db.facts, z.dayStart(d), z.dayStart(d + 1));
  }

  lemma NoFacts(z: Zone, facts: seq<SightingFact>, d: int)
    requires facts == []
    ensures FactsOn(z, facts, d) == []
  {
  }

  lemma NewInstallInvariant(z: Zone, floor: int, clock: int)
    requires z.Valid()
    ensures Invariant(z, floor, NewInstall(clock))
  {
  }

  lemma TickKeeps(z: Zone, maxDays: nat, floor: int, s: System, e: Event, t: System)
    requires t == Step(z, maxDays, s, e)
    requires z.Valid() && Invariant(z, floor, s) && e.Tick? && Enabled(z, s, e)
    ensures Invariant(z, floor, t)
  {
    hide IsFold, FactsBetween;
    LocalDayMonotone(z, s.clock, e.nowMs);
  }

  /** A commit changes only facts and the dirty set. */
  lemma CommitEffect(z: Zone, maxDays: nat, s: System, e: Event, t: System)
    requires t == Step(z, maxDays, s, e) && e.Commit?
    ensures t.clock == s.clock && t.db == s.db.(facts := e.facts)
    ensures s.service.None? ==> t.service == s.service
    ensures s.service.Some? ==>
              t.service == Some(s.service.value.(dirty := s.service.value.dirty + Notified(z, s.service.value, e.started)))
  {
    hide Notified;
  }

  lemma NotifiedDays(z: Zone, v: Service, started: seq<int>)
    ensures forall d :: d in Notified(z, v, started) <==> v.subscribed && StartedOn(z, started, d)
  {
  }

  lemma CommitStale(z: Zone, floor: int, s: System, e: Event, v: Service, dirty: set<int>)
    requires e.Commit? && Announced(z, floor, s, e) && s.service == Some(v) && !Stopped(v) && StaleIsQueued(z, s)
    requires dirty == v.dirty + Notified(z, v, e.started)
    ensures forall d :: v.plannedFrom <= d && Stale(z, e.facts, s.db.rows, d) ==> d in dirty || d in Todo(v)
  {
    hide IsFold, FactsOn, EarliestStart, Notified, StartedOn;
    NotifiedDays(z, v, e.started);
    forall d | v.plannedFrom <= d && Stale(z, e.facts, s.db.rows, d) ensures d in dirty || d in Todo(v) {
      if !Changes(z, s.db.facts, e.facts, d) {
        assert Stale(z, s.db.facts, s.db.rows, d);
      }
    }
  }

  lemma NotifiedByToday(z: Zone, floor: int, s: System, e: Event, v: Service)
    requires z.Valid() && e.Commit? && Announced(z, floor, s, e)
    ensures forall d :: d in Notified(z, v, e.started) ==> d <= z.localDay(s.clock)
  {
    forall d | d in Notified(z, v, e.started) ensures d <= z.localDay(s.clock) {
      var i :| 0 <= i < |e.started| && d == z.localDay(e.started[i]);
      LocalDayMonotone(z, e.started[i], s.clock);
    }
  }

  lemma CommitKeepsService(z: Zone, maxDays: nat, floor: int, s: System, e: Event, t: System)
    requires t == Step(z, maxDays, s, e)
    requires z.Valid() && Invariant(z, floor, s) && e.Commit? && Announced(z, floor, s, e) && s.service.Some?
    ensures t.service.Some? && ServiceInvariant(z, floor, t, t.service.value)
  {
    hide Step, Announced, PassInvariant, IsFold, FactsOn, EarliestStart, Notified, Stale, Fresh, Final, Members, WatermarkSound;
    CommitEffect(z, maxDays, s, e, t);
    var v, w := s.service.value, t.service.value;
    NotifiedByToday(z, floor, s, e, v);
    if !Stopped(v) {
      CommitStale(z, floor, s, e, v, w.dirty);
    }
    assert Todo(w) == Todo(v) && Stopped(w) == Stopped(v);
    if v.pass.Some? {
      CommitKeepsPass(z, floor, s, e, v, w.dirty);
    }
  }

  /** What the pass has read is still right, or its day is queued again. */
  lemma CommitKeepsPass(z: Zone, floor: int, s: System, e: Event, v: Service, dirty: set<int>)
    requires e.Commit? && Announced(z, floor, s, e) && s.service == Some(v) && v.pass.Some? && PassInvariant(z, s, v, v.pass.value)
    requires Repairing(v) ==> RepairInvariant(v, v.pass.value)
    requires dirty == v.dirty + Notified(z, v, e.started)
    ensures
      var t := System(s.db.(facts := e.facts), Some(v.(dirty := dirty)), s.clock);
      PassInvariant(z, t, v.(dirty := dirty), v.pass.value)
  {
    hide FactsOn, EarliestStart, Notified, StartedOn;
    NotifiedDays(z, v, e.started);
    if v.pass.value.reading.Some? {
      var d := v.pass.value.todo[0];
      assert d in Members(v.pass.value.todo) && d !in Members(v.pass.value.todo[1..]);
      hide Members;
      assert Stopped(v) || !Changes(z, s.db.facts, e.facts, d) || d in dirty;
    }
  }

  lemma CommitKeeps(z: Zone, maxDays: nat, floor: int, s: System, e: Event, t: System)
    requires t == Step(z, maxDays, s, e)
    requires z.Valid() && Invariant(z, floor, s) && e.Commit? && Announced(z, floor, s, e)
    ensures Invariant(z, floor, t)
  {
    CommitEffect(z, maxDays, s, e, t);
    if s.service.Some? {
      CommitKeepsService(z, maxDays, floor, s, e, t);
    }
    hide Step, IsFold, FactsOn, EarliestStart, Notified, Stale, Fresh, Final, ServiceInvariant, Changes, WatermarkSound;
  }

  lemma BeginFlushKeeps(z: Zone, maxDays: nat, floor: int, s: System, e: Event, t: System)
    requires t == Step(z, maxDays, s, e)
    requires z.Valid() && Invariant(z, floor, s) && e.BeginFlush? && Enabled(z, s, e) && Unhurried(z, maxDays, s, e)
    ensures Invariant(z, floor, t)
  {
    var v, today := s.service.value, z.localDay(s.clock);
    RolledOver(v.dirty, v.currentDay, today);
    if Due(v.dirty, Rollover(v.currentDay, today).days, today) == {} {
      var none: set<int> := {};
      assert v.dirty == none && none - none == none;
      assert t.service == Some(v.(contiguous := v.contiguous && true));
    } else {
      DueFlushKeeps(z, maxDays, floor, s, e, t);
    }
  }

  /** What a flush takes: whatever was queued, every day that ended since the last pass, at most
      the last thirty-one of them, and today if there is anything else. It knows that it left
      none out exactly when the last pass was no longer ago than that. */
  lemma FlushTakesExactly(dirty: set<int>, previous: int, today: int, d: int)
    ensures
      var ended := Rollover(previous, today);
      && (d in Members(ended.days) <==> previous <= d < today && today - 31 <= d)
      && Ascending(ended.days)
      && (ended.complete <==> previous >= today - 31)
      && (d in Due(dirty, ended.days, today) <==>
          || d in dirty || (previous <= d < today && today - 31 <= d)
          || (d == today && (dirty != {} || previous < today)))
  {
    hide Members;
    var floor := if previous >= today - MAX_ROLLOVER_DAYS then previous else today - MAX_ROLLOVER_DAYS;
    if previous < today {
      RangeMembers(floor, today - 1);
      assert Rollover(previous, today).days == DaysInRange(floor, today - 1);
      assert floor in Members(DaysInRange(floor, today - 1));
    } else {
      NoDays();
    }
    hide DaysInRange;
  }

  lemma NoDays()
    ensures Members([]) == {}
  {
  }

  /** What a complete rollover makes due. */
  lemma RolledOver(dirty: set<int>, previous: int, today: int)
    requires previous <= today && Rollover(previous, today).complete
    ensures
      var due := Due(dirty, Rollover(previous, today).days, today);
      && dirty <= due && (forall d :: previous <= d < today ==> d in due)
      && (due == {} ==> previous == today && dirty == {})
      && (due != {} ==> today in due && forall d :: d in due && d !in dirty ==> previous <= d <= today)
    ensures
      var closed := Rollover(previous, today).days;
      closed != [] ==> closed[|closed| - 1] == today - 1
  {
    RangeMembers(previous, today - 1);
    hide Members;
    assert previous < today ==> Rollover(previous, today).days == DaysInRange(previous, today - 1);
    hide DaysInRange;
    assert previous < today ==> previous in Due(dirty, Rollover(previous, today).days, today);
  }

  lemma DueFlushEffect(z: Zone, maxDays: nat, s: System, e: Event, t: System, due: set<int>)
    requires t == Step(z, maxDays, s, e) && e.BeginFlush? && Enabled(z, s, e) && Unhurried(z, maxDays, s, e)
    requires due == Due(s.service.value.dirty, Rollover(s.service.value.currentDay, z.localDay(s.clock)).days, z.localDay(s.clock))
    requires due != {} && s.service.value.currentDay <= z.localDay(s.clock)
    ensures
      var v, today := s.service.value, z.localDay(s.clock);
      && t.db == s.db && t.clock == s.clock && t.service.Some?
      && (var w := t.service.value;
          && w == v.(dirty := {}, currentDay := today, pass := w.pass)
          && w.pass.Some?
          && (var p := w.pass.value;
              && p.kind.Flush? && p.nowMs == s.clock && p.due == due == Members(p.todo) && Ascending(p.todo) && p.reading.None?
              && (p.closed != [] ==> p.closed[|p.closed| - 1] == today - 1)))
    ensures
      var v, today := s.service.value, z.localDay(s.clock);
      && v.dirty <= due && (forall d :: v.currentDay <= d < today ==> d in due)
      && (forall d :: d in due && d !in v.dirty ==> v.currentDay <= d <= today)
  {
    hide Rollover, Due, Members, DaysInRange, EarliestStart;
    var v, today := s.service.value, z.localDay(s.clock);
    RolledOver(v.dirty, v.currentDay, today);
    assert v.dirty - due == {};
  }

  lemma DueFlushKeeps(z: Zone, maxDays: nat, floor: int, s: System, e: Event, t: System)
    requires t == Step(z, maxDays, s, e)
    requires z.Valid() && Invariant(z, floor, s) && e.BeginFlush? && Enabled(z, s, e) && Unhurried(z, maxDays, s, e)
    requires
      var v, today := s.service.value, z.localDay(s.clock);
      Due(v.dirty, Rollover(v.currentDay, today).days, today) != {}
    ensures Invariant(z, floor, t)
  {
    hide Step, IsFold, FactsOn, EarliestStart, Stale, Fresh, Final, Rollover, Due, Members, DaysInRange;
    var v, today := s.service.value, z.localDay(s.clock);
    DueFlushEffect(z, maxDays, s, e, t, Due(v.dirty, Rollover(v.currentDay, today).days, today));
    assert Todo(t.service.value) == t.service.value.pass.value.due;
    hide Enabled, Unhurried;
  }

  lemma ReadEffect(z: Zone, maxDays: nat, s: System, e: Event, t: System)
    requires t == Step(z, maxDays, s, e) && e.ReadDay? && Enabled(z, s, e)
    ensures s.service.Some? && s.service.value.pass.Some? && s.service.value.pass.value.todo != []
    ensures
      var v := s.service.value;
      var p := v.pass.value;
      t == s.(service := Some(v.(pass := Some(p.(reading := Some(FactsOn(z, s.db.facts, p.todo[0])))))))
  {
    hide FactsOn;
  }

  lemma ReadKeeps(z: Zone, maxDays: nat, floor: int, s: System, e: Event, t: System)
    requires t == Step(z, maxDays, s, e)
    requires z.Valid() && Invariant(z, floor, s) && e.ReadDay? && Enabled(z, s, e)
    ensures Invariant(z, floor, t)
  {
    hide IsFold, FactsOn, EarliestStart, Stale, Fresh, Final, Members, Step, Enabled;
    ReadEffect(z, maxDays, s, e, t);
    if s.db.facts == [] {
      NoFacts(z, s.db.facts, s.service.value.pass.value.todo[0]);
    }
  }

  lemma TailMembers(days: seq<int>)
    requires days != []
    ensures Members(days) == {days[0]} + Members(days[1..])
  {
    assert forall i :: 1 <= i < |days| ==> days[i] == days[1..][i - 1];
  }

  /** What one write does: one row, the head of the pass's list, and nothing else. */
  lemma WriteEffect(z: Zone, maxDays: nat, s: System, e: Event, t: System)
    requires t == Step(z, maxDays, s, e) && e.WriteDay? && Enabled(z, s, e)
    ensures s.service.Some? && s.service.value.pass.Some? && s.service.value.pass.value.todo != []
    ensures
      var v := s.service.value;
      var p := v.pass.value;
      var d := p.todo[0];
      && p.reading.Some?
      && t == s.(db := s.db.(rows := t.db.rows), service := Some(v.(pass := Some(p.(todo := p.todo[1..], reading := None)))))
      && d in t.db.rows && (t.db.rows[d].closed <==> z.dayStart(d + 1) <= p.nowMs)
      && IsFold(z, d, p.reading.value, t.db.rows[d].closed, t.db.rows[d].rollup)
      && (forall k :: k != d ==> (k in t.db.rows <==> k in s.db.rows) && (k in s.db.rows ==> t.db.rows[k] == s.db.rows[k]))
  {
    hide IsFold, FactsOn;
  }

  lemma WriteStale(z: Zone, facts: seq<SightingFact>, rows: map<int, Stored>, rows': map<int, Stored>, d: int, read: seq<SightingFact>)
    requires d in rows' && IsFold(z, d, read, rows'[d].closed, rows'[d].rollup)
    requires forall k :: k != d ==> (k in rows' <==> k in rows) && (k in rows ==> rows'[k] == rows[k])
    ensures read == FactsOn(z, facts, d) ==> Fresh(z, facts, rows', d)
    ensures forall k :: k != d ==> (Stale(z, facts, rows', k) <==> Stale(z, facts, rows, k))
    ensures forall k :: k != d ==> (Fresh(z, facts, rows', k) <==> Fresh(z, facts, rows, k))
    ensures Fresh(z, facts, rows', d) ==> !Stale(z, facts, rows', d)
    ensures forall k :: Final(rows', k) <==> if k == d then rows'[d].closed else Final(rows, k)
  {
    hide IsFold, FactsOn;
  }

  lemma WriteKeepsStale(z: Zone, maxDays: nat, floor: int, s: System, e: Event, t: System)
    requires t == Step(z, maxDays, s, e)
    requires z.Valid() && Invariant(z, floor, s) && e.WriteDay? && Enabled(z, s, e)
    ensures t.service.Some? && StaleIsQueued(z, t)
  {
    hide IsFold, FactsOn, EarliestStart, Stale, Fresh, Final, Members, Step, Enabled;
    WriteEffect(z, maxDays, s, e, t);
    var v := s.service.value;
    var p := v.pass.value;
    var d := p.todo[0];
    if s.db.facts == [] {
      NoFacts(z, s.db.facts, d);
    }
    TailMembers(p.todo);
    ClosedWhenLater(z, d, p.nowMs);
    LocalDayMonotone(z, p.nowMs, s.clock);
    WriteStale(z, s.db.facts, s.db.rows, t.db.rows, d, p.reading.value);
  }

  lemma WriteKeepsPass(z: Zone, maxDays: nat, s: System, e: Event, t: System)
    requires t == Step(z, maxDays, s, e) && e.WriteDay? && Enabled(z, s, e)
    requires s.service.Some? && s.service.value.pass.Some? && PassInvariant(z, s, s.service.value, s.service.value.pass.value)
    ensures t.service.Some? && t.service.value.pass.Some? && PassInvariant(z, t, t.service.value, t.service.value.pass.value)
  {
    hide IsFold, FactsOn, Members, Step, Enabled;
    WriteEffect(z, maxDays, s, e, t);
    TailMembers(s.service.value.pass.value.todo);
  }

  lemma WriteKeepsService(z: Zone, maxDays: nat, floor: int, s: System, e: Event, t: System)
    requires t == Step(z, maxDays, s, e)
    requires z.Valid() && Invariant(z, floor, s) && e.WriteDay? && Enabled(z, s, e)
    ensures t.service.Some? && ServiceInvariant(z, floor, t, t.service.value)
  {
    hide StaleIsQueued, IsFold, FactsOn, EarliestStart, Stale, Fresh, Final, Members, Step, Enabled;
    WriteEffect(z, maxDays, s, e, t);
    WriteKeepsStale(z, maxDays, floor, s, e, t);
    WriteKeepsPass(z, maxDays, s, e, t);
    var v := s.service.value;
    var p := v.pass.value;
    var d := p.todo[0];
    if s.db.facts == [] {
      NoFacts(z, s.db.facts, d);
    }
    TailMembers(p.todo);
    ClosedWhenLater(z, d, p.nowMs);
    LocalDayMonotone(z, p.nowMs, s.clock);
    WriteStale(z, s.db.facts, s.db.rows, t.db.rows, d, p.reading.value);
  }

  lemma WriteKeeps(z: Zone, maxDays: nat, floor: int, s: System, e: Event, t: System)
    requires t == Step(z, maxDays, s, e)
    requires z.Valid() && Invariant(z, floor, s) && e.WriteDay? && Enabled(z, s, e)
    ensures Invariant(z, floor, t)
  {
    hide IsFold, FactsOn, EarliestStart, Stale, Fresh, Final, Members, Step, Enabled;
    WriteEffect(z, maxDays, s, e, t);
    WriteKeepsService(z, maxDays, floor, s, e, t);
    var v := s.service.value;
    var p := v.pass.value;
    var d := p.todo[0];
    if s.db.facts == [] {
      NoFacts(z, s.db.facts, d);
    }
    TailMembers(p.todo);
    ClosedWhenLater(z, d, p.nowMs);
    LocalDayMonotone(z, p.nowMs, s.clock);
    hide ServiceInvariant;
    WriteStale(z, s.db.facts, s.db.rows, t.db.rows, d, p.reading.value);
  }

  lemma FinishEffect(z: Zone, maxDays: nat, s: System, e: Event, t: System)
    requires t == Step(z, maxDays, s, e) && e.FinishPass? && Enabled(z, s, e)
    ensures s.service.Some? && s.service.value.pass.Some? && Todo(s.service.value) == {}
    ensures
      var v := s.service.value;
      var p := v.pass.value;
      && t.clock == s.clock && t.db == s.db.(watermark := t.db.watermark)
      && t.service == Some(v.(
           pass := None, subscribed := p.kind.Repair? || v.subscribed,
           contiguous := if p.kind.Repair? then p.due == {} || v.currentDay in p.due else v.contiguous))
      && (t.db.watermark == s.db.watermark || (p.closed != [] && t.db.watermark == Some(p.closed[|p.closed| - 1])))
  {
  }

  lemma FinishKeeps(z: Zone, maxDays: nat, floor: int, s: System, e: Event, t: System)
    requires t == Step(z, maxDays, s, e)
    requires z.Valid() && Invariant(z, floor, s) && e.FinishPass? && Enabled(z, s, e)
    ensures Invariant(z, floor, t)
  {
    hide IsFold, FactsOn, EarliestStart, Stale, Fresh, Final, Step, Enabled, Members;
    FinishEffect(z, maxDays, s, e, t);
    LocalDayMonotone(z, s.service.value.pass.value.nowMs, s.clock);
  }

  /** An exception in a flush puts its days back; the watermark is as it was, or written. */
  lemma FailEffect(z: Zone, maxDays: nat, s: System, e: Event, t: System)
    requires t == Step(z, maxDays, s, e) && e.FailPass? && Enabled(z, s, e) && !Repairing(s.service.value)
    ensures
      var v := s.service.value;
      && t.clock == s.clock && t.db == s.db.(watermark := t.db.watermark)
      && t.service == Some(v.(dirty := v.dirty + v.pass.value.due, pass := None))
      && (t.db.watermark == s.db.watermark
          || (v.pass.value.todo == [] && v.pass.value.closed != [] && t.db.watermark == Some(v.pass.value.closed[|v.pass.value.closed| - 1])))
  {
    hide Members;
  }

  lemma FailsAFlush(z: Zone, maxDays: nat, s: System, e: Event)
    requires e.FailPass? && Enabled(z, s, e) && Unhurried(z, maxDays, s, e)
    ensures s.service.Some? && s.service.value.pass.Some? && !Repairing(s.service.value)
    ensures s.service.value.pass.value.todo == [] ==> Todo(s.service.value) == {}
  {
  }

  lemma FailKeeps(z: Zone, maxDays: nat, floor: int, s: System, e: Event, t: System)
    requires t == Step(z, maxDays, s, e)
    requires z.Valid() && Invariant(z, floor, s) && e.FailPass? && Enabled(z, s, e) && Unhurried(z, maxDays, s, e)
    ensures Invariant(z, floor, t)
  {
    hide IsFold, FactsOn, EarliestStart, Stale, Fresh, Final, Step, Enabled, Members;
    FailsAFlush(z, maxDays, s, e);
    FailEffect(z, maxDays, s, e, t);
    var p := s.service.value.pass.value;
    LocalDayMonotone(z, p.nowMs, s.clock);
  }

  lemma StopKeeps(z: Zone, maxDays: nat, floor: int, s: System, e: Event, t: System)
    requires t == Step(z, maxDays, s, e)
    requires z.Valid() && Invariant(z, floor, s) && e.Stop? && Enabled(z, s, e) && Unhurried(z, maxDays, s, e)
    ensures Invariant(z, floor, t)
  {
    hide IsFold, FactsOn, EarliestStart, Stale, Fresh, Final;
  }

  lemma BootKeeps(z: Zone, maxDays: nat, floor: int, s: System, e: Event, t: System)
    requires t == Step(z, maxDays, s, e)
    requires z.Valid() && Invariant(z, floor, s) && e.Boot? && Enabled(z, s, e)
    requires Announced(z, floor, s, e) && Unhurried(z, maxDays, s, e)
    ensures Invariant(z, floor, t)
  {
    hide *;
    if s.db.facts == [] {
      EmptyBootKeeps(z, maxDays, floor, s, e, t);
    } else {
      PlannedBootKeeps(z, maxDays, floor, s, e, t);
    }
  }

  lemma EmptyBootKeeps(z: Zone, maxDays: nat, floor: int, s: System, e: Event, t: System)
    requires t == Step(z, maxDays, s, e)
    requires z.Valid() && Invariant(z, floor, s) && e.Boot? && Enabled(z, s, e) && Announced(z, floor, s, e) && s.db.facts == []
    ensures Invariant(z, floor, t)
  {
    hide IsFold, FactsOn, EarliestStart;
    forall d: int ensures FactsOn(z, s.db.facts, d) == [] {
      NoFacts(z, s.db.facts, d);
    }
  }

  lemma PlannedBootKeeps(z: Zone, maxDays: nat, floor: int, s: System, e: Event, t: System)
    requires t == Step(z, maxDays, s, e)
    requires z.Valid() && Invariant(z, floor, s) && e.Boot? && Enabled(z, s, e) && Unhurried(z, maxDays, s, e) && s.db.facts != []
    ensures Invariant(z, floor, t)
  {
    hide IsFold, FactsOn, EarliestStart;
    var today := z.localDay(s.clock);
    var v := t.service.value;
    BootCovers(z, s, maxDays, today);
    forall d | v.plannedFrom <= d && Stale(z, t.db.facts, t.db.rows, d) ensures d in Todo(v) {
      if d > today {
        NoFutureFacts(z, s, d);
      } else {
        BootCovers(z, s, maxDays, d);
      }
    }
    forall d | floor <= d < today && !Final(s.db.rows, d) ensures d in Todo(v) {
      if PlanFloor(z, s.db, today) <= d {
        BootCovers(z, s, maxDays, d);
      }
    }
  }

  lemma BootCovers(z: Zone, s: System, maxDays: nat, d: int)
    requires s.db.facts != []
    requires
      var today := z.localDay(s.clock);
      var plan := PlanFloor(z, s.db, today);
      && PlanCeiling(plan, today, maxDays) == today && today - plan < MAX_WINDOW_DAYS
      && plan <= d <= today
    ensures d in Todo(BootService(z, s, maxDays))
  {
    var plan := PlanFloor(z, s.db, z.localDay(s.clock));
    assert DaysInRange(plan, z.localDay(s.clock))[d - plan] == d;
  }

  lemma CrashKeeps(z: Zone, maxDays: nat, floor: int, s: System, e: Event, t: System)
    requires t == Step(z, maxDays, s, e)
    requires z.Valid() && Invariant(z, floor, s) && e.Crash?
    ensures Invariant(z, floor, t)
  {
    hide IsFold, FactsOn, EarliestStart;
  }

  lemma StepKeeps(z: Zone, maxDays: nat, floor: int, s: System, e: Event, t: System)
    requires t == Step(z, maxDays, s, e)
    requires z.Valid() && Invariant(z, floor, s)
    requires Enabled(z, s, e) && Announced(z, floor, s, e) && Unhurried(z, maxDays, s, e)
    ensures Invariant(z, floor, t)
  {
    hide *;
    match e
    case Tick(_) => TickKeeps(z, maxDays, floor, s, e, t);
    case Commit(_, _) => CommitKeeps(z, maxDays, floor, s, e, t);
    case BeginFlush(_) => BeginFlushKeeps(z, maxDays, floor, s, e, t);
    case ReadDay => ReadKeeps(z, maxDays, floor, s, e, t);
    case WriteDay(_) => WriteKeeps(z, maxDays, floor, s, e, t);
    case FinishPass => FinishKeeps(z, maxDays, floor, s, e, t);
    case FailPass(_) => FailKeeps(z, maxDays, floor, s, e, t);
    case Stop => StopKeeps(z, maxDays, floor, s, e, t);
    case Crash => CrashKeeps(z, maxDays, floor, s, e, t);
    case Boot => BootKeeps(z, maxDays, floor, s, e, t);
  }

  // ----- Whole runs -----

  lemma {:induction false} OrdinaryRunKeeps(z: Zone, maxDays: nat, floor: int, s: System, es: seq<Event>)
    requires z.Valid() && Invariant(z, floor, s) && Ordinary(z, maxDays, floor, s, es)
    ensures Invariant(z, floor, Run(z, maxDays, s, es))
  {
    hide Invariant, Enabled, Announced, Unhurried, Step;
    if es != [] {
      var n := |es| - 1;
      assert forall i :: 0 <= i < n ==> es[..n][..i] == es[..i] && es[..n][i] == es[i];
      OrdinaryRunKeeps(z, maxDays, floor, s, es[..n]);
      StepKeeps(z, maxDays, floor, Run(z, maxDays, s, es[..n]), es[n], Run(z, maxDays, s, es));
    }
  }

  /** Over every ordinary run of a new install, through any number of crashes, boots, failed
      flushes and commits that land in the middle of a pass: a stale day from the first
      planned one on is queued, and every day from the first sighting's to the watermark has
      a row built after it closed. */
  lemma OrdinaryRuns(z: Zone, maxDays: nat, floor: int, clock: int, es: seq<Event>)
    requires z.Valid() && Ordinary(z, maxDays, floor, NewInstall(clock), es)
    ensures
      var s := Run(z, maxDays, NewInstall(clock), es);
      && StaleIsQueued(z, s)
      && WatermarkSound(s.db, floor)
      && (s.service.Some? && s.service.value.pass.None? ==>
            forall d :: floor <= d < s.service.value.currentDay ==> Final(s.db.rows, d) || d in s.service.value.dirty)
  {
    NewInstallInvariant(z, floor, clock);
    OrdinaryRunKeeps(z, maxDays, floor, NewInstall(clock), es);
  }

  // ----- One uninterrupted pass, exactly -----

  /** s is s0 after the first k days of the pass under way in s0, with no commit in between. */
  ghost predicate Rebuilt(z: Zone, s0: System, s: System, k: nat) {
    && s0.service.Some? && s0.service.value.pass.Some? && s.service.Some? && s.service.value.pass.Some?
    && (var p0, p := s0.service.value.pass.value, s.service.value.pass.value;
        && k <= |p0.todo| && p.todo == p0.todo[k..]
        && s.service.value == s0.service.value.(pass := Some(p0.(todo := p.todo, reading := p.reading)))
        && s.db.facts == s0.db.facts && s.db.watermark == s0.db.watermark
        && (p.reading.Some? ==> p.todo != [] && p.reading.value == FactsOn(z, s0.db.facts, p.todo[0]))
        && (forall d :: d !in Members(p0.todo[..k]) ==>
              (d in s.db.rows <==> d in s0.db.rows) && (d in s0.db.rows ==> s.db.rows[d] == s0.db.rows[d]))
        && (forall d :: d in Members(p0.todo[..k]) ==>
              && Fresh(z, s.db.facts, s.db.rows, d)
              && (Final(s.db.rows, d) <==> z.dayStart(d + 1) <= p0.nowMs)))
  }

  predicate RebuildEvent(e: Event) { e.ReadDay? || e.WriteDay? || e.Tick? }

  lemma PrefixMembers(todo: seq<int>, k: nat)
    requires k < |todo| && Ascending(todo)
    ensures Members(todo[..k + 1]) == Members(todo[..k]) + {todo[k]}
    ensures todo[k] !in Members(todo[..k]) && todo[k..][1..] == todo[k + 1..]
  {
    assert forall i :: 0 <= i < k ==> todo[..k + 1][i] == todo[..k][i];
    assert todo[..k + 1][k] == todo[k];
  }

  lemma RebuiltStep(z: Zone, maxDays: nat, s0: System, s: System, k: nat, e: Event, t: System)
    requires Rebuilt(z, s0, s, k) && RebuildEvent(e) && Enabled(z, s, e) && t == Step(z, maxDays, s, e)
    requires Ascending(s0.service.value.pass.value.todo)
    ensures Rebuilt(z, s0, t, if e.WriteDay? then k + 1 else k)
  {
    hide IsFold, FactsOn, Members, Ascending;
    if e.WriteDay? {
      PrefixMembers(s0.service.value.pass.value.todo, k);
    }
  }

  lemma {:induction false} RebuiltRun(z: Zone, maxDays: nat, s0: System, es: seq<Event>) returns (k: nat)
    requires Rebuilt(z, s0, s0, 0) && Ascending(s0.service.value.pass.value.todo)
    requires Feasible(z, maxDays, s0, es) && forall i :: 0 <= i < |es| ==> RebuildEvent(es[i])
    ensures Rebuilt(z, s0, Run(z, maxDays, s0, es), k)
  {
    hide Rebuilt, Enabled, Step, Ascending;
    k := 0;
    if es != [] {
      var n := |es| - 1;
      assert forall i :: 0 <= i < n ==> es[..n][..i] == es[..i] && es[..n][i] == es[i];
      k := RebuiltRun(z, maxDays, s0, es[..n]);
      RebuiltStep(z, maxDays, s0, Run(z, maxDays, s0, es[..n]), k, es[n], Run(z, maxDays, s0, es));
      k := if es[n].WriteDay? then k + 1 else k;
    }
  }

  /** A pass that runs to its end with no commit in between leaves stale exactly the stale
      days it did not take, and makes final exactly the closed days it took. */
  lemma CompletedPass(z: Zone, maxDays: nat, s0: System, es: seq<Event>)
    requires z.Valid()
    requires s0.service.Some? && s0.service.value.pass.Some? && s0.service.value.pass.value.reading.None?
    requires Ascending(s0.service.value.pass.value.todo)
    requires Feasible(z, maxDays, s0, es) && forall i :: 0 <= i < |es| ==> RebuildEvent(es[i])
    requires var s := Run(z, maxDays, s0, es); s.service.Some? && s.service.value.pass.Some? && s.service.value.pass.value.todo == []
    ensures
      var s := Run(z, maxDays, s0, es);
      var p := s0.service.value.pass.value;
      && s.service.value == s0.service.value.(pass := Some(p.(todo := [])))
      && s.db.facts == s0.db.facts && s.db.watermark == s0.db.watermark
      && (forall d :: Stale(z, s.db.facts, s.db.rows, d) <==>
            Stale(z, s0.db.facts, s0.db.rows, d) && d !in Members(p.todo))
      && (forall d :: Final(s.db.rows, d) <==>
            if d in Members(p.todo) then d < z.localDay(p.nowMs) else Final(s0.db.rows, d))
  {
    hide IsFold, FactsOn, Run, Feasible;
    var p := s0.service.value.pass.value;
    assert p.todo[..0] == [] && p.todo[0..] == p.todo;
    var k := RebuiltRun(z, maxDays, s0, es);
    var s := Run(z, maxDays, s0, es);
    assert k == |p.todo| && p.todo[..k] == p.todo;
    forall d ensures Final(s.db.rows, d) <==> if d in Members(p.todo) then d < z.localDay(p.nowMs) else Final(s0.db.rows, d) {
      ClosedWhenLater(z, d, p.nowMs);
    }
  }

  /** What a startup repair that runs to its end leaves behind: there is always a closed day
      for the watermark; and of the stale days it leaves exactly those outside its plan. A
      day that was stale and at or below the watermark, but not yesterday, stays stale. */
  lemma CompletedRepair(z: Zone, maxDays: nat, s: System, es: seq<Event>, t: System)
    requires z.Valid() && maxDays >= 1 && s.service.None? && s.db.facts != []
    requires
      var today := z.localDay(s.clock);
      PlanCeiling(PlanFloor(z, s.db, today), today, maxDays) - PlanFloor(z, s.db, today) < MAX_WINDOW_DAYS
    requires
      var booted := Step(z, maxDays, s, Boot);
      && Feasible(z, maxDays, booted, es) && (forall i :: 0 <= i < |es| ==> RebuildEvent(es[i]))
      && Enabled(z, Run(z, maxDays, booted, es), FinishPass)
      && t == Step(z, maxDays, Run(z, maxDays, booted, es), FinishPass)
    ensures
      var today := z.localDay(s.clock);
      var floor := PlanFloor(z, s.db, today);
      var ceiling := PlanCeiling(floor, today, maxDays);
      && (forall d :: Stale(z, t.db.facts, t.db.rows, d) <==>
            Stale(z, s.db.facts, s.db.rows, d) && !(floor <= d <= ceiling))
      && (forall d :: Final(t.db.rows, d) <==> if floor <= d <= ceiling then d < today else Final(s.db.rows, d))
      && t.db.watermark == Some(Least(ceiling, today - 1))
      && floor <= t.db.watermark.value
  {
    var today := z.localDay(s.clock);
    var floor := PlanFloor(z, s.db, today);
    var ceiling := PlanCeiling(floor, today, maxDays);
    var booted := Step(z, maxDays, s, Boot);
    BootPlans(z, maxDays, s);
    hide *;
    RebuildKeepsPass(z, maxDays, booted, es);
    var last := Run(z, maxDays, booted, es);
    Finishing(z, maxDays, last, t);
    CompletedPass(z, maxDays, booted, es);
    PlannedRange(z, s, booted, last, t, floor, ceiling);
  }

  lemma PlannedRange(z: Zone, s: System, booted: System, last: System, t: System, floor: int, ceiling: int)
    requires var today := z.localDay(s.clock); floor < today && floor <= ceiling <= today
    requires booted.db == s.db && booted.service.Some?
    requires
      var today := z.localDay(s.clock);
      var planned, closed := DaysInRange(floor, ceiling), DaysInRange(floor, Least(ceiling, today - 1));
      booted.service.value.pass == Some(Pass(Repair, s.clock, Members(planned), planned, None, closed, true))
    requires last.service.Some? && last.service.value.pass == Some(booted.service.value.pass.value.(todo := []))
    requires t.db.facts == last.db.facts == s.db.facts && t.db.rows == last.db.rows
    requires LastClosed(last.service.value.pass.value).Some? ==> t.db.watermark == LastClosed(last.service.value.pass.value)
    requires forall d :: Stale(z, last.db.facts, last.db.rows, d) <==>
      Stale(z, s.db.facts, s.db.rows, d) && d !in Members(booted.service.value.pass.value.todo)
    requires forall d :: Final(last.db.rows, d) <==>
      if d in Members(booted.service.value.pass.value.todo) then d < z.localDay(s.clock) else Final(s.db.rows, d)
    ensures forall d :: Stale(z, t.db.facts, t.db.rows, d) <==> Stale(z, s.db.facts, s.db.rows, d) && !(floor <= d <= ceiling)
    ensures forall d :: Final(t.db.rows, d) <==> if floor <= d <= ceiling then d < z.localDay(s.clock) else Final(s.db.rows, d)
    ensures t.db.watermark == Some(Least(ceiling, z.localDay(s.clock) - 1)) && floor <= t.db.watermark.value
  {
    hide Stale, Final, Members;
    RangeMembers(floor, ceiling);
  }

  lemma BootPlans(z: Zone, maxDays: nat, s: System)
    requires maxDays >= 1 && s.db.facts != []
    requires
      var today := z.localDay(s.clock);
      PlanCeiling(PlanFloor(z, s.db, today), today, maxDays) - PlanFloor(z, s.db, today) < MAX_WINDOW_DAYS
    ensures
      var today := z.localDay(s.clock);
      var floor := PlanFloor(z, s.db, today);
      var ceiling := PlanCeiling(floor, today, maxDays);
      var planned, closed := DaysInRange(floor, ceiling), DaysInRange(floor, Least(ceiling, today - 1));
      && Step(z, maxDays, s, Boot)
         == s.(service := Some(Service({}, today, false, Some(Pass(Repair, s.clock, Members(planned), planned, None, closed, true)), floor, false)))
      && floor < today && floor <= ceiling <= today
  {
  }

  /** The end of a pass writes the watermark and nothing else. */
  lemma Finishing(z: Zone, maxDays: nat, s: System, t: System)
    requires s.service.Some? && s.service.value.pass.Some?
    requires t == Step(z, maxDays, s, FinishPass)
    ensures
      && t.db.facts == s.db.facts && t.db.rows == s.db.rows
      && (var through := LastClosed(s.service.value.pass.value);
          t.db.watermark == if through.Some? then through else s.db.watermark)
    ensures Enabled(z, s, FinishPass) ==> s.service.value.pass.value.todo == []
  {
  }

  lemma {:induction false} RebuildKeepsPass(z: Zone, maxDays: nat, s: System, es: seq<Event>)
    requires s.service.Some? && s.service.value.pass.Some?
    requires forall i :: 0 <= i < |es| ==> RebuildEvent(es[i])
    ensures var t := Run(z, maxDays, s, es); t.service.Some? && t.service.value.pass.Some?
  {
    if es != [] {
      RebuildKeepsPass(z, maxDays, s, es[..|es| - 1]);
    }
  }

  /** A flush that closes days moves the watermark to yesterday without comparing it with the
      stored one. That is right exactly when no earlier day of the history is unfinished and
      not queued at the moment the flush begins. */
  lemma WatermarkAdvanceExact(z: Zone, maxDays: nat, floor: int, s: System, todo: seq<int>, es: seq<Event>, t: System)
    requires z.Valid() && Enabled(z, s, BeginFlush(todo))
    requires
      var v, today := s.service.value, z.localDay(s.clock);
      v.currentDay < today && Rollover(v.currentDay, today).complete
    requires
      var begun := Step(z, maxDays, s, BeginFlush(todo));
      && Feasible(z, maxDays, begun, es) && (forall i :: 0 <= i < |es| ==> RebuildEvent(es[i]))
      && Enabled(z, Run(z, maxDays, begun, es), FinishPass)
      && t == Step(z, maxDays, Run(z, maxDays, begun, es), FinishPass)
    ensures t.db.watermark == Some(z.localDay(s.clock) - 1)
    ensures
      var v := s.service.value;
      WatermarkSound(t.db, floor) <==>
      forall d :: floor <= d < v.currentDay ==> Final(s.db.rows, d) || d in v.dirty
  {
    hide Run, Feasible, IsFold, FactsOn, Step, Enabled, Stale, Final, Members, DaysInRange, Rollover, EarliestStart;
    FlushTakes(z, maxDays, s, todo);
    var v, today := s.service.value, z.localDay(s.clock);
    var begun := Step(z, maxDays, s, BeginFlush(todo));
    RebuildKeepsPass(z, maxDays, begun, es);
    var last := Run(z, maxDays, begun, es);
    Finishing(z, maxDays, last, t);
    CompletedPass(z, maxDays, begun, es);
    assert forall d :: d < today ==> (Final(t.db.rows, d) <==> d in v.dirty || v.currentDay <= d || Final(s.db.rows, d));
  }

  /** A flush that comes more than thirty-one days after the last leaves the watermark where it
      was, so that the next boot walks the days left out. */
  lemma CappedFlushKeepsWatermark(z: Zone, maxDays: nat, s: System, todo: seq<int>, es: seq<Event>, t: System)
    requires z.Valid() && Enabled(z, s, BeginFlush(todo)) && s.service.value.currentDay < z.localDay(s.clock) - 31
    requires
      var begun := Step(z, maxDays, s, BeginFlush(todo));
      && Feasible(z, maxDays, begun, es) && (forall i :: 0 <= i < |es| ==> RebuildEvent(es[i]))
      && Enabled(z, Run(z, maxDays, begun, es), FinishPass)
      && t == Step(z, maxDays, Run(z, maxDays, begun, es), FinishPass)
    ensures t.db.watermark == s.db.watermark
  {
    hide Run, Feasible, IsFold, FactsOn, Step, Enabled, Stale, Final, Members, DaysInRange, Rollover, EarliestStart;
    CappedFlush(z, maxDays, s, todo);
    var begun := Step(z, maxDays, s, BeginFlush(todo));
    RebuildKeepsPass(z, maxDays, begun, es);
    var last := Run(z, maxDays, begun, es);
    Finishing(z, maxDays, last, t);
    CompletedPass(z, maxDays, begun, es);
  }

  lemma CappedFlush(z: Zone, maxDays: nat, s: System, todo: seq<int>)
    requires Enabled(z, s, BeginFlush(todo)) && s.service.value.currentDay < z.localDay(s.clock) - 31
    ensures
      var begun := Step(z, maxDays, s, BeginFlush(todo));
      && begun.db == s.db && begun.service.Some? && begun.service.value.pass.Some?
      && (var p := begun.service.value.pass.value; p.todo == todo && p.reading.None? && LastClosed(p).None?)
      && Ascending(todo)
  {
    var v, today := s.service.value, z.localDay(s.clock);
    FlushTakesExactly(v.dirty, v.currentDay, today, today);
    hide Members, Rollover;
  }

  lemma FlushTakes(z: Zone, maxDays: nat, s: System, todo: seq<int>)
    requires Enabled(z, s, BeginFlush(todo))
    requires
      var v, today := s.service.value, z.localDay(s.clock);
      v.currentDay < today && Rollover(v.currentDay, today).complete
    ensures s.service.Some?
    ensures
      var v, today := s.service.value, z.localDay(s.clock);
      var begun := Step(z, maxDays, s, BeginFlush(todo));
      && begun.db == s.db && begun.service.Some? && begun.service.value.pass.Some?
      && (var p := begun.service.value.pass.value;
          p.todo == todo && p.reading.None? && p.nowMs == s.clock && LastClosed(p) == Some(today - 1))
      && Ascending(todo)
      && (forall d :: d < today ==> (d in Members(todo) <==> d in v.dirty || v.currentDay <= d))
  {
    hide Members, DaysInRange;
    var v, today := s.service.value, z.localDay(s.clock);
    RangeMembers(v.currentDay, today - 1);
    assert Rollover(v.currentDay, today).days == DaysInRange(v.currentDay, today - 1);
    assert v.currentDay in Due(v.dirty, Rollover(v.currentDay, today).days, today);
  }

  // ----- Runs in pieces -----

  lemma FeasibleNothing(z: Zone, maxDays: nat, s: System) returns (es: seq<Event>)
    ensures es == [] && Feasible(z, maxDays, s, es) && Run(z, maxDays, s, es) == s
  {
    es := [];
  }

  lemma FeasibleStep(z: Zone, maxDays: nat, s: System, es: seq<Event>, e: Event) returns (more: seq<Event>)
    requires Feasible(z, maxDays, s, es) && Enabled(z, Run(z, maxDays, s, es), e)
    ensures more == es + [e] && Feasible(z, maxDays, s, more)
    ensures Run(z, maxDays, s, more) == Step(z, maxDays, Run(z, maxDays, s, es), e)
  {
    hide Enabled, Step;
    more := es + [e];
    assert more[..|es|] == es;
    forall i | 0 <= i < |more| ensures Enabled(z, Run(z, maxDays, s, more[..i]), more[i]) {
      if i < |es| {
        assert more[..i] == es[..i] && more[i] == es[i];
      }
    }
  }

  lemma {:induction false} RunAppend(z: Zone, maxDays: nat, s: System, es: seq<Event>, fs: seq<Event>)
    ensures Run(z, maxDays, s, es + fs) == Run(z, maxDays, Run(z, maxDays, s, es), fs)
  {
    hide Step;
    if fs == [] {
      assert es + fs == es;
    } else {
      var n := |fs| - 1;
      RunAppend(z, maxDays, s, es, fs[..n]);
      assert (es + fs)[..|es + fs| - 1] == es + fs[..n];
    }
  }

  lemma FeasibleSplit(z: Zone, maxDays: nat, s: System, es: seq<Event>, fs: seq<Event>)
    requires Feasible(z, maxDays, s, es + fs)
    ensures Feasible(z, maxDays, s, es) && Feasible(z, maxDays, Run(z, maxDays, s, es), fs)
  {
    hide Enabled, Run;
    var all := es + fs;
    forall i | 0 <= i < |es| ensures Enabled(z, Run(z, maxDays, s, es[..i]), es[i]) {
      assert all[..i] == es[..i] && all[i] == es[i];
    }
    forall i | 0 <= i < |fs| ensures Enabled(z, Run(z, maxDays, Run(z, maxDays, s, es), fs[..i]), fs[i]) {
      assert all[..|es| + i] == es + fs[..i] && all[|es| + i] == fs[i];
      RunAppend(z, maxDays, s, es, fs[..i]);
    }
  }

  lemma FeasibleOne(z: Zone, maxDays: nat, s: System, e: Event)
    requires Feasible(z, maxDays, s, [e])
    ensures Enabled(z, s, e) && Run(z, maxDays, s, [e]) == Step(z, maxDays, s, e)
  {
    hide Enabled, Step;
    assert [e][..0] == [] && [e][0] == e;
  }
}
