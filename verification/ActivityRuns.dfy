/** Whole runs of the activity feed: sightings are committed, notes arrive, passes drain,
    scan, record and move the watermark in two separate transactions, and any pass may
    raise, be cancelled or be cut short between them. */
module ActivityRuns {
  import opened Activity
  import opened Sequences
  import opened Wrappers

  // ----- Notes -----

  /** Something reported through a seam, with the events its producer makes of it. */
  datatype Note = Note(events: seq<Event>)

  /** The five pending lists. */
  datatype Notes = Notes(imports: seq<Note>, health: seq<Note>, alerts: seq<Note>,
                         feeders: seq<Note>, selfAlerts: seq<Note>)

  const NO_NOTES := Notes([], [], [], [], [])

  function Then(a: Notes, b: Notes): Notes {
    Notes(a.imports + b.imports, a.health + b.health, a.alerts + b.alerts, a.feeders + b.feeders, a.selfAlerts + b.selfAlerts)
  }

  lemma ThenAssociates(a: Notes, b: Notes, c: Notes)
    ensures Then(Then(a, b), c) == Then(a, Then(b, c))
    ensures Then(NO_NOTES, a) == a == Then(a, NO_NOTES)
  {
    var l, r := Then(Then(a, b), c), Then(a, Then(b, c));
    assert l.imports == r.imports && l.health == r.health && l.alerts == r.alerts;
    assert l.feeders == r.feeders && l.selfAlerts == r.selfAlerts;
  }

  function EventsOf(notes: seq<Note>): seq<Event> {
    if notes == [] then [] else EventsOf(notes[..|notes| - 1]) + notes[|notes| - 1].events
  }

  function KeysOf(notes: seq<Note>): set<Key> { set n, e | n in notes && e in n.events :: e.key }

  function NoteKeys(n: Notes): set<Key> {
    KeysOf(n.imports) + KeysOf(n.health) + KeysOf(n.alerts) + KeysOf(n.feeders) + KeysOf(n.selfAlerts)
  }

  lemma {:induction false} EventsOfKeys(notes: seq<Note>)
    ensures EventKeys(EventsOf(notes)) == KeysOf(notes)
  {
    if notes != [] {
      var n := |notes| - 1;
      EventsOfKeys(notes[..n]);
      KeysOfAppend(EventsOf(notes[..n]), notes[n].events);
      KeysOfJoin(notes[..n], [notes[n]]);
      assert notes == notes[..n] + [notes[n]];
      assert KeysOf([notes[n]]) == EventKeys(notes[n].events) by {
        assert forall k :: k in KeysOf([notes[n]]) <==> k in EventKeys(notes[n].events);
      }
    }
  }

  lemma KeysOfJoin(a: seq<Note>, b: seq<Note>)
    ensures KeysOf(a + b) == KeysOf(a) + KeysOf(b)
  {
    forall k ensures k in KeysOf(a + b) <==> k in KeysOf(a) + KeysOf(b) {
      if k in KeysOf(a + b) {
        var n, e :| n in a + b && e in n.events && e.key == k;
        assert n in a || n in b;
      }
      if k in KeysOf(a) {
        var n, e :| n in a && e in n.events && e.key == k;
        assert n in a + b;
      }
      if k in KeysOf(b) {
        var n, e :| n in b && e in n.events && e.key == k;
        assert n in a + b;
      }
    }
  }

  lemma NoteKeysThen(a: Notes, b: Notes)
    ensures NoteKeys(Then(a, b)) == NoteKeys(a) + NoteKeys(b)
  {
    hide KeysOf;
    KeysOfJoin(a.imports, b.imports);
    KeysOfJoin(a.health, b.health);
    KeysOfJoin(a.alerts, b.alerts);
    KeysOfJoin(a.feeders, b.feeders);
    KeysOfJoin(a.selfAlerts, b.selfAlerts);
  }

  // ----- The table of events -----

  /** Inserting one by one, a taken key ignored. */
  function Insert(stored: seq<Event>, es: seq<Event>): (table: seq<Event>)
    ensures |stored| <= |table|
  {
    if es == [] then stored
    else
      var before := Insert(stored, es[..|es| - 1]);
      var e := es[|es| - 1];
      if e.key in EventKeys(before) then before else before + [e]
  }

  lemma {:induction false} InsertSpec(stored: seq<Event>, es: seq<Event>)
    requires DistinctKeys(stored)
    ensures stored <= Insert(stored, es)
    ensures DistinctKeys(Insert(stored, es))
    ensures EventKeys(Insert(stored, es)) == EventKeys(stored) + EventKeys(es)
  {
    if es != [] {
      var n := |es| - 1;
      var before := Insert(stored, es[..n]);
      InsertSpec(stored, es[..n]);
      assert es == es[..n] + [es[n]];
      KeysSnoc(es[..n], es[n]);
      KeysSnoc(before, es[n]);
      DistinctSnoc(before, es[n]);
      hide EventKeys, DistinctKeys;
    }
  }

  lemma DistinctSnoc(es: seq<Event>, e: Event)
    requires DistinctKeys(es)
    ensures e.key !in EventKeys(es) ==> DistinctKeys(es + [e])
  {
    assert forall i :: 0 <= i < |es| ==> es[i].key in EventKeys(es);
  }

  /** The rows an insertion creates carry exactly the new keys. */
  lemma CreatedKeys(stored: seq<Event>, es: seq<Event>)
    requires DistinctKeys(stored)
    ensures stored <= Insert(stored, es)
    ensures EventKeys(Insert(stored, es)[|stored|..]) == EventKeys(es) - EventKeys(stored)
  {
    InsertSpec(stored, es);
    var all := Insert(stored, es);
    var created := all[|stored|..];
    hide Insert;
    assert all == stored + created;
    KeysOfAppend(stored, created);
    SuffixKeysAreNew(stored, created);
    hide EventKeys;
  }

  lemma SuffixKeysAreNew(stored: seq<Event>, created: seq<Event>)
    requires DistinctKeys(stored + created)
    ensures EventKeys(created) !! EventKeys(stored)
  {
    forall e, f | e in created && f in stored ensures e.key != f.key {
      var i :| 0 <= i < |created| && created[i] == e;
      var j :| 0 <= j < |stored| && stored[j] == f;
      assert (stored + created)[j] == f && (stored + created)[|stored| + i] == e;
    }
  }

  /** Merging first changes nothing about the table: the same rows, the same first events. */
  lemma {:induction false} MergingIsInvisible(stored: seq<Event>, es: seq<Event>)
    requires DistinctKeys(stored)
    ensures Insert(stored, FirstOfEach(es)) == Insert(stored, es)
  {
    if es != [] {
      var n := |es| - 1;
      MergingIsInvisible(stored, es[..n]);
      FirstOfEachSpec(es[..n]);
      InsertSpec(stored, es[..n]);
      var before := FirstOfEach(es[..n]);
      assert (before + [es[n]])[..|before|] == before;
      hide EventKeys;
    }
  }

  /** ActivityRepository.record's loop over events. */
  method Record(stored: seq<Event>, es: seq<Event>) returns (table: seq<Event>, created: seq<Event>)
    ensures table == Insert(stored, es) == stored + created
  {
    table, created := stored, [];
    for n := 0 to |es|
      invariant table == Insert(stored, es[..n]) == stored + created
    {
      assert es[..n + 1][..n] == es[..n];
      if es[n].key !in EventKeys(table) {
        table, created := table + [es[n]], created + [es[n]];
      }
    }
    assert es[..|es|] == es;
  }

  // ----- States and steps -----

  datatype Pass = Pass(closed: set<int>, notes: Notes, scanned: seq<int>)

  datatype Process = Process(watermark: int, closed: set<int>, pending: Notes, pass: Option<Pass>)

  /** `initial` is what a first ever boot wrote as the watermark; `published`, `handled` and `examined`
      are what listeners were handed and what completed passes consumed. */
  datatype State = State(sightings: seq<Sighting>, events: seq<Event>, milestones: set<MilestoneKey>,
                         stored: Option<int>, initial: Option<int>, process: Option<Process>,
                         published: seq<Key>, handled: Notes, examined: set<int>)

  /** How many of a pass's two transactions committed. An await can be cancelled, or its reply
      lost, after its transaction has: progress and ending are independent. */
  datatype Progress = Nothing | Recorded | Marked

  datatype Ending = Completed | Raised | Cancelled | Killed

  /** Start brings what was reported to the process between its creation and its start. */
  datatype Step =
    | Commit(sighting: Sighting)
    | Close(ids: set<int>)
    | Submit(notes: Notes)
    | BeginPass(limit: nat)
    | EndPass(progress: Progress, ending: Ending, detected: Batch, military: Batch)
    | Crash
    | Start(reported: Notes, ended: set<int>)

  /** Positions of the examined sightings that are above the watermark, in id order: the
      scanned ones and the closed ones. */
  function Fresh(ss: seq<Sighting>, scanned: seq<int>, closed: set<int>, watermark: int): (ps: seq<nat>)
    ensures forall k :: 0 <= k < |ps| ==> ps[k] < |ss|
  {
    if ss == [] then []
    else
      var n := |ss| - 1;
      var before := Fresh(ss[..n], scanned, closed, watermark);
      if (ss[n].id in scanned || ss[n].id in closed) && ss[n].id > watermark then before + [n] else before
  }

  /** _detect: every producer's batch, in order, merged. */
  function Batches(ss: seq<Sighting>, watermark: int, pass: Pass, detected: Batch, military: Batch): seq<Batch> {
    [FirstEverEvents(ss, Fresh(ss, pass.scanned, pass.closed, watermark)), detected,
     Batch(EventsOf(pass.notes.health), []), Batch(EventsOf(pass.notes.imports), []),
     Batch(EventsOf(pass.notes.alerts), []), Batch(EventsOf(pass.notes.feeders), []),
     Batch(EventsOf(pass.notes.selfAlerts), []), military]
  }

  function Detected(ss: seq<Sighting>, watermark: int, pass: Pass, detected: Batch, military: Batch): Batch {
    Merged(Batches(ss, watermark, pass, detected, military))
  }

  function KeySeq(es: seq<Event>): seq<Key> { seq(|es|, i requires 0 <= i < |es| => es[i].key) }

  /** Keys about airframes: the ones a scan is responsible for. */
  predicate Airframe(k: Key) { k.FirstEver? || (k.Reached? && k.milestone.UniqueAircraft?) }

  predicate OtherNotes(notes: Notes) { forall k :: k in NoteKeys(notes) ==> !Airframe(k) }

  predicate OtherBatch(b: Batch) {
    && (forall k :: k in EventKeys(b.events) ==> !Airframe(k))
    && (forall m :: m in MilestoneKeys(b.milestones) ==> m.OtherMilestone?)
  }

  function Ended(s: State, progress: Progress, ending: Ending, detected: Batch, military: Batch): State
    requires s.process.Some? && s.process.value.pass.Some?
  {
    var p, pass := s.process.value, s.process.value.pass.value;
    var batch := Detected(s.sightings, p.watermark, pass, detected, military);
    var table := if progress == Nothing then s.events else Insert(s.events, batch.events);
    var to := ScannedTo(pass.scanned, p.watermark);
    State(s.sightings, table,
          if progress == Nothing then s.milestones else s.milestones + MilestoneKeys(batch.milestones),
          if progress == Marked && to != p.watermark then Some(to) else s.stored, s.initial,
          match ending
            case Completed => Some(Process(to, p.closed, p.pending, None))
            case Raised => Some(Process(p.watermark, p.closed + pass.closed, Then(pass.notes, p.pending), None))
            case Cancelled => Some(Process(p.watermark, p.closed, p.pending, None))
            case Killed => None,
          if ending == Completed then s.published + KeySeq(table[|s.events|..]) else s.published,
          if ending == Completed then Then(s.handled, pass.notes) else s.handled,
          if ending == Completed then s.examined + pass.closed else s.examined)
  }

  predicate Feasible(s: State, step: Step) {
    match step
    case Commit(x) => x.id > 0 && InOrder(s.sightings + [x])
    case Close(_) => s.process.Some?
    case Submit(notes) => s.process.Some? && OtherNotes(notes)
    case BeginPass(limit) => 1 <= limit && s.process.Some? && s.process.value.pass.None?
    case EndPass(progress, ending, detected, military) =>
      && s.process.Some? && s.process.value.pass.Some?
      && OtherBatch(detected) && OtherBatch(military)
      && (ending == Completed ==> progress == Marked)
    case Crash => s.process.Some?
    case Start(reported, _) => s.process.None? && OtherNotes(reported)
  }

  function Next(s: State, step: Step): State
    requires Feasible(s, step)
  {
    match step
    case Commit(x) => s.(sightings := s.sightings + [x])
    case Close(ids) => s.(process := Some(s.process.value.(closed := s.process.value.closed + ids)))
    case Submit(notes) => s.(process := Some(s.process.value.(pending := Then(s.process.value.pending, notes))))
    case BeginPass(limit) =>
      var p := s.process.value;
      s.(process := Some(Process(p.watermark, {}, NO_NOTES, Some(Pass(p.closed, p.pending, Scan(s.sightings, p.watermark, limit))))))
    case EndPass(progress, ending, detected, military) => Ended(s, progress, ending, detected, military)
    case Crash => s.(process := None)
    case Start(reported, ended) =>
      var w := if s.stored.Some? then s.stored.value else MaxId(s.sightings);
      s.(stored := Some(w), initial := if s.stored.Some? then s.initial else Some(w),
         process := Some(Process(w, ended, reported, None)))
  }

  // ----- What a pass proposes -----

  /** Airframes first heard at ids in (lo, hi]. */
  function FirstsBetween(ss: seq<Sighting>, lo: int, hi: int): set<int> {
    set i | 0 <= i < |ss| && FirstHeard(ss, i) && lo < ss[i].id <= hi :: ss[i].aircraft
  }

  /** The keys those airframes are owed. */
  function Announced(ss: seq<Sighting>, firsts: set<int>): set<Key> {
    FirstEverKeys(firsts) + ReachedKeys(Claimed(ss, firsts))
  }

  lemma {:induction false} FreshSpec(ss: seq<Sighting>, scanned: seq<int>, closed: set<int>, watermark: int, i: nat)
    ensures i in Fresh(ss, scanned, closed, watermark) <==>
            i < |ss| && (ss[i].id in scanned || ss[i].id in closed) && ss[i].id > watermark
  {
    if ss != [] {
      FreshSpec(ss[..|ss| - 1], scanned, closed, watermark, i);
    }
  }

  /** A pass looks at every airframe first heard between the two watermarks, and at none
      first heard at or below the old one. */
  lemma FreshCovers(ss: seq<Sighting>, scanned: seq<int>, closed: set<int>, watermark: int)
    requires InOrder(ss) && NoGap(ss, scanned, watermark)
    ensures
      var firsts := FirstsAt(ss, Fresh(ss, scanned, closed, watermark));
      && FirstsBetween(ss, watermark, ScannedTo(scanned, watermark)) <= firsts
      && firsts <= FirstsBetween(ss, watermark, MaxId(ss))
  {
    var ps := Fresh(ss, scanned, closed, watermark);
    var to := ScannedTo(scanned, watermark);
    forall a | a in FirstsBetween(ss, watermark, to) ensures a in FirstsAt(ss, ps) {
      var i: nat :| i < |ss| && FirstHeard(ss, i) && watermark < ss[i].id <= to && ss[i].aircraft == a;
      FreshSpec(ss, scanned, closed, watermark, i);
      var k :| 0 <= k < |ps| && ps[k] == i;
      assert FirstHeard(ss, ps[k]);
    }
    forall a | a in FirstsAt(ss, ps) ensures a in FirstsBetween(ss, watermark, MaxId(ss)) {
      var k :| 0 <= k < |ps| && FirstHeard(ss, ps[k]) && ss[ps[k]].aircraft == a;
      FreshSpec(ss, scanned, closed, watermark, ps[k]);
      assert ps[k] in ps && ss[ps[k]].id <= MaxId(ss);
    }
  }

  function BatchKeys(bs: seq<Batch>): set<Key> { set b, e | b in bs && e in b.events :: e.key }

  function BatchMilestones(bs: seq<Batch>): set<MilestoneKey> { set b, m | b in bs && m in b.milestones :: m }

  lemma MergedKeys(bs: seq<Batch>)
    ensures EventKeys(Merged(bs).events) == BatchKeys(bs)
    ensures MilestoneKeys(Merged(bs).milestones) == BatchMilestones(bs)
  {
    hide EventKeys, MilestoneKeys, BatchKeys, BatchMilestones, AllEvents, AllMilestones;
    FirstOfEachSpec(AllEvents(bs));
    DistinctOnlySpec(AllMilestones(bs));
    AllKeys(bs);
  }

  lemma {:induction false} AllKeys(bs: seq<Batch>)
    ensures EventKeys(AllEvents(bs)) == BatchKeys(bs)
    ensures MilestoneKeys(AllMilestones(bs)) == BatchMilestones(bs)
  {
    if bs == [] {
      assert BatchKeys([]) == {} && BatchMilestones([]) == {} && EventKeys([]) == {} && MilestoneKeys([]) == {};
    } else {
      hide EventKeys, MilestoneKeys, BatchKeys, BatchMilestones;
      var n := |bs| - 1;
      AllKeys(bs[..n]);
      KeysOfAppend(AllEvents(bs[..n]), bs[n].events);
      MilestonesOfAppend(AllMilestones(bs[..n]), bs[n].milestones);
      BatchKeysSnoc(bs[..n], bs[n]);
      assert bs == bs[..n] + [bs[n]];
    }
  }

  lemma BatchKeysSnoc(bs: seq<Batch>, b: Batch)
    ensures BatchKeys(bs + [b]) == BatchKeys(bs) + EventKeys(b.events)
    ensures BatchMilestones(bs + [b]) == BatchMilestones(bs) + MilestoneKeys(b.milestones)
  {
    var all := bs + [b];
    assert forall x :: x in all <==> x in bs || x == b;
  }

  lemma BatchOfKey(bs: seq<Batch>, k: Key)
    ensures k in BatchKeys(bs) <==> exists i :: 0 <= i < |bs| && k in EventKeys(bs[i].events)
  {
  }

  lemma BatchOfMilestone(bs: seq<Batch>, m: MilestoneKey)
    ensures m in BatchMilestones(bs) <==> exists i :: 0 <= i < |bs| && m in MilestoneKeys(bs[i].milestones)
  {
  }

  /** What a pass proposes about airframes is exactly what its fresh ones are owed, and it
      proposes every event its notes carry. */
  lemma DetectedKeys(ss: seq<Sighting>, watermark: int, pass: Pass, detected: Batch, military: Batch)
    requires OtherBatch(detected) && OtherBatch(military) && OtherNotes(pass.notes)
    ensures
      var b := Detected(ss, watermark, pass, detected, military);
      var firsts := FirstsAt(ss, Fresh(ss, pass.scanned, pass.closed, watermark));
      && Announced(ss, firsts) + NoteKeys(pass.notes) + EventKeys(detected.events) + EventKeys(military.events) <= EventKeys(b.events)
      && (forall k :: k in EventKeys(b.events) && Airframe(k) ==> k in Announced(ss, firsts))
      && Claimed(ss, firsts) + MilestoneKeys(detected.milestones) + MilestoneKeys(military.milestones) <= MilestoneKeys(b.milestones)
      && (forall m :: m in MilestoneKeys(b.milestones) && m.UniqueAircraft? ==> m in Claimed(ss, firsts))
  {
    hide Batches, Claimed, Announced, NoteKeys, BatchKeys, BatchMilestones, Fresh, FirstsAt, EventKeys, MilestoneKeys, Merged, OtherBatch, OtherNotes;
    var bs := Batches(ss, watermark, pass, detected, military);
    var firsts := FirstsAt(ss, Fresh(ss, pass.scanned, pass.closed, watermark));
    MergedKeys(bs);
    forall k: Key
      ensures k in Announced(ss, firsts) + NoteKeys(pass.notes) + EventKeys(detected.events) + EventKeys(military.events) ==> k in BatchKeys(bs)
      ensures k in BatchKeys(bs) && Airframe(k) ==> k in Announced(ss, firsts)
    {
      KeyOfDetected(ss, watermark, pass, detected, military, bs, k);
    }
    forall m: MilestoneKey
      ensures m in Claimed(ss, firsts) + MilestoneKeys(detected.milestones) + MilestoneKeys(military.milestones) ==> m in BatchMilestones(bs)
      ensures m in BatchMilestones(bs) && m.UniqueAircraft? ==> m in Claimed(ss, firsts)
    {
      MilestoneOfDetected(ss, watermark, pass, detected, military, bs, m);
    }
  }

  lemma MilestoneOfDetected(ss: seq<Sighting>, watermark: int, pass: Pass, detected: Batch, military: Batch, bs: seq<Batch>, m: MilestoneKey)
    requires OtherBatch(detected) && OtherBatch(military) && bs == Batches(ss, watermark, pass, detected, military)
    ensures
      var firsts := FirstsAt(ss, Fresh(ss, pass.scanned, pass.closed, watermark));
      && (m in Claimed(ss, firsts) + MilestoneKeys(detected.milestones) + MilestoneKeys(military.milestones) ==> m in BatchMilestones(bs))
      && (m in BatchMilestones(bs) && m.UniqueAircraft? ==> m in Claimed(ss, firsts))
  {
    hide FirstEverEvents, Fresh, FirstsAt, Claimed, BatchMilestones, EventKeys, EventsOf;
    FirstEverSpec(ss, Fresh(ss, pass.scanned, pass.closed, watermark));
    BatchOfMilestone(bs, m);
    assert MilestoneKeys(bs[0].milestones) == Claimed(ss, FirstsAt(ss, Fresh(ss, pass.scanned, pass.closed, watermark)));
    assert bs[1] == detected && bs[7] == military;
  }

  lemma KeyOfDetected(ss: seq<Sighting>, watermark: int, pass: Pass, detected: Batch, military: Batch, bs: seq<Batch>, k: Key)
    requires OtherBatch(detected) && OtherBatch(military) && OtherNotes(pass.notes)
    requires bs == Batches(ss, watermark, pass, detected, military)
    ensures
      var firsts := FirstsAt(ss, Fresh(ss, pass.scanned, pass.closed, watermark));
      && (k in Announced(ss, firsts) + NoteKeys(pass.notes) + EventKeys(detected.events) + EventKeys(military.events) ==> k in BatchKeys(bs))
      && (k in BatchKeys(bs) && Airframe(k) ==> k in Announced(ss, firsts))
  {
    hide EventsOf, KeysOf, EventKeys, BatchKeys, FirstEverEvents, Fresh, FirstsAt, Claimed, FirstEverKeys, ReachedKeys;
    FirstEverSpec(ss, Fresh(ss, pass.scanned, pass.closed, watermark));
    BatchOfKey(bs, k);
    var n := pass.notes;
    EventsOfKeys(n.health);
    EventsOfKeys(n.imports);
    EventsOfKeys(n.alerts);
    EventsOfKeys(n.feeders);
    EventsOfKeys(n.selfAlerts);
    assert bs[0].events == FirstEverEvents(ss, Fresh(ss, pass.scanned, pass.closed, watermark)).events;
    assert bs[2].events == EventsOf(n.health) && bs[3].events == EventsOf(n.imports) && bs[4].events == EventsOf(n.alerts);
    assert bs[5].events == EventsOf(n.feeders) && bs[6].events == EventsOf(n.selfAlerts);
    assert bs[1] == detected && bs[7] == military;
  }

  // ----- Growth of the sightings table -----

  lemma FirstsGrow(ss: seq<Sighting>, x: Sighting, lo: int, hi: int)
    requires InOrder(ss + [x]) && x.id > 0 && hi <= MaxId(ss)
    ensures FirstsBetween(ss + [x], lo, hi) == FirstsBetween(ss, lo, hi)
    ensures FirstsBetween(ss, lo, hi) <= FirstsBetween(ss + [x], lo, MaxId(ss + [x]))
  {
    hide FirstHeard;
    var more := ss + [x];
    assert ss != [] ==> more[|ss| - 1].id < more[|ss|].id;
    forall i: nat | i < |ss| ensures more[i] == ss[i] && (FirstHeard(more, i) <==> FirstHeard(ss, i)) && more[i].id < x.id {
      GrowthKeepsFirst(ss, more, i);
      assert more[i].id < more[|ss|].id;
    }
    forall a | a in FirstsBetween(more, lo, hi) ensures a in FirstsBetween(ss, lo, hi) {
      var i: nat :| i < |more| && FirstHeard(more, i) && lo < more[i].id <= hi && more[i].aircraft == a;
      assert i < |ss| && FirstHeard(ss, i);
    }
    forall a | a in FirstsBetween(ss, lo, hi)
      ensures a in FirstsBetween(more, lo, hi) && a in FirstsBetween(more, lo, MaxId(more))
    {
      var i: nat :| i < |ss| && FirstHeard(ss, i) && lo < ss[i].id <= hi && ss[i].aircraft == a;
      assert FirstHeard(more, i) && more[i].aircraft == a;
    }
  }

  lemma ClaimsGrow(ss: seq<Sighting>, x: Sighting, firsts: set<int>)
    requires InOrder(ss + [x]) && firsts <= Aircraft(ss)
    ensures Claimed(ss + [x], firsts) == Claimed(ss, firsts)
    ensures Announced(ss + [x], firsts) == Announced(ss, firsts)
  {
    hide Rank;
    forall a | a in firsts ensures Rank(ss + [x], a) == Rank(ss, a) {
      var i: nat :| i < |ss| && ss[i].aircraft == a;
      GrowthKeepsRank(ss, ss + [x], i);
    }
    assert Claimed(ss + [x], firsts) == Claimed(ss, firsts);
  }

  lemma AnnouncedMonotone(ss: seq<Sighting>, a: set<int>, b: set<int>)
    requires a <= b
    ensures Announced(ss, a) <= Announced(ss, b) && Claimed(ss, a) <= Claimed(ss, b)
  {
    hide Rank;
  }

  lemma AnnouncedUnion(ss: seq<Sighting>, a: set<int>, b: set<int>)
    ensures Announced(ss, a + b) == Announced(ss, a) + Announced(ss, b)
    ensures Claimed(ss, a + b) == Claimed(ss, a) + Claimed(ss, b)
  {
    hide Rank;
  }

  // ----- What every run keeps -----

  predicate Shape(s: State) {
    && InOrder(s.sightings) && MaxId(s.sightings) >= 0
    && DistinctKeys(s.events)
    && (s.stored.Some? <==> s.initial.Some?)
    && (s.stored.Some? ==> s.initial.value <= s.stored.value <= MaxId(s.sightings))
    && (s.process.Some? ==>
          && s.stored.Some? && s.initial.Some?
          && s.initial.value <= s.process.value.watermark <= s.stored.value
          && OtherNotes(s.process.value.pending)
          && (s.process.value.pass.Some? ==>
                && OtherNotes(s.process.value.pass.value.notes)
                && NoGap(s.sightings, s.process.value.pass.value.scanned, s.process.value.watermark)))
  }

  /** Everything owed for airframes first heard up to the stored watermark is stored. */
  predicate Covered(s: State) {
    s.stored.Some? && s.initial.Some? ==>
      && Announced(s.sightings, FirstsBetween(s.sightings, s.initial.value, s.stored.value)) <= EventKeys(s.events)
      && Claimed(s.sightings, FirstsBetween(s.sightings, s.initial.value, s.stored.value)) <= s.milestones
  }

  /** Nothing about airframes is stored that is not owed for one first heard since the start. */
  predicate Sound(s: State) {
    if s.initial.None? then
      (forall k :: k in EventKeys(s.events) ==> !Airframe(k)) && (forall m :: m in s.milestones ==> !m.UniqueAircraft?)
    else
      var firsts := FirstsBetween(s.sightings, s.initial.value, MaxId(s.sightings));
      && (forall k :: k in EventKeys(s.events) && Airframe(k) ==> k in Announced(s.sightings, firsts))
      && (forall m :: m in s.milestones && m.UniqueAircraft? ==> m in Claimed(s.sightings, firsts))
  }

  function SetOf(ks: seq<Key>): set<Key> { set k | k in ks }

  predicate PublishedOnce(s: State) { Distinct(s.published) && SetOf(s.published) <= EventKeys(s.events) }

  predicate HandledStored(s: State) { NoteKeys(s.handled) <= EventKeys(s.events) }

  predicate Valid(s: State) {
    Shape(s) && Covered(s) && Sound(s) && PublishedOnce(s) && HandledStored(s)
  }

  lemma CommitKeeps(s: State, x: Sighting)
    requires Valid(s) && Feasible(s, Commit(x))
    ensures Valid(Next(s, Commit(x)))
  {
    hide Shape, Covered, Sound, EventKeys, NoteKeys, Distinct, SetOf;
    var t := Next(s, Commit(x));
    assert t == s.(sightings := s.sightings + [x]);
    CommitKeepsShape(s, x, t);
    CommitKeepsOwed(s, x, t);
  }

  lemma CommitKeepsShape(s: State, x: Sighting, t: State)
    requires Shape(s) && Feasible(s, Commit(x)) && t == s.(sightings := s.sightings + [x])
    ensures Shape(t)
  {
    var ss := s.sightings;
    assert ss != [] ==> (ss + [x])[|ss| - 1].id < (ss + [x])[|ss|].id;
    if s.process.Some? && s.process.value.pass.Some? {
      GrowthKeepsNoGap(ss, x, s.process.value.pass.value.scanned, s.process.value.watermark);
    }
    hide InOrder, NoGap, NoteKeys, OtherNotes, DistinctKeys;
  }

  lemma CommitKeepsOwed(s: State, x: Sighting, t: State)
    requires Shape(s) && Covered(s) && Sound(s) && Feasible(s, Commit(x)) && t == s.(sightings := s.sightings + [x])
    ensures Covered(t) && Sound(t)
  {
    if s.stored.Some? {
      var ss := s.sightings;
      var lo, hi, top := s.initial.value, s.stored.value, MaxId(ss);
      FirstsGrow(ss, x, lo, hi);
      FirstsGrow(ss, x, lo, top);
      ClaimsGrow(ss, x, FirstsBetween(ss, lo, hi));
      ClaimsGrow(ss, x, FirstsBetween(ss, lo, top));
      AnnouncedMonotone(ss + [x], FirstsBetween(ss, lo, top), FirstsBetween(ss + [x], lo, MaxId(ss + [x])));
    }
    hide FirstsBetween, Announced, Claimed, EventKeys, InOrder, NoGap, NoteKeys, DistinctKeys, OtherNotes;
  }

  lemma StartKeeps(s: State, step: Step)
    requires Valid(s) && step.Start? && Feasible(s, step)
    ensures Valid(Next(s, step))
  {
    var t := Next(s, step);
    assert Shape(t) by {
      hide Covered, Sound, PublishedOnce, HandledStored, EventKeys, InOrder, NoteKeys, DistinctKeys;
    }
    if s.stored.Some? {
      assert t == s.(process := t.process);
      OnlyProcessChanges(s, t);
    } else {
      FirstStart(s, t);
    }
    hide Shape, Covered, Sound, PublishedOnce, HandledStored, Next, Feasible;
  }

  /** A first ever start owes nothing yet. */
  lemma FirstStart(s: State, t: State)
    requires Valid(s) && s.stored.None? && s.initial.None?
    requires t == s.(stored := Some(MaxId(s.sightings)), initial := Some(MaxId(s.sightings)), process := t.process)
    ensures Covered(t) && Sound(t) && PublishedOnce(t) && HandledStored(t)
  {
    var w := MaxId(s.sightings);
    assert FirstsBetween(s.sightings, w, w) == {};
    assert Announced(s.sightings, {}) == {} && Claimed(s.sightings, {}) == {};
    hide FirstsBetween, Announced, Claimed, EventKeys, InOrder, NoteKeys, DistinctKeys, Shape, Distinct, SetOf, MaxId;
  }

  lemma BeginKeeps(s: State, limit: nat)
    requires Valid(s) && Feasible(s, BeginPass(limit))
    ensures Valid(Next(s, BeginPass(limit)))
  {
    ScanLeavesNoGap(s.sightings, s.process.value.watermark, limit);
    assert NoteKeys(NO_NOTES) == {};
    hide FirstsBetween, Announced, Claimed, EventKeys, InOrder, NoGap, NoteKeys, Scan;
  }

  function BatchOf(s: State, step: Step): Batch
    requires step.EndPass? && Feasible(s, step)
  {
    Detected(s.sightings, s.process.value.watermark, s.process.value.pass.value, step.detected, step.military)
  }

  function FirstsOf(s: State): set<int>
    requires s.process.Some? && s.process.value.pass.Some?
  {
    FirstsAt(s.sightings, Fresh(s.sightings, s.process.value.pass.value.scanned, s.process.value.pass.value.closed, s.process.value.watermark))
  }

  /** A pass's end, field by field. */
  lemma EndEffect(s: State, step: Step, b: Batch, table: seq<Event>, t: State)
    requires Shape(s) && step.EndPass? && Feasible(s, step)
    requires b == BatchOf(s, step) && table == Insert(s.events, b.events) && t == Next(s, step)
    ensures s.events <= table && DistinctKeys(table)
    ensures EventKeys(table) == EventKeys(s.events) + EventKeys(b.events)
    ensures t.sightings == s.sightings && t.initial == s.initial
    ensures t.events == if step.progress == Nothing then s.events else table
    ensures t.milestones == if step.progress == Nothing then s.milestones else s.milestones + MilestoneKeys(b.milestones)
    ensures
      var p, pass := s.process.value, s.process.value.pass.value;
      var to := ScannedTo(pass.scanned, p.watermark);
      && t.stored == (if step.progress == Marked && to != p.watermark then Some(to) else s.stored)
      && (step.ending == Completed ==>
            step.progress == Marked && t.process == Some(Process(to, p.closed, p.pending, None)))
      && (step.ending == Raised ==>
            t.process == Some(Process(p.watermark, p.closed + pass.closed, Then(pass.notes, p.pending), None)))
      && (step.ending == Cancelled ==> t.process == Some(Process(p.watermark, p.closed, p.pending, None)))
      && (step.ending == Killed ==> t.process == None)
      && t.handled == (if step.ending == Completed then Then(s.handled, pass.notes) else s.handled)
    ensures t.published == if step.ending == Completed then s.published + KeySeq(table[|s.events|..]) else s.published
  {
    hide EventKeys, InOrder, NoteKeys, Detected, Insert, ScannedTo, NoGap, KeySeq, Then, OtherBatch, MilestoneKeys;
    InsertSpec(s.events, b.events);
  }

  lemma EndShape(s: State, step: Step, t: State)
    requires Shape(s) && step.EndPass? && Feasible(s, step) && t == Next(s, step)
    ensures Shape(t)
  {
    hide EventKeys, InOrder, NoteKeys, Insert, ScannedTo, NoGap, Next, Ended, KeySeq, Then, Detected, MilestoneKeys, OtherBatch, DistinctKeys, OtherNotes, MaxId;
    var p := s.process.value;
    var b := BatchOf(s, step);
    EndEffect(s, step, b, Insert(s.events, b.events), t);
    OtherNotesThen(p.pass.value.notes, p.pending);
    EndBounds(s.sightings, p.pass.value.scanned, p.watermark);
  }

  lemma OtherNotesThen(a: Notes, b: Notes)
    requires OtherNotes(a) && OtherNotes(b)
    ensures OtherNotes(Then(a, b))
  {
    NoteKeysThen(a, b);
  }

  lemma EndBounds(ss: seq<Sighting>, scanned: seq<int>, watermark: int)
    requires NoGap(ss, scanned, watermark) && watermark <= MaxId(ss)
    ensures watermark <= ScannedTo(scanned, watermark) <= MaxId(ss)
  {
  }

  /** What a pass looked at, against the span of ids it covers. */
  lemma FreshFirsts(s: State)
    requires Shape(s) && s.process.Some? && s.process.value.pass.Some? && s.stored.Some? && s.initial.Some?
    ensures
      var ss, p := s.sightings, s.process.value;
      var lo, to := s.initial.value, ScannedTo(p.pass.value.scanned, p.watermark);
      && FirstsBetween(ss, lo, to) <= FirstsBetween(ss, lo, p.watermark) + FirstsOf(s)
      && FirstsOf(s) <= FirstsBetween(ss, lo, MaxId(ss))
  {
    var ss, p := s.sightings, s.process.value;
    var lo, to := s.initial.value, ScannedTo(p.pass.value.scanned, p.watermark);
    FreshCovers(ss, p.pass.value.scanned, p.pass.value.closed, p.watermark);
    assert FirstsBetween(ss, lo, to) <= FirstsBetween(ss, lo, p.watermark) + FirstsBetween(ss, p.watermark, to);
    assert FirstsBetween(ss, p.watermark, MaxId(ss)) <= FirstsBetween(ss, lo, MaxId(ss));
  }

  /** What is owed up to a new watermark is what was owed up to the old one and what the pass
      proposed. */
  lemma OwedThrough(ss: seq<Sighting>, lo: int, from: int, hi: int, to: int, firsts: set<int>,
                    stored: set<Key>, proposed: set<Key>, claimed: set<MilestoneKey>, claims: set<MilestoneKey>)
    requires from <= hi && FirstsBetween(ss, lo, to) <= FirstsBetween(ss, lo, from) + firsts
    requires Announced(ss, FirstsBetween(ss, lo, hi)) <= stored && Claimed(ss, FirstsBetween(ss, lo, hi)) <= claimed
    requires Announced(ss, firsts) <= proposed && Claimed(ss, firsts) <= claims
    ensures Announced(ss, FirstsBetween(ss, lo, to)) <= stored + proposed
    ensures Claimed(ss, FirstsBetween(ss, lo, to)) <= claimed + claims
  {
    assert FirstsBetween(ss, lo, from) <= FirstsBetween(ss, lo, hi);
    AnnouncedUnion(ss, FirstsBetween(ss, lo, hi), firsts);
    AnnouncedMonotone(ss, FirstsBetween(ss, lo, to), FirstsBetween(ss, lo, hi) + firsts);
    hide FirstsBetween, Announced, Claimed;
  }

  /** The part of a pass's end that concerns what is owed. */
  lemma OwedEffect(s: State, step: Step, b: Batch, t: State)
    requires Shape(s) && step.EndPass? && Feasible(s, step) && b == BatchOf(s, step) && t == Next(s, step)
    ensures t.sightings == s.sightings && t.initial == s.initial
    ensures EventKeys(t.events) == EventKeys(s.events) + if step.progress == Nothing then {} else EventKeys(b.events)
    ensures t.milestones == s.milestones + if step.progress == Nothing then {} else MilestoneKeys(b.milestones)
    ensures t.stored == s.stored || (step.progress == Marked && t.stored == Some(ScannedTo(s.process.value.pass.value.scanned, s.process.value.watermark)))
  {
    hide EventKeys, InOrder, NoteKeys, Detected, Insert, ScannedTo, NoGap, KeySeq, Then, OtherBatch, MilestoneKeys, Next, Ended, Feasible, Shape;
    EndEffect(s, step, b, Insert(s.events, b.events), t);
  }

  lemma EndCovered(s: State, step: Step)
    requires Valid(s) && step.EndPass? && Feasible(s, step)
    ensures Covered(Next(s, step))
  {
    var t, b, p := Next(s, step), BatchOf(s, step), s.process.value;
    OwedEffect(s, step, b, t);
    DetectedKeys(s.sightings, p.watermark, p.pass.value, step.detected, step.military);
    FreshFirsts(s);
    OwedThrough(s.sightings, s.initial.value, p.watermark, s.stored.value, ScannedTo(p.pass.value.scanned, p.watermark),
                FirstsOf(s), EventKeys(s.events), EventKeys(b.events), s.milestones, MilestoneKeys(b.milestones));
    hide FirstsBetween, Announced, Claimed, EventKeys, InOrder, NoteKeys, NoGap, Detected, Insert, ScannedTo, FirstsAt, Fresh, MilestoneKeys,
         Next, Ended, FirstsOf, Sound, PublishedOnce, HandledStored, KeySeq, Then, OtherNotes, OtherBatch, DistinctKeys;
  }

  lemma EndSound(s: State, step: Step)
    requires Valid(s) && step.EndPass? && Feasible(s, step)
    ensures Sound(Next(s, step))
  {
    hide FirstsBetween, Announced, Claimed, EventKeys, InOrder, NoteKeys, NoGap, Detected, Insert, ScannedTo, MilestoneKeys, KeySeq, Then;
    var t, b, p := Next(s, step), BatchOf(s, step), s.process.value;
    var ss, firsts := s.sightings, FirstsOf(s);
    EndEffect(s, step, b, Insert(s.events, b.events), t);
    DetectedKeys(ss, p.watermark, p.pass.value, step.detected, step.military);
    FreshFirsts(s);
    AnnouncedMonotone(ss, firsts, FirstsBetween(ss, s.initial.value, MaxId(ss)));
    hide FirstsAt, Fresh, Next, Ended, FirstsOf, Covered, PublishedOnce, HandledStored, OtherNotes, OtherBatch;
  }

  lemma KeySeqSpec(es: seq<Event>)
    requires DistinctKeys(es)
    ensures Distinct(KeySeq(es)) && SetOf(KeySeq(es)) == EventKeys(es)
  {
    assert forall i :: 0 <= i < |es| ==> KeySeq(es)[i] == es[i].key;
    forall k | k in EventKeys(es) ensures k in KeySeq(es) {
      var i :| 0 <= i < |es| && es[i].key == k;
      assert KeySeq(es)[i] == k;
    }
    forall k | k in KeySeq(es) ensures k in EventKeys(es) {
      var i :| 0 <= i < |es| && KeySeq(es)[i] == k;
      assert es[i] in es;
    }
  }

  /** Appending keys that were not there keeps a list free of repeats. */
  lemma DistinctJoin(a: seq<Key>, b: seq<Key>)
    requires Distinct(a) && Distinct(b) && SetOf(a) !! SetOf(b)
    ensures Distinct(a + b) && SetOf(a + b) == SetOf(a) + SetOf(b)
  {
    forall i, j | 0 <= i < j < |a + b| ensures (a + b)[i] != (a + b)[j] {
      if i < |a| <= j {
        assert a[i] in SetOf(a) && b[j - |a|] in SetOf(b);
      }
    }
  }

  /** Keys of stored events nobody was ever told about. */
  function Untold(s: State): set<Key> { EventKeys(s.events) - SetOf(s.published) }

  /** The keys a pass adds to the table. */
  function NewKeys(s: State, step: Step): set<Key>
    requires step.EndPass? && Feasible(s, step)
  {
    EventKeys(BatchOf(s, step).events) - EventKeys(s.events)
  }

  /** Every event is published by the pass that creates it or never: what becomes untold is
      exactly what a pass recorded and then did not complete, and it stays untold. */
  lemma UntoldExactly(s: State, step: Step, t: State)
    requires Valid(s) && Feasible(s, step) && t == Next(s, step)
    ensures PublishedOnce(t)
    ensures Untold(t) == Untold(s) +
              if step.EndPass? && step.progress != Nothing && step.ending != Completed then NewKeys(s, step) else {}
  {
    if step.EndPass? {
      EndTold(s, step, t);
    } else {
      assert t.events == s.events && t.published == s.published;
    }
  }

  lemma EndTold(s: State, step: Step, t: State)
    requires Valid(s) && step.EndPass? && Feasible(s, step) && t == Next(s, step)
    ensures PublishedOnce(t)
    ensures Untold(t) == Untold(s) + if step.progress != Nothing && step.ending != Completed then NewKeys(s, step) else {}
  {
    hide EventKeys, Distinct, SetOf, Next, Feasible, Shape, Covered, Sound, HandledStored, NewKeys;
    var created := CreatedByPass(s, step, t);
    Telling(EventKeys(s.events), s.published, created, NewKeys(s, step));
  }

  /** The rows a pass creates carry exactly its new keys, and are what it publishes. */
  lemma CreatedByPass(s: State, step: Step, t: State) returns (created: seq<Key>)
    requires Shape(s) && step.EndPass? && Feasible(s, step) && t == Next(s, step)
    ensures Distinct(created) && SetOf(created) == NewKeys(s, step) && NewKeys(s, step) !! EventKeys(s.events)
    ensures EventKeys(t.events) == EventKeys(s.events) + if step.progress == Nothing then {} else NewKeys(s, step)
    ensures t.published == if step.ending == Completed then s.published + created else s.published
    ensures step.ending == Completed ==> step.progress == Marked
  {
    hide Insert, EventKeys, BatchOf, KeySeq, Distinct, SetOf, Next, Feasible, Shape, DistinctKeys, NewKeys;
    var b := BatchOf(s, step);
    var table := Insert(s.events, b.events);
    ToldEffect(s, step, b, table, t);
    CreatedKeys(s.events, b.events);
    KeySeqSpec(table[|s.events|..]);
    created := KeySeq(table[|s.events|..]);
  }

  /** Keys created and told are no longer untold; keys created and not told are. */
  lemma Telling(stored: set<Key>, told: seq<Key>, created: seq<Key>, added: set<Key>)
    requires Distinct(told) && SetOf(told) <= stored
    requires Distinct(created) && SetOf(created) == added && added !! stored
    ensures Distinct(told + created) && SetOf(told + created) <= stored + added
    ensures (stored + added) - SetOf(told + created) == stored - SetOf(told)
    ensures (stored + added) - SetOf(told) == (stored - SetOf(told)) + added
  {
    hide SetOf, Distinct;
    DistinctJoin(told, created);
  }

  /** The part of a pass's end that concerns the table and the listeners. */
  lemma ToldEffect(s: State, step: Step, b: Batch, table: seq<Event>, t: State)
    requires Shape(s) && step.EndPass? && Feasible(s, step)
    requires b == BatchOf(s, step) && table == Insert(s.events, b.events) && t == Next(s, step)
    ensures s.events <= table && DistinctKeys(table) && DistinctKeys(table[|s.events|..]) && DistinctKeys(s.events)
    ensures EventKeys(table) == EventKeys(s.events) + EventKeys(b.events)
    ensures t.events == if step.progress == Nothing then s.events else table
    ensures t.published == if step.ending == Completed then s.published + KeySeq(table[|s.events|..]) else s.published
    ensures step.ending == Completed ==> step.progress == Marked
    ensures NewKeys(s, step) == EventKeys(b.events) - EventKeys(s.events)
  {
    hide EventKeys, InOrder, NoteKeys, Insert, ScannedTo, NoGap, Next, Feasible, Ended, KeySeq, Then, MilestoneKeys, Detected;
    EndEffect(s, step, b, table, t);
  }

  lemma EndHandled(s: State, step: Step, t: State)
    requires Valid(s) && step.EndPass? && Feasible(s, step) && t == Next(s, step)
    ensures HandledStored(t)
  {
    var b, p := BatchOf(s, step), s.process.value;
    EndEffect(s, step, b, Insert(s.events, b.events), t);
    DetectedKeys(s.sightings, p.watermark, p.pass.value, step.detected, step.military);
    NoteKeysThen(s.handled, p.pass.value.notes);
    hide Insert, EventKeys, Detected, KeySeq, Then, Next, Ended, NoteKeys, Announced, Claimed, FirstsAt, MilestoneKeys, Covered, Sound, PublishedOnce, Shape, NoGap;
  }

  /** Each step keeps all of it. */
  lemma StepKeeps(s: State, step: Step, t: State)
    requires Valid(s) && Feasible(s, step) && t == Next(s, step)
    ensures Valid(t)
  {
    match step {
      case Commit(x) => CommitKeeps(s, x);
      case Start(_, _) => StartKeeps(s, step);
      case BeginPass(limit) => BeginKeeps(s, limit);
      case EndPass(_, _, _, _) => EndKeeps(s, step, t);
      case _ => QuietKeeps(s, step, t);
    }
  }

  lemma EndKeeps(s: State, step: Step, t: State)
    requires Valid(s) && step.EndPass? && Feasible(s, step) && t == Next(s, step)
    ensures Valid(t)
  {
    hide Shape, Covered, Sound, PublishedOnce, HandledStored, Next, Feasible;
    EndShape(s, step, t);
    EndCovered(s, step);
    EndSound(s, step);
    UntoldExactly(s, step, t);
    EndHandled(s, step, t);
  }

  lemma QuietKeeps(s: State, step: Step, t: State)
    requires Valid(s) && Feasible(s, step) && t == Next(s, step)
    requires step.Submit? || step.Close? || step.Crash?
    ensures Valid(t)
  {
    hide InOrder, NoGap, DistinctKeys, Covered, Sound, PublishedOnce, HandledStored, Next, Feasible, OtherNotes;
    QuietEffect(s, step, t);
    OnlyProcessChanges(s, t);
  }

  lemma QuietEffect(s: State, step: Step, t: State)
    requires Shape(s) && Feasible(s, step) && t == Next(s, step)
    requires step.Submit? || step.Close? || step.Crash?
    ensures t == s.(process := t.process)
    ensures t.process.Some? ==>
              && s.process.Some? && t.process.value.watermark == s.process.value.watermark && t.process.value.pass == s.process.value.pass
              && OtherNotes(t.process.value.pending)
  {
    hide InOrder, NoGap, NoteKeys, Then, DistinctKeys;
    if step.Submit? {
      NoteKeysThen(s.process.value.pending, step.notes);
    }
  }

  lemma OnlyProcessChanges(s: State, t: State)
    requires t == s.(process := t.process)
    ensures Covered(t) == Covered(s) && Sound(t) == Sound(s) && PublishedOnce(t) == PublishedOnce(s) && HandledStored(t) == HandledStored(s)
  {
  }

  // ----- Runs -----

  predicate Runs(s: State, steps: seq<Step>)
    decreases |steps|
  {
    steps == [] || (Feasible(s, steps[0]) && Runs(Next(s, steps[0]), steps[1..]))
  }

  function Run(s: State, steps: seq<Step>): State
    requires Runs(s, steps)
    decreases |steps|
  {
    if steps == [] then s else Run(Next(s, steps[0]), steps[1..])
  }

  /** A database the feed has never run on, whatever sightings it already holds. */
  predicate NewInstall(s: State) {
    && InOrder(s.sightings) && MaxId(s.sightings) >= 0
    && s == State(s.sightings, [], {}, None, None, None, [], NO_NOTES, {})
  }

  lemma {:induction false} RunKeeps(s: State, steps: seq<Step>)
    requires Valid(s) && Runs(s, steps)
    ensures Valid(Run(s, steps))
    decreases |steps|
  {
    hide Valid, Next, Feasible;
    if steps != [] {
      StepKeeps(s, steps[0], Next(s, steps[0]));
      RunKeeps(Next(s, steps[0]), steps[1..]);
    }
  }

  lemma NewInstallIsValid(s: State)
    requires NewInstall(s)
    ensures Valid(s)
  {
    assert NoteKeys(NO_NOTES) == {};
  }

  predicate StoredOnce(events: seq<Event>, k: Key) { exists j :: 0 <= j < |events| && OnlyAt(events, k, j) }

  predicate OnlyAt(events: seq<Event>, k: Key, j: nat) {
    forall i :: 0 <= i < |events| ==> (events[i].key == k <==> i == j)
  }

  lemma OnceByKeys(events: seq<Event>, k: Key)
    requires DistinctKeys(events) && k in EventKeys(events)
    ensures StoredOnce(events, k)
  {
    var e :| e in events && e.key == k;
    var j :| 0 <= j < |events| && events[j] == e;
    assert OnlyAt(events, k, j);
  }

  lemma NotFirstBetween(ss: seq<Sighting>, i: nat, lo: int, hi: int)
    requires i < |ss| && FirstHeard(ss, i)
    ensures ss[i].id <= lo ==> ss[i].aircraft !in FirstsBetween(ss, lo, hi)
  {
    forall j: nat | j < |ss| && FirstHeard(ss, j) && ss[j].aircraft == ss[i].aircraft ensures j == i {
    }
  }

  /** Over any run from a new install, whatever is batched, raised, cancelled or killed: the
      airframe whose first sighting is sighting i has its first-ever event stored exactly once
      when that sighting lies after the initial watermark and up to the current one, and not
      at all when it lies at or before the initial one. When the number of airframes heard by
      then is a threshold, its milestone and its event are stored under the same condition. */
  lemma ExactlyOnce(s: State, steps: seq<Step>, i: nat)
    requires NewInstall(s) && Runs(s, steps)
    requires
      var t := Run(s, steps);
      t.stored.Some? && t.initial.Some? && i < |t.sightings| && FirstHeard(t.sightings, i)
    ensures
      var t := Run(s, steps);
      var a, id, n := t.sightings[i].aircraft, t.sightings[i].id, |Aircraft(t.sightings[..i + 1])|;
      && (t.initial.value < id <= t.stored.value ==>
            && StoredOnce(t.events, FirstEver(a))
            && (n in UNIQUE_AIRCRAFT_THRESHOLDS ==> UniqueAircraft(n) in t.milestones && StoredOnce(t.events, Reached(UniqueAircraft(n)))))
      && (id <= t.initial.value ==> FirstEver(a) !in EventKeys(t.events))
  {
    NewInstallIsValid(s);
    RunKeeps(s, steps);
    var t := Run(s, steps);
    AirframeStored(t, i);
    RankIsPlace(t.sightings, i);
    hide Rank, StoredOnce, Run;
  }

  lemma AirframeStored(t: State, i: nat)
    requires Valid(t) && t.stored.Some? && t.initial.Some? && i < |t.sightings| && FirstHeard(t.sightings, i)
    ensures
      var a, id, n := t.sightings[i].aircraft, t.sightings[i].id, Rank(t.sightings, t.sightings[i].aircraft);
      && (t.initial.value < id <= t.stored.value ==>
            && StoredOnce(t.events, FirstEver(a))
            && (n in UNIQUE_AIRCRAFT_THRESHOLDS ==> UniqueAircraft(n) in t.milestones && StoredOnce(t.events, Reached(UniqueAircraft(n)))))
      && (id <= t.initial.value ==> FirstEver(a) !in EventKeys(t.events))
  {
    hide Rank, StoredOnce, InOrder, NoGap, NoteKeys;
    var ss, lo, hi := t.sightings, t.initial.value, t.stored.value;
    var a, n := ss[i].aircraft, Rank(ss, ss[i].aircraft);
    if lo < ss[i].id <= hi {
      assert a in FirstsBetween(ss, lo, hi);
      assert FirstEver(a) in Announced(ss, FirstsBetween(ss, lo, hi));
      OnceByKeys(t.events, FirstEver(a));
      if n in UNIQUE_AIRCRAFT_THRESHOLDS {
        assert UniqueAircraft(n) in Claimed(ss, FirstsBetween(ss, lo, hi));
        assert Reached(UniqueAircraft(n)) in Announced(ss, FirstsBetween(ss, lo, hi));
        OnceByKeys(t.events, Reached(UniqueAircraft(n)));
      }
    }
    NotFirstBetween(ss, i, lo, MaxId(ss));
  }

  /** Conversely every milestone about airframes was earned: an airframe first heard after the
      initial watermark was the one that made that many. */
  lemma MilestonesAreEarned(s: State, steps: seq<Step>, n: int)
    requires NewInstall(s) && Runs(s, steps) && UniqueAircraft(n) in Run(s, steps).milestones
    ensures
      var t := Run(s, steps);
      && t.initial.Some?
      && n in UNIQUE_AIRCRAFT_THRESHOLDS
      && exists i: nat :: i < |t.sightings| && FirstHeard(t.sightings, i) && t.sightings[i].id > t.initial.value
                          && |Aircraft(t.sightings[..i + 1])| == n
  {
    NewInstallIsValid(s);
    RunKeeps(s, steps);
    var t := Run(s, steps);
    var a :| a in FirstsBetween(t.sightings, t.initial.value, MaxId(t.sightings)) && Rank(t.sightings, a) == n;
    var i: nat :| i < |t.sightings| && FirstHeard(t.sightings, i) && t.initial.value < t.sightings[i].id && t.sightings[i].aircraft == a;
    RankIsPlace(t.sightings, i);
    hide Rank, Run, Aircraft;
  }

  /** A pass that finds no sighting above its watermark writes no watermark, however it ends. */
  lemma QuietPassKeepsWatermark(s: State, end: Step)
    requires end.EndPass? && Feasible(s, end) && s.process.value.pass.value.scanned == []
    ensures Next(s, end).stored == s.stored
    ensures end.ending == Completed ==> Next(s, end).process.value.watermark == s.process.value.watermark
  {
    hide Detected, Insert, KeySeq, Then, MilestoneKeys, OtherBatch, OtherNotes;
  }

  // ----- What was heard before the feed -----

  lemma {:induction false} RunJoin(s: State, a: seq<Step>, b: seq<Step>)
    requires Runs(s, a) && Runs(Run(s, a), b)
    ensures Runs(s, a + b) && Run(s, a + b) == Run(Run(s, a), b)
    decreases |a|
  {
    hide Feasible, Next;
    if a == [] {
      assert a + b == b;
    } else {
      RunJoin(Next(s, a[0]), a[1..], b);
      assert (a + b)[0] == a[0] && (a + b)[1..] == a[1..] + b;
    }
  }

  /** Until the first start nothing but sightings happens. */
  lemma {:induction false} BeforeAnyStart(s: State, steps: seq<Step>)
    requires Runs(s, steps) && s.process.None? && s.stored.None?
    requires forall i :: 0 <= i < |steps| ==> !steps[i].Start?
    ensures Run(s, steps).process.None? && Run(s, steps).stored.None?
    decreases |steps|
  {
    if steps != [] {
      assert forall i :: 0 <= i < |steps| - 1 ==> steps[1..][i] == steps[i + 1];
      BeforeAnyStart(Next(s, steps[0]), steps[1..]);
    }
  }

  /** Sightings are only added, with ids above zero, and the first watermark stays. */
  predicate Grown(s: State, t: State) {
    && s.sightings <= t.sightings && (forall k :: |s.sightings| <= k < |t.sightings| ==> t.sightings[k].id > 0)
    && (s.stored.Some? && s.initial.Some? ==> t.stored.Some? && t.initial == s.initial)
  }

  lemma GrownStep(s: State, step: Step, t: State)
    requires Feasible(s, step) && t == Next(s, step)
    ensures Grown(s, t)
  {
    hide Detected, Insert, KeySeq, Then, MilestoneKeys, OtherBatch, OtherNotes, Scan, ScannedTo, InOrder;
  }

  lemma {:induction false} GrownRun(s: State, steps: seq<Step>)
    requires Runs(s, steps)
    ensures Grown(s, Run(s, steps))
    decreases |steps|
  {
    hide Next, Feasible;
    if steps != [] {
      GrownStep(s, steps[0], Next(s, steps[0]));
      GrownRun(Next(s, steps[0]), steps[1..]);
    }
  }

  /** The feed starts at the present: an airframe heard before the first start is never announced,
      and of those first heard later, every one up to the stored watermark is, once. */
  lemma StartsAtThePresent(s: State, before: seq<Step>, start: Step, later: seq<Step>, i: nat)
    requires NewInstall(s) && Runs(s, before) && forall k :: 0 <= k < |before| ==> !before[k].Start?
    requires start.Start? && Runs(Run(s, before), [start] + later)
    requires
      var t := Run(Run(s, before), [start] + later);
      i < |t.sightings| && FirstHeard(t.sightings, i)
    ensures
      var known, t := |Run(s, before).sightings|, Run(Run(s, before), [start] + later);
      && t.stored.Some?
      && (i < known ==> FirstEver(t.sightings[i].aircraft) !in EventKeys(t.events))
      && (i >= known && t.sightings[i].id <= t.stored.value ==> StoredOnce(t.events, FirstEver(t.sightings[i].aircraft)))
  {
    hide Feasible, Next, StoredOnce, EventKeys, FirstHeard, InOrder, NewInstall, Run, Runs;
    RunJoin(s, before, [start] + later);
    var u, t := Run(s, before), Run(Run(s, before), [start] + later);
    NothingStoredYet(s);
    BeforeAnyStart(s, before);
    var v := FirstOne(u, start, later);
    FirstStartMarks(u, start, v);
    GrownRun(v, later);
    NewInstallIsValid(s);
    RunKeeps(s, before);
    RunKeeps(s, before + ([start] + later));
    ExactlyOnce(s, before + ([start] + later), i);
    NewestAt(u, t, i);
    hide Valid;
  }

  lemma NothingStoredYet(s: State)
    requires NewInstall(s)
    ensures s.process.None? && s.stored.None?
  {
  }

  lemma FirstStartMarks(u: State, start: Step, v: State)
    requires start.Start? && Feasible(u, start) && u.stored.None? && v == Next(u, start)
    ensures v.sightings == u.sightings && v.stored == v.initial == Some(MaxId(u.sightings))
  {
  }

  lemma NewestAt(s: State, t: State, i: nat)
    requires Valid(s) && Valid(t) && i < |t.sightings| && s.sightings <= t.sightings
    requires forall k :: |s.sightings| <= k < |t.sightings| ==> t.sightings[k].id > 0
    ensures t.sightings[i].id <= MaxId(s.sightings) <==> i < |s.sightings|
  {
    hide Covered, Sound, PublishedOnce, HandledStored, InOrder, NoGap, DistinctKeys, OtherNotes;
    OrderAscends(t.sightings);
    NewestAmong(s.sightings, t.sightings, i);
  }

  lemma NewestAmong(ss: seq<Sighting>, more: seq<Sighting>, i: nat)
    requires IdsAscend(more) && ss <= more && i < |more| && MaxId(ss) >= 0
    requires forall k :: |ss| <= k < |more| ==> more[k].id > 0
    ensures more[i].id <= MaxId(ss) <==> i < |ss|
  {
    if ss != [] {
      assert more[|ss| - 1] == ss[|ss| - 1];
    }
  }

  // ----- What the stored events say -----

  /** The event is one its airframe's first sighting gives rise to. */
  predicate Stamped(ss: seq<Sighting>, e: Event) { exists i: nat :: i < |ss| && IsEventOf(ss, i, e) }

  predicate AllStamped(s: State) { forall e :: e in s.events && Airframe(e.key) ==> Stamped(s.sightings, e) }

  lemma {:induction false} InsertAddsNone(stored: seq<Event>, es: seq<Event>, e: Event)
    requires e in Insert(stored, es)
    ensures e in stored || e in es
  {
    hide EventKeys;
    if es != [] && e !in stored {
      var n := |es| - 1;
      assert e in Insert(stored, es[..n]) || e == es[n];
      if e in Insert(stored, es[..n]) {
        InsertAddsNone(stored, es[..n], e);
      }
    }
  }

  lemma {:induction false} FirstsAreAmong(es: seq<Event>, e: Event)
    requires e in FirstOfEach(es)
    ensures e in es
  {
    hide EventKeys;
    var n := |es| - 1;
    if e in FirstOfEach(es[..n]) {
      FirstsAreAmong(es[..n], e);
    }
  }

  lemma {:induction false} FromSomeBatch(bs: seq<Batch>, e: Event)
    requires e in AllEvents(bs)
    ensures exists i :: 0 <= i < |bs| && e in bs[i].events
  {
    var n := |bs| - 1;
    if e in AllEvents(bs[..n]) {
      FromSomeBatch(bs[..n], e);
      var i :| 0 <= i < n && e in bs[..n][i].events;
      assert e in bs[i].events;
    }
  }

  /** An event about an airframe comes from the producer that looks at airframes. */
  lemma DetectedAirframe(ss: seq<Sighting>, watermark: int, pass: Pass, detected: Batch, military: Batch, e: Event)
    requires OtherBatch(detected) && OtherBatch(military) && OtherNotes(pass.notes)
    requires e in Detected(ss, watermark, pass, detected, military).events && Airframe(e.key)
    ensures e in FirstEverEvents(ss, Fresh(ss, pass.scanned, pass.closed, watermark)).events
  {
    hide EventsOf, KeysOf, EventKeys, FirstEverEvents, Fresh, FirstOfEach, AllEvents;
    var bs, n := Batches(ss, watermark, pass, detected, military), pass.notes;
    FirstsAreAmong(AllEvents(bs), e);
    FromSomeBatch(bs, e);
    var i :| 0 <= i < |bs| && e in bs[i].events;
    KeyOfEvent(bs[i].events, e);
    EventsOfKeys(n.health);
    EventsOfKeys(n.imports);
    EventsOfKeys(n.alerts);
    EventsOfKeys(n.feeders);
    EventsOfKeys(n.selfAlerts);
  }

  lemma KeyOfEvent(es: seq<Event>, e: Event)
    requires e in es
    ensures e.key in EventKeys(es)
  {
  }

  lemma StampedGrows(ss: seq<Sighting>, x: Sighting, e: Event)
    requires Stamped(ss, e)
    ensures Stamped(ss + [x], e)
  {
    var more := ss + [x];
    var i: nat :| i < |ss| && IsEventOf(ss, i, e);
    GrowthKeepsFirst(ss, more, i);
    assert more[..i + 1] == ss[..i + 1];
    assert IsEventOf(more, i, e);
  }

  lemma FreshIsStamped(ss: seq<Sighting>, watermark: int, pass: Pass, e: Event)
    requires InOrder(ss) && e in FirstEverEvents(ss, Fresh(ss, pass.scanned, pass.closed, watermark)).events
    ensures Stamped(ss, e)
  {
    hide InOrder, IsEventOf, FirstEverEvents, Fresh;
    var ps := Fresh(ss, pass.scanned, pass.closed, watermark);
    ProposesExactly(ss, ps);
    var k :| 0 <= k < |ps| && IsEventOf(ss, ps[k], e);
  }

  lemma StampedStep(s: State, step: Step, t: State)
    requires Valid(s) && AllStamped(s) && Feasible(s, step) && t == Next(s, step)
    ensures AllStamped(t)
  {
    hide Stamped, Covered, Sound, PublishedOnce, HandledStored, InOrder, NoGap, Insert, Detected, MilestoneKeys, KeySeq, Then, Scan;
    forall e | e in t.events && Airframe(e.key) ensures Stamped(t.sightings, e) {
      if e in s.events {
        if step.Commit? {
          StampedGrows(s.sightings, step.sighting, e);
        }
      } else {
        var p, pass := s.process.value, s.process.value.pass.value;
        InsertAddsNone(s.events, Detected(s.sightings, p.watermark, pass, step.detected, step.military).events, e);
        DetectedAirframe(s.sightings, p.watermark, pass, step.detected, step.military, e);
        FreshIsStamped(s.sightings, p.watermark, pass, e);
      }
    }
  }

  lemma {:induction false} StampedRun(s: State, steps: seq<Step>)
    requires Valid(s) && AllStamped(s) && Runs(s, steps)
    ensures AllStamped(Run(s, steps))
    decreases |steps|
  {
    hide Valid, Next, Feasible, AllStamped;
    if steps != [] {
      StepKeeps(s, steps[0], Next(s, steps[0]));
      StampedStep(s, steps[0], Next(s, steps[0]));
      StampedRun(Next(s, steps[0]), steps[1..]);
    }
  }

  /** In any run, a stored event about an airframe is the one its first sighting gives rise to,
      and is dated at that sighting's start. */
  lemma EventsTellTheFirst(s: State, steps: seq<Step>, e: Event)
    requires NewInstall(s) && Runs(s, steps) && e in Run(s, steps).events && Airframe(e.key)
    ensures
      var ss := Run(s, steps).sightings;
      exists i: nat :: i < |ss| && FirstHeard(ss, i) && e.tsMs == ss[i].startedMs
        && (|| e.key == FirstEver(ss[i].aircraft)
            || (|Aircraft(ss[..i + 1])| in UNIQUE_AIRCRAFT_THRESHOLDS && e.key == Reached(UniqueAircraft(|Aircraft(ss[..i + 1])|))))
  {
    NewInstallIsValid(s);
    StampedRun(s, steps);
    hide Run, Runs, Valid, Aircraft, FirstHeard;
    assert Stamped(Run(s, steps).sightings, e);
  }

  /** Each key is published at most once in any run, and only when it is stored. */
  lemma PublishedAtMostOnce(s: State, steps: seq<Step>)
    requires NewInstall(s) && Runs(s, steps)
    ensures Distinct(Run(s, steps).published)
    ensures forall k :: k in Run(s, steps).published ==> StoredOnce(Run(s, steps).events, k)
  {
    hide StoredOnce;
    NewInstallIsValid(s);
    RunKeeps(s, steps);
    var t := Run(s, steps);
    forall k | k in t.published ensures StoredOnce(t.events, k) {
      assert k in SetOf(t.published);
      OnceByKeys(t.events, k);
    }
  }

  // ----- What is never published -----

  function CutShort(s: State, step: Step): set<Key>
    requires Feasible(s, step)
  {
    if step.EndPass? && step.progress != Nothing && step.ending != Completed then NewKeys(s, step) else {}
  }

  /** The new keys of every pass of a run that recorded and then did not complete. */
  function AllCutShort(s: State, steps: seq<Step>): set<Key>
    requires Runs(s, steps)
    decreases |steps|
  {
    if steps == [] then {} else CutShort(s, steps[0]) + AllCutShort(Next(s, steps[0]), steps[1..])
  }

  /** The stored events listeners were never handed are exactly those recorded by passes that
      then failed to write the watermark, or were cancelled or killed: a retry finds their keys
      taken, creates nothing and publishes nothing. */
  lemma {:induction false} NeverToldExactly(s: State, steps: seq<Step>)
    requires Valid(s) && Runs(s, steps)
    ensures Untold(Run(s, steps)) == Untold(s) + AllCutShort(s, steps)
    decreases |steps|
  {
    hide Valid, Next, Feasible, Untold, NewKeys;
    if steps != [] {
      var t := Next(s, steps[0]);
      UntoldExactly(s, steps[0], t);
      StepKeeps(s, steps[0], t);
      NeverToldExactly(t, steps[1..]);
    }
  }

  /** A sighting committed on a running feed whose pass records it and then cannot write the
      watermark: the event is stored and no listener is ever told, whatever happens next. */
  lemma AnnouncementLost(s: State, x: Sighting, later: seq<Step>)
    requires Valid(s) && s.process.Some? && s.process.value.pass.None?
    requires s.process.value.watermark == MaxId(s.sightings)
    requires Feasible(s, Commit(x)) && x.aircraft !in Aircraft(s.sightings)
    requires FirstEver(x.aircraft) !in EventKeys(s.events)
    requires
      var cut := [Commit(x), BeginPass(1), EndPass(Recorded, Raised, NO_BATCH, NO_BATCH)];
      Runs(s, cut + later)
    ensures
      var cut := [Commit(x), BeginPass(1), EndPass(Recorded, Raised, NO_BATCH, NO_BATCH)];
      && FirstEver(x.aircraft) in EventKeys(Run(s, cut + later).events)
      && FirstEver(x.aircraft) !in Run(s, cut + later).published
  {
    var end := EndPass(Recorded, Raised, NO_BATCH, NO_BATCH);
    var s1, s2, s3 := FirstThree(s, Commit(x), BeginPass(1), end, later);
    StepKeeps(s, Commit(x), s1);
    StepKeeps(s1, BeginPass(1), s2);
    StepKeeps(s2, end, s3);
    NewAirframeIsNew(s, x, s1, s2, end);
    UntoldExactly(s2, end, s3);
    NeverToldExactly(s3, later);
    hide Valid, Feasible, Next, NewKeys, EventKeys, Run, Runs;
    assert FirstEver(x.aircraft) in Untold(Run(s3, later));
  }

  const EMPTY_INSTALL := State([], [], {}, None, None, None, [], NO_NOTES, {})

  /** The first start of an empty install, its first sighting, and a pass that records and then
      raises. */
  function LosingRun(): seq<Step> {
    [Start(NO_NOTES, {}), Commit(Sighting(1, 1, 0)), BeginPass(1), EndPass(Recorded, Raised, NO_BATCH, NO_BATCH)]
  }

  const STARTED_EMPTY := EMPTY_INSTALL.(stored := Some(0), initial := Some(0), process := Some(Process(0, {}, NO_NOTES, None)))

  lemma EmptyInstallStarts()
    ensures Feasible(EMPTY_INSTALL, Start(NO_NOTES, {})) && Next(EMPTY_INSTALL, Start(NO_NOTES, {})) == STARTED_EMPTY
  {
  }

  /** One more step in front of a run. */
  lemma RunsCons(s: State, step: Step, later: seq<Step>)
    requires Feasible(s, step) && Runs(Next(s, step), later)
    ensures Runs(s, [step] + later)
  {
    hide Feasible, Next;
    assert ([step] + later)[1..] == later;
  }

  lemma LosingRunIsARun()
    ensures Runs(EMPTY_INSTALL, LosingRun())
  {
    var x, end := Sighting(1, 1, 0), EndPass(Recorded, Raised, NO_BATCH, NO_BATCH);
    hide Runs, Next, Feasible;
    EmptyInstallStarts();
    var s2 := FirstCommit(x);
    var s3 := FirstScan(s2, end);
    NothingMore(Next(s3, end));
    assert [end] + [] == [end];
    RunsCons(s3, end, []);
    assert [BeginPass(1)] + [end] == [BeginPass(1), end];
    RunsCons(s2, BeginPass(1), [end]);
    assert [Commit(x)] + [BeginPass(1), end] == [Commit(x), BeginPass(1), end];
    RunsCons(STARTED_EMPTY, Commit(x), [BeginPass(1), end]);
    RunsCons(EMPTY_INSTALL, Start(NO_NOTES, {}), [Commit(x), BeginPass(1), end]);
    assert [Start(NO_NOTES, {})] + [Commit(x), BeginPass(1), end] == LosingRun();
  }

  lemma FirstCommit(x: Sighting) returns (t: State)
    requires x == Sighting(1, 1, 0)
    ensures Feasible(STARTED_EMPTY, Commit(x)) && t == Next(STARTED_EMPTY, Commit(x)) && t == STARTED_EMPTY.(sightings := [x])
  {
    assert STARTED_EMPTY.sightings + [x] == [x];
    t := STARTED_EMPTY.(sightings := [x]);
  }

  lemma FirstScan(s: State, end: Step) returns (t: State)
    requires s.process == STARTED_EMPTY.process && end == EndPass(Recorded, Raised, NO_BATCH, NO_BATCH)
    ensures Feasible(s, BeginPass(1)) && t == Next(s, BeginPass(1)) && Feasible(t, end)
  {
    hide Scan;
    t := Next(s, BeginPass(1));
  }

  lemma NothingMore(s: State)
    ensures Runs(s, [])
  {
  }

  /** And an empty install does get there: its first airframe's event is stored, and no
      continuation publishes it. */
  lemma AnnouncementLostReaches(later: seq<Step>)
    ensures NewInstall(EMPTY_INSTALL) && Runs(EMPTY_INSTALL, LosingRun())
    ensures Runs(EMPTY_INSTALL, LosingRun() + later) ==>
              && FirstEver(1) in EventKeys(Run(EMPTY_INSTALL, LosingRun() + later).events)
              && FirstEver(1) !in Run(EMPTY_INSTALL, LosingRun() + later).published
  {
    hide Run, Runs, Next, Valid;
    LosingRunIsARun();
    EmptyInstallStarts();
    if Runs(EMPTY_INSTALL, LosingRun() + later) {
      var start := Start(NO_NOTES, {});
      NewInstallIsValid(EMPTY_INSTALL);
      StepKeeps(EMPTY_INSTALL, start, STARTED_EMPTY);
      var cut := [Commit(Sighting(1, 1, 0)), BeginPass(1), EndPass(Recorded, Raised, NO_BATCH, NO_BATCH)];
      assert LosingRun() + later == [start] + (cut + later);
      var started := FirstOne(EMPTY_INSTALL, start, cut + later);
      AnnouncementLost(STARTED_EMPTY, Sighting(1, 1, 0), later);
    }
  }

  lemma FirstThree(s: State, a: Step, b: Step, c: Step, later: seq<Step>) returns (s1: State, s2: State, s3: State)
    requires Runs(s, [a, b, c] + later)
    ensures Feasible(s, a) && s1 == Next(s, a) && Feasible(s1, b) && s2 == Next(s1, b) && Feasible(s2, c) && s3 == Next(s2, c)
    ensures Runs(s3, later) && Run(s, [a, b, c] + later) == Run(s3, later)
  {
    assert [a, b, c] + later == [a] + ([b] + ([c] + later));
    s1 := FirstOne(s, a, [b] + ([c] + later));
    s2 := FirstOne(s1, b, [c] + later);
    s3 := FirstOne(s2, c, later);
  }

  lemma FirstOne(s: State, a: Step, later: seq<Step>) returns (t: State)
    requires Runs(s, [a] + later)
    ensures Feasible(s, a) && t == Next(s, a) && Runs(t, later) && Run(s, [a] + later) == Run(t, later)
  {
    hide Feasible, Next;
    assert ([a] + later)[1..] == later;
    t := Next(s, a);
  }

  lemma NewAirframeIsNew(s: State, x: Sighting, s1: State, s2: State, end: Step)
    requires Shape(s) && s.process.Some? && s.process.value.pass.None? && s.process.value.watermark == MaxId(s.sightings)
    requires Feasible(s, Commit(x)) && x.aircraft !in Aircraft(s.sightings) && FirstEver(x.aircraft) !in EventKeys(s.events)
    requires s1 == Next(s, Commit(x)) && Feasible(s1, BeginPass(1)) && s2 == Next(s1, BeginPass(1))
    requires end == EndPass(Recorded, Raised, NO_BATCH, NO_BATCH) && Feasible(s2, end)
    ensures FirstEver(x.aircraft) in NewKeys(s2, end)
  {
    var ss, w := s2.sightings, s2.process.value.watermark;
    var pass := s2.process.value.pass.value;
    assert ss == s.sightings + [x] && w == MaxId(s.sightings) && s2.events == s.events && pass.notes == s.process.value.pending;
    ScansTheNewest(s.sightings, x);
    NewestIsFirst(s.sightings, x, pass.scanned, pass.closed, w);
    OwedIsProposed(ss, w, pass, x.aircraft);
    hide FirstsAt, Fresh, Detected, EventKeys, NoteKeys, Scan, InOrder, NoGap, Aircraft, Feasible, Next;
  }

  lemma OwedIsProposed(ss: seq<Sighting>, w: int, pass: Pass, a: int)
    requires OtherNotes(pass.notes) && a in FirstsAt(ss, Fresh(ss, pass.scanned, pass.closed, w))
    ensures FirstEver(a) in EventKeys(Detected(ss, w, pass, NO_BATCH, NO_BATCH).events)
  {
    DetectedKeys(ss, w, pass, NO_BATCH, NO_BATCH);
    hide FirstsAt, Fresh, Detected, EventKeys, Claimed, NoteKeys, ReachedKeys, MilestoneKeys;
  }

  lemma {:induction false} NothingAbove(ss: seq<Sighting>, w: int)
    requires forall i :: 0 <= i < |ss| ==> ss[i].id <= w
    ensures IdsAbove(ss, w) == []
  {
    if ss != [] {
      NothingAbove(ss[..|ss| - 1], w);
    }
  }

  /** With nothing else above the watermark, even a scan of one finds a new sighting. */
  lemma ScansTheNewest(before: seq<Sighting>, x: Sighting)
    requires InOrder(before + [x]) && x.id > 0
    ensures x.id > MaxId(before) && Scan(before + [x], MaxId(before), 1) == [x.id]
  {
    hide InOrder;
    var ss, n := before + [x], |before|;
    NewestIsTop(before, x);
    assert ss[n] == x && ss[..n] == before;
    NothingAbove(before, MaxId(before));
  }

  lemma NewestIsTop(before: seq<Sighting>, x: Sighting)
    requires InOrder(before + [x]) && x.id > 0
    ensures x.id > MaxId(before) && forall i :: 0 <= i < |before| ==> before[i].id <= MaxId(before)
  {
    hide InOrder, IdsAscend;
    var ss := before + [x];
    OrderAscends(ss);
    TopTwo(ss, |before|);
    assert ss[|before|] == x && forall i :: 0 <= i < |before| ==> ss[i] == before[i];
  }

  lemma OrderAscends(ss: seq<Sighting>)
    requires InOrder(ss)
    ensures IdsAscend(ss)
  {
    hide FirstHeard;
  }

  lemma TopTwo(ss: seq<Sighting>, n: nat)
    requires IdsAscend(ss) && n < |ss|
    ensures forall i :: 0 <= i < n ==> ss[i].id < ss[n].id && ss[i].id <= ss[n - 1].id
  {
    forall i | 0 <= i < n ensures ss[i].id < ss[n].id && ss[i].id <= ss[n - 1].id {
      assert i < n - 1 ==> ss[i].id < ss[n - 1].id;
    }
  }

  /** An airframe met at the last sighting is first heard there, and a scan that names the
      sighting makes it fresh. */
  lemma NewestIsFirst(before: seq<Sighting>, x: Sighting, scanned: seq<int>, closed: set<int>, w: int)
    requires x.aircraft !in Aircraft(before) && x.id in scanned && x.id > w
    ensures x.aircraft in FirstsAt(before + [x], Fresh(before + [x], scanned, closed, w))
  {
    var ss, n := before + [x], |before|;
    assert FirstHeard(ss, n) by {
      assert forall k :: 0 <= k < n ==> ss[k] == before[k] && before[k].aircraft in Aircraft(before);
    }
    FreshSpec(ss, scanned, closed, w, n);
    var ps := Fresh(ss, scanned, closed, w);
    var k :| 0 <= k < |ps| && ps[k] == n;
  }

  // ----- The pending lists -----

  /** Everything reported through the seams and still accounted for: consumed by completed
      passes, then in the pass under way, then pending. */
  function Held(s: State): Notes {
    if s.process.None? then s.handled
    else Then(s.handled, Then(if s.process.value.pass.Some? then s.process.value.pass.value.notes else NO_NOTES, s.process.value.pending))
  }

  /** Steps during which the process lives on and no pass is cancelled. */
  predicate Steady(step: Step) {
    !step.Crash? && !step.Start? && (step.EndPass? ==> step.ending in {Completed, Raised})
  }

  function Submitted(steps: seq<Step>): Notes {
    if steps == [] then NO_NOTES else Then(if steps[0].Submit? then steps[0].notes else NO_NOTES, Submitted(steps[1..]))
  }

  lemma HeldStep(s: State, step: Step, t: State)
    requires Feasible(s, step) && Steady(step) && t == Next(s, step)
    ensures Held(t) == Then(Held(s), if step.Submit? then step.notes else NO_NOTES)
  {
    if step.Commit? {
      ThenAssociates(Held(s), NO_NOTES, NO_NOTES);
    } else {
      var p := s.process.value;
      var inFlight := if p.pass.Some? then p.pass.value.notes else NO_NOTES;
      ThenAssociates(Held(s), NO_NOTES, NO_NOTES);
      ThenAssociates(inFlight, p.pending, NO_NOTES);
      ThenAssociates(p.pending, NO_NOTES, NO_NOTES);
      ThenAssociates(s.handled, inFlight, p.pending);
      if step.Submit? {
        ThenAssociates(s.handled, Then(inFlight, p.pending), step.notes);
        ThenAssociates(inFlight, p.pending, step.notes);
      }
      ThenAssociates(Then(inFlight, p.pending), NO_NOTES, NO_NOTES);
      hide Then, Scan, Detected, Insert, MilestoneKeys, KeySeq;
    }
  }

  /** The closed sightings reported and still accounted for. */
  function HeldClosed(s: State): set<int> {
    if s.process.None? then s.examined
    else s.examined + (if s.process.value.pass.Some? then s.process.value.pass.value.closed else {}) + s.process.value.closed
  }

  function ClosedIn(steps: seq<Step>): set<int> {
    if steps == [] then {} else (if steps[0].Close? then steps[0].ids else {}) + ClosedIn(steps[1..])
  }

  lemma HeldClosedStep(s: State, step: Step, t: State)
    requires Feasible(s, step) && Steady(step) && t == Next(s, step)
    ensures HeldClosed(t) == HeldClosed(s) + if step.Close? then step.ids else {}
  {
    hide Then, Scan, Detected, Insert, MilestoneKeys, KeySeq, InOrder, OtherNotes, OtherBatch;
  }

  /** While the process lives and no pass is cancelled, the pending collections lose nothing.
      The five lists keep their order: what was consumed, then in flight, then pending, is what
      was held before and then what was reported since, in the order it was reported. And the
      closed sightings consumed, in flight and pending are those held before and those reported
      since. */
  lemma {:induction false} ListsLoseNothing(s: State, steps: seq<Step>)
    requires Runs(s, steps) && forall i :: 0 <= i < |steps| ==> Steady(steps[i])
    ensures Held(Run(s, steps)) == Then(Held(s), Submitted(steps))
    ensures HeldClosed(Run(s, steps)) == HeldClosed(s) + ClosedIn(steps)
    decreases |steps|
  {
    if steps == [] {
      ThenAssociates(Held(s), NO_NOTES, NO_NOTES);
    } else {
      var t := Next(s, steps[0]);
      HeldStep(s, steps[0], t);
      HeldClosedStep(s, steps[0], t);
      hide Held, HeldClosed, Then, Next, Feasible;
      ListsLoseNothing(t, steps[1..]);
      ThenAssociates(Held(s), if steps[0].Submit? then steps[0].notes else NO_NOTES, Submitted(steps[1..]));
    }
  }

  /** Cancelling a pass is different from failing it: what the pass had drained is gone. So the
      lists are kept exactly when it had drained no notes, and the closed sightings exactly when
      each one drained had been consumed before or was reported again. */
  lemma CancellingDropsTheDrained(s: State, step: Step, t: State)
    requires Feasible(s, step) && step.EndPass? && step.ending == Cancelled && t == Next(s, step)
    ensures Held(t) == Then(s.handled, s.process.value.pending)
    ensures Held(t) == Held(s) <==> s.process.value.pass.value.notes == NO_NOTES
    ensures HeldClosed(t) == s.examined + s.process.value.closed
    ensures HeldClosed(t) == HeldClosed(s) <==> s.process.value.pass.value.closed <= s.examined + s.process.value.closed
  {
    var n, p := s.process.value.pass.value.notes, s.process.value.pending;
    ThenAssociates(p, NO_NOTES, NO_NOTES);
    assert Held(t) == Then(s.handled, p) && Held(s) == Then(s.handled, Then(n, p));
    if Held(t) == Held(s) {
      var l, r := Held(t), Held(s);
      assert |l.imports| == |r.imports| && |l.health| == |r.health| && |l.alerts| == |r.alerts|;
      assert |l.feeders| == |r.feeders| && |l.selfAlerts| == |r.selfAlerts|;
    }
  }

  // ----- Catching up -----

  /** The newest id is larger than everything scanned before it. */
  lemma NewestIsLargest(ss: seq<Sighting>, w: int, x: int)
    requires ss != [] && IdsAscend(ss) && x in IdsAbove(ss[..|ss| - 1], w)
    ensures x < ss[|ss| - 1].id
  {
    var m := |ss| - 1;
    assert m > 0 ==> ss[m - 1].id < ss[m].id;
    IdsAboveBound(ss[..m], w, x);
  }

  /** What remains above the last id scanned is what the scan left out. */
  lemma {:induction false} IdsAboveRest(ss: seq<Sighting>, w: int, n: nat)
    requires IdsAscend(ss) && 0 < n <= |IdsAbove(ss, w)|
    ensures IdsAbove(ss, IdsAbove(ss, w)[n - 1]) == IdsAbove(ss, w)[n..]
  {
    var m := |ss| - 1;
    var before, x := IdsAbove(ss[..m], w), IdsAbove(ss, w)[n - 1];
    assert IdsAbove(ss, w) == before + if ss[m].id > w then [ss[m].id] else [];
    assert IdsAbove(ss, x) == IdsAbove(ss[..m], x) + if ss[m].id > x then [ss[m].id] else [];
    if n <= |before| {
      assert x == before[n - 1];
      IdsAboveRest(ss[..m], w, n);
      NewestIsLargest(ss, w, x);
      IdsAboveBound(ss[..m], w, x);
    } else {
      assert x == ss[m].id;
      NothingAbove(ss[..m], x);
    }
    hide IdsAbove, IdsAscend;
  }

  /** Completed passes, one after another, each scanning at most `limit` sightings. */
  function Passes(limit: nat, batches: seq<(Batch, Batch)>): seq<Step> {
    if batches == [] then []
    else [BeginPass(limit), EndPass(Marked, Completed, batches[0].0, batches[0].1)] + Passes(limit, batches[1..])
  }

  function Behind(s: State): nat
    requires s.process.Some?
  {
    |IdsAbove(s.sightings, s.process.value.watermark)|
  }

  lemma PassScans(s: State, limit: nat, batch: (Batch, Batch), begun: State, t: State)
    requires s.process.Some? && Feasible(s, BeginPass(limit)) && begun == Next(s, BeginPass(limit))
    requires Feasible(begun, EndPass(Marked, Completed, batch.0, batch.1))
    requires t == Next(begun, EndPass(Marked, Completed, batch.0, batch.1))
    ensures 1 <= limit && t.sightings == s.sightings && t.process.Some? && t.process.value.pass.None?
    ensures t.process.value.watermark == ScannedTo(Scan(s.sightings, s.process.value.watermark, limit), s.process.value.watermark)
  {
    hide Detected, Insert, KeySeq, Then, MilestoneKeys, OtherBatch, OtherNotes, Scan, ScannedTo;
  }

  lemma OnePass(s: State, limit: nat, batch: (Batch, Batch), begun: State, t: State)
    requires Shape(s) && s.process.Some? && Feasible(s, BeginPass(limit)) && begun == Next(s, BeginPass(limit))
    requires Feasible(begun, EndPass(Marked, Completed, batch.0, batch.1))
    requires t == Next(begun, EndPass(Marked, Completed, batch.0, batch.1))
    ensures t.sightings == s.sightings && t.process.Some? && t.process.value.pass.None?
    ensures Behind(t) == if Behind(s) <= limit then 0 else Behind(s) - limit
  {
    hide Next, Feasible;
    PassScans(s, limit, batch, begun, t);
    assert IdsAscend(s.sightings);
    hide Shape;
    ScanLeavesTheRest(s.sightings, s.process.value.watermark, limit);
  }

  lemma ScanLeavesTheRest(ss: seq<Sighting>, w: int, limit: nat)
    requires IdsAscend(ss) && 1 <= limit
    ensures
      var behind := |IdsAbove(ss, w)|;
      |IdsAbove(ss, ScannedTo(Scan(ss, w, limit), w))| == if behind <= limit then 0 else behind - limit
  {
    hide IdsAscend;
    var above := IdsAbove(ss, w);
    if above != [] {
      IdsAboveRest(ss, w, if |above| <= limit then |above| else limit);
    }
  }

  /** What is left of `behind` sightings after so many passes of `limit` each. */
  function Left(behind: nat, passes: nat, limit: nat): nat {
    if behind <= passes * limit then 0 else behind - passes * limit
  }

  lemma OnePassLess(behind: nat, passes: nat, limit: nat)
    ensures Left(Left(behind, 1, limit), passes, limit) == Left(behind, passes + 1, limit)
    ensures Left(behind, 0, limit) == behind
  {
    assert (passes + 1) * limit == passes * limit + limit && 1 * limit == limit && 0 * limit == 0;
  }

  lemma FirstPass(s: State, limit: nat, batches: seq<(Batch, Batch)>) returns (t: State)
    requires Valid(s) && s.process.Some? && batches != [] && Runs(s, Passes(limit, batches))
    ensures Valid(t) && t.sightings == s.sightings && t.process.Some? && t.process.value.pass.None?
    ensures Behind(t) == Left(Behind(s), 1, limit)
    ensures Runs(t, Passes(limit, batches[1..])) && Run(s, Passes(limit, batches)) == Run(t, Passes(limit, batches[1..]))
  {
    hide Next, Feasible, Covered, Sound, PublishedOnce, HandledStored, Shape, Passes, Run, Runs, Behind;
    var begin, end := BeginPass(limit), EndPass(Marked, Completed, batches[0].0, batches[0].1);
    var rest := Passes(limit, batches[1..]);
    OnePassFirst(limit, batches);
    var begun := FirstOne(s, begin, [end] + rest);
    t := FirstOne(begun, end, rest);
    StepKeeps(s, begin, begun);
    StepKeeps(begun, end, t);
    OnePass(s, limit, batches[0], begun, t);
    assert 1 * limit == limit;
  }

  lemma OnePassFirst(limit: nat, batches: seq<(Batch, Batch)>)
    requires batches != []
    ensures Passes(limit, batches) == [BeginPass(limit)] + ([EndPass(Marked, Completed, batches[0].0, batches[0].1)] + Passes(limit, batches[1..]))
  {
  }

  /** Passes that complete while nothing is committed each cover `limit` of the sightings above
      the watermark, or all that are left; and with none left it is the newest sighting's id. */
  lemma {:induction false} PassesCatchUp(s: State, limit: nat, batches: seq<(Batch, Batch)>)
    requires Valid(s) && s.process.Some? && Runs(s, Passes(limit, batches))
    ensures
      var t := Run(s, Passes(limit, batches));
      && Valid(t) && t.process.Some? && t.sightings == s.sightings
      && Behind(t) == Left(Behind(s), |batches|, limit)
      && (Behind(t) == 0 && s.sightings != [] ==> t.process.value.watermark == MaxId(t.sightings))
    decreases |batches|
  {
    hide Valid, Behind, Left, Passes, Run, Runs;
    if batches == [] {
      NoPasses(s, limit, batches);
    } else {
      OnePassLess(Behind(s), |batches| - 1, limit);
      var t := FirstPass(s, limit, batches);
      PassesCatchUp(t, limit, batches[1..]);
    }
  }

  lemma NoPasses(s: State, limit: nat, batches: seq<(Batch, Batch)>)
    requires Valid(s) && s.process.Some? && batches == [] && Runs(s, Passes(limit, batches))
    ensures Run(s, Passes(limit, batches)) == s && Left(Behind(s), 0, limit) == Behind(s)
    ensures Behind(s) == 0 && s.sightings != [] ==> s.process.value.watermark == MaxId(s.sightings)
  {
    hide Shape, Covered, Sound, PublishedOnce, HandledStored, IdsAbove;
    OnePassLess(Behind(s), 0, limit);
    AtTheNewest(s);
  }

  lemma AtTheNewest(s: State)
    requires Shape(s) && s.process.Some?
    ensures Behind(s) == 0 && s.sightings != [] ==> s.process.value.watermark == MaxId(s.sightings)
  {
    assert IdsAscend(s.sightings);
    IdsAboveSpec(s.sightings, s.process.value.watermark);
    hide InOrder, NoGap, DistinctKeys, OtherNotes;
  }
}
