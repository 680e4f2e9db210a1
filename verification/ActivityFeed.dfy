/** The activity feed's exactly-once recording (activity/service.py, producers.py,
    repository.py, model.py).

    A scan over sighting ids, keys derived from values and queues that are put back on
    failure stand in for one big transaction. A pass is two events, so that sightings can
    be committed and notes can arrive while it is under way. */
module Activity {
  import opened Sequences
  import opened Wrappers

  // ----- Keys and events -----

  const UNIQUE_AIRCRAFT_THRESHOLDS: set<int> := {100, 500, 1_000, 2_500, 5_000, 10_000, 25_000, 50_000, 100_000}

  datatype MilestoneKey = UniqueAircraft(threshold: int) | OtherMilestone(name: string)

  /** A dedupe key. Airframes are named by their row, which carries one ICAO address. */
  datatype Key = FirstEver(aircraft: int) | Reached(milestone: MilestoneKey) | OtherKey(text: string)

  datatype Event = Event(key: Key, tsMs: int)

  datatype Batch = Batch(events: seq<Event>, milestones: seq<MilestoneKey>)

  const NO_BATCH := Batch([], [])

  function CrossedThreshold(rank: int): Option<int> {
    if rank in UNIQUE_AIRCRAFT_THRESHOLDS then Some(rank) else None
  }

  // ----- Merging batches -----

  function EventKeys(es: seq<Event>): set<Key> { set e | e in es :: e.key }

  function MilestoneKeys(ms: seq<MilestoneKey>): set<MilestoneKey> { set m | m in ms }

  /** The first event of each key, in order. */
  function FirstOfEach(es: seq<Event>): seq<Event> {
    if es == [] then []
    else
      var before := FirstOfEach(es[..|es| - 1]);
      if es[|es| - 1].key in EventKeys(es[..|es| - 1]) then before else before + [es[|es| - 1]]
  }

  function DistinctOnly(ms: seq<MilestoneKey>): seq<MilestoneKey> {
    if ms == [] then []
    else
      var before := DistinctOnly(ms[..|ms| - 1]);
      if ms[|ms| - 1] in MilestoneKeys(ms[..|ms| - 1]) then before else before + [ms[|ms| - 1]]
  }

  function AllEvents(bs: seq<Batch>): seq<Event> {
    if bs == [] then [] else AllEvents(bs[..|bs| - 1]) + bs[|bs| - 1].events
  }

  function AllMilestones(bs: seq<Batch>): seq<MilestoneKey> {
    if bs == [] then [] else AllMilestones(bs[..|bs| - 1]) + bs[|bs| - 1].milestones
  }

  function Merged(bs: seq<Batch>): Batch { Batch(FirstOfEach(AllEvents(bs)), DistinctOnly(AllMilestones(bs))) }

  predicate DistinctKeys(es: seq<Event>) { DistinctBy(es, (e: Event) => e.key) }

  lemma KeysSnoc(es: seq<Event>, e: Event)
    ensures EventKeys(es + [e]) == EventKeys(es) + {e.key}
  {
    forall k | k in EventKeys(es) + {e.key} ensures k in EventKeys(es + [e]) {
      if k in EventKeys(es) {
        var x :| x in es && x.key == k;
        assert x in es + [e];
      } else {
        assert e in es + [e];
      }
    }
  }

  lemma {:induction false} FirstOfEachSpec(es: seq<Event>)
    ensures EventKeys(FirstOfEach(es)) == EventKeys(es)
    ensures DistinctKeys(FirstOfEach(es))
  {
    if es != [] {
      var n := |es| - 1;
      var e := es[n];
      var before := FirstOfEach(es[..n]);
      FirstOfEachSpec(es[..n]);
      assert es == es[..n] + [e];
      KeysSnoc(es[..n], e);
      KeysSnoc(before, e);
      assert forall i :: 0 <= i < |before| ==> before[i].key in EventKeys(before);
      hide EventKeys;
    }
  }

  /** Position i holds the first event of its key. */
  predicate FirstAt(es: seq<Event>, i: nat)
    requires i < |es|
  {
    es[i].key !in EventKeys(es[..i])
  }

  /** Merging keeps exactly the events that come first under their key. */
  lemma {:induction false} FirstOfEachKeepsFirsts(es: seq<Event>, e: Event)
    ensures e in FirstOfEach(es) <==> exists i :: 0 <= i < |es| && es[i] == e && FirstAt(es, i)
  {
    hide EventKeys;
    if es != [] {
      var n := |es| - 1;
      FirstOfEachKeepsFirsts(es[..n], e);
      forall i | 0 <= i < n ensures FirstAt(es, i) == FirstAt(es[..n], i) {
        assert es[..i] == es[..n][..i];
      }
      assert FirstAt(es, n) <==> es[n].key !in EventKeys(es[..n]);
      if FirstAt(es, n) && es[n] == e {
        assert e in FirstOfEach(es);
      }
      if e in FirstOfEach(es[..n]) {
        var i :| 0 <= i < n && es[..n][i] == e && FirstAt(es[..n], i);
        assert es[i] == e && FirstAt(es, i);
      }
      if i :| 0 <= i < n && es[i] == e && FirstAt(es, i) {
        assert es[..n][i] == e && FirstAt(es[..n], i);
      }
    }
  }

  lemma MilestonesSnoc(ms: seq<MilestoneKey>, m: MilestoneKey)
    ensures MilestoneKeys(ms + [m]) == MilestoneKeys(ms) + {m}
  {
  }

  lemma MilestonesOfAppend(a: seq<MilestoneKey>, b: seq<MilestoneKey>)
    ensures MilestoneKeys(a + b) == MilestoneKeys(a) + MilestoneKeys(b)
  {
  }

  lemma {:induction false} DistinctOnlySpec(ms: seq<MilestoneKey>)
    ensures MilestoneKeys(DistinctOnly(ms)) == MilestoneKeys(ms)
    ensures forall i, j :: 0 <= i < j < |DistinctOnly(ms)| ==> DistinctOnly(ms)[i] != DistinctOnly(ms)[j]
  {
    if ms != [] {
      var n := |ms| - 1;
      DistinctOnlySpec(ms[..n]);
      assert ms == ms[..n] + [ms[n]];
      assert forall m :: m in DistinctOnly(ms[..n]) <==> m in MilestoneKeys(DistinctOnly(ms[..n]));
    }
  }

  /** Merging what was merged already, or merging in two stages, changes nothing. */
  lemma {:induction false} FirstOfEachComposes(a: seq<Event>, b: seq<Event>)
    ensures FirstOfEach(FirstOfEach(a) + b) == FirstOfEach(a + b)
  {
    hide EventKeys, DistinctKeys;
    FirstOfEachSpec(a);
    if b == [] {
      assert a + b == a && FirstOfEach(a) + b == FirstOfEach(a);
      FirstOfEachIdempotent(FirstOfEach(a));
    } else {
      var n := |b| - 1;
      FirstOfEachComposes(a, b[..n]);
      assert (a + b)[..|a + b| - 1] == a + b[..n];
      assert (FirstOfEach(a) + b)[..|FirstOfEach(a) + b| - 1] == FirstOfEach(a) + b[..n];
      KeysOfAppend(a, b[..n]);
      KeysOfAppend(FirstOfEach(a), b[..n]);
    }
  }

  lemma {:induction false} FirstOfEachIdempotent(es: seq<Event>)
    requires DistinctKeys(es)
    ensures FirstOfEach(es) == es
  {
    if es != [] {
      var n := |es| - 1;
      FirstOfEachIdempotent(es[..n]);
      assert es == es[..n] + [es[n]];
      forall e | e in es[..n] ensures e.key != es[n].key {
        var i :| 0 <= i < n && es[..n][i] == e;
        assert es[i].key != es[n].key;
      }
    }
  }

  lemma KeysOfAppend(a: seq<Event>, b: seq<Event>)
    ensures EventKeys(a + b) == EventKeys(a) + EventKeys(b)
  {
  }

  /** One batch's inner loop over its events: what was merged so far is `past`. */
  method MergeEvents(ghost past: seq<Event>, more: seq<Event>, kept: seq<Event>, seen: set<Key>)
    returns (events: seq<Event>, keys: set<Key>)
    requires kept == FirstOfEach(past) && seen == EventKeys(past)
    ensures events == FirstOfEach(past + more) && keys == EventKeys(past + more)
  {
    hide EventKeys;
    events, keys := kept, seen;
    assert past + more[..0] == past;
    for k := 0 to |more|
      invariant events == FirstOfEach(past + more[..k]) && keys == EventKeys(past + more[..k])
    {
      var e := more[k];
      ghost var so := past + more[..k];
      assert past + more[..k + 1] == so + [e] && (so + [e])[..|so|] == so;
      KeysSnoc(so, e);
      assert FirstOfEach(so + [e]) == if e.key in EventKeys(so) then FirstOfEach(so) else FirstOfEach(so) + [e];
      if e.key !in keys {
        keys := keys + {e.key};
        events := events + [e];
      } else {
        assert keys + {e.key} == keys;
      }
    }
    assert more[..|more|] == more;
  }

  method MergeMilestones(ghost past: seq<MilestoneKey>, more: seq<MilestoneKey>, kept: seq<MilestoneKey>, seen: set<MilestoneKey>)
    returns (milestones: seq<MilestoneKey>, keys: set<MilestoneKey>)
    requires kept == DistinctOnly(past) && seen == MilestoneKeys(past)
    ensures milestones == DistinctOnly(past + more) && keys == MilestoneKeys(past + more)
  {
    hide MilestoneKeys;
    milestones, keys := kept, seen;
    assert past + more[..0] == past;
    for k := 0 to |more|
      invariant milestones == DistinctOnly(past + more[..k]) && keys == MilestoneKeys(past + more[..k])
    {
      var m := more[k];
      ghost var so := past + more[..k];
      assert past + more[..k + 1] == so + [m] && (so + [m])[..|so|] == so;
      MilestonesSnoc(so, m);
      if m !in keys {
        keys := keys + {m};
        milestones := milestones + [m];
      } else {
        assert keys + {m} == keys;
      }
    }
    assert more[..|more|] == more;
  }

  /** merge: two lists and two sets of keys seen, over every batch in order. */
  method Merge(bs: seq<Batch>) returns (r: Batch)
    ensures r == Merged(bs)
  {
    var events: seq<Event>, milestones: seq<MilestoneKey> := [], [];
    var seenEvents: set<Key>, seenMilestones: set<MilestoneKey> := {}, {};
    assert FirstOfEach([]) == [] && EventKeys([]) == {} && DistinctOnly([]) == [] && MilestoneKeys([]) == {};
    hide EventKeys, MilestoneKeys, FirstOfEach, DistinctOnly;
    for n := 0 to |bs|
      invariant events == FirstOfEach(AllEvents(bs[..n])) && seenEvents == EventKeys(AllEvents(bs[..n]))
      invariant milestones == DistinctOnly(AllMilestones(bs[..n])) && seenMilestones == MilestoneKeys(AllMilestones(bs[..n]))
    {
      assert bs[..n + 1][..n] == bs[..n];
      events, seenEvents := MergeEvents(AllEvents(bs[..n]), bs[n].events, events, seenEvents);
      milestones, seenMilestones := MergeMilestones(AllMilestones(bs[..n]), bs[n].milestones, milestones, seenMilestones);
    }
    assert bs[..|bs|] == bs;
    return Batch(events, milestones);
  }

  // ----- Sightings -----

  datatype Sighting = Sighting(id: int, aircraft: int, startedMs: int)

  /** Ids are assigned in commit order, and an airframe's row is created with its first
      sighting, so airframe ids are in first-heard order too. */
  predicate InOrder(ss: seq<Sighting>) {
    && (forall i, j :: 0 <= i < j < |ss| ==> ss[i].id < ss[j].id)
    && (forall i, j :: 0 <= i < j < |ss| && FirstHeard(ss, j) ==> ss[i].aircraft < ss[j].aircraft)
  }

  /** Sighting i is its airframe's first. */
  predicate FirstHeard(ss: seq<Sighting>, i: nat)
    requires i < |ss|
  {
    forall k :: 0 <= k < i ==> ss[k].aircraft != ss[i].aircraft
  }

  function Aircraft(ss: seq<Sighting>): set<int> { set i | 0 <= i < |ss| :: ss[i].aircraft }

  /** An airframe is heard first where none of the sightings before is of it. */
  lemma FirstHeardMeans(ss: seq<Sighting>, i: nat)
    requires i < |ss|
    ensures FirstHeard(ss, i) <==> ss[i].aircraft !in Aircraft(ss[..i])
  {
    assert forall k :: 0 <= k < i ==> ss[..i][k] == ss[k];
  }

  /** The airframe's 1-based place among all airframes ever heard, by row id. */
  function Rank(ss: seq<Sighting>, aircraft: int): nat { |set a | a in Aircraft(ss) && a <= aircraft| }

  /** sighting_ids_after: up to `limit` ids above the watermark, in id order. */
  function Scan(ss: seq<Sighting>, watermark: int, limit: nat): seq<int> {
    var above := IdsAbove(ss, watermark);
    if |above| <= limit then above else above[..limit]
  }

  function IdsAbove(ss: seq<Sighting>, watermark: int): seq<int> {
    if ss == [] then []
    else
      var n := |ss| - 1;
      IdsAbove(ss[..n], watermark) + if ss[n].id > watermark then [ss[n].id] else []
  }

  /** first_ever_events over positions of the sightings table. */
  function FirstEverEvents(ss: seq<Sighting>, ps: seq<nat>): Batch
    requires forall k :: 0 <= k < |ps| ==> ps[k] < |ss|
  {
    if ps == [] then NO_BATCH
    else
      var n := |ps| - 1;
      var before := FirstEverEvents(ss, ps[..n]);
      var i := ps[n];
      if !FirstHeard(ss, i) then before
      else
        var s := ss[i];
        var first := before.events + [Event(FirstEver(s.aircraft), s.startedMs)];
        var crossed := CrossedThreshold(Rank(ss, s.aircraft));
        if crossed.None? then Batch(first, before.milestones)
        else
          var m := UniqueAircraft(crossed.value);
          Batch(first + [Event(Reached(m), s.startedMs)], before.milestones + [m])
  }

  /** The producer's own loop, one observation after another. */
  method ProduceFirstEver(ss: seq<Sighting>, ps: seq<nat>) returns (b: Batch)
    requires forall k :: 0 <= k < |ps| ==> ps[k] < |ss|
    ensures b == FirstEverEvents(ss, ps)
  {
    hide FirstHeard, Rank;
    var events: seq<Event>, milestones: seq<MilestoneKey> := [], [];
    for n := 0 to |ps|
      invariant Batch(events, milestones) == FirstEverEvents(ss, ps[..n])
    {
      assert ps[..n + 1][..n] == ps[..n];
      var s := ss[ps[n]];
      if FirstHeard(ss, ps[n]) {
        events := events + [Event(FirstEver(s.aircraft), s.startedMs)];
        var threshold := CrossedThreshold(Rank(ss, s.aircraft));
        if threshold.Some? {
          milestones := milestones + [UniqueAircraft(threshold.value)];
          events := events + [Event(Reached(UniqueAircraft(threshold.value)), s.startedMs)];
        }
      }
    }
    assert ps[..|ps|] == ps;
    return Batch(events, milestones);
  }

  /** Airframes whose first sighting is at one of the positions. */
  function FirstsAt(ss: seq<Sighting>, ps: seq<nat>): set<int>
    requires forall k :: 0 <= k < |ps| ==> ps[k] < |ss|
  {
    set k | 0 <= k < |ps| && FirstHeard(ss, ps[k]) :: ss[ps[k]].aircraft
  }

  /** The milestones that airframes in a set claim by their ranks. */
  function Claimed(ss: seq<Sighting>, firsts: set<int>): set<MilestoneKey> {
    set a | a in firsts && Rank(ss, a) in UNIQUE_AIRCRAFT_THRESHOLDS :: UniqueAircraft(Rank(ss, a))
  }

  function FirstEverKeys(firsts: set<int>): set<Key> { set a | a in firsts :: FirstEver(a) }

  function ReachedKeys(ms: set<MilestoneKey>): set<Key> { set m | m in ms :: Reached(m) }

  lemma FirstsSnoc(ss: seq<Sighting>, ps: seq<nat>)
    requires ps != [] && forall k :: 0 <= k < |ps| ==> ps[k] < |ss|
    ensures
      var n := |ps| - 1;
      FirstsAt(ss, ps) == FirstsAt(ss, ps[..n]) + if FirstHeard(ss, ps[n]) then {ss[ps[n]].aircraft} else {}
  {
    hide FirstHeard;
    var n := |ps| - 1;
    forall a | a in FirstsAt(ss, ps) ensures a in FirstsAt(ss, ps[..n]) || (FirstHeard(ss, ps[n]) && a == ss[ps[n]].aircraft) {
      var k :| 0 <= k < |ps| && FirstHeard(ss, ps[k]) && ss[ps[k]].aircraft == a;
      assert k < n ==> ps[..n][k] == ps[k];
    }
    forall a | a in FirstsAt(ss, ps[..n]) ensures a in FirstsAt(ss, ps) {
      var k :| 0 <= k < n && FirstHeard(ss, ps[..n][k]) && ss[ps[..n][k]].aircraft == a;
      assert ps[k] == ps[..n][k];
    }
  }

  /** What first_ever_events proposes, as sets: one event for each airframe heard for the
      first time, and the milestone of each whose rank is a threshold, claimed and announced. */
  lemma {:induction false} FirstEverSpec(ss: seq<Sighting>, ps: seq<nat>)
    requires forall k :: 0 <= k < |ps| ==> ps[k] < |ss|
    ensures
      var b, firsts := FirstEverEvents(ss, ps), FirstsAt(ss, ps);
      && MilestoneKeys(b.milestones) == Claimed(ss, firsts)
      && EventKeys(b.events) == FirstEverKeys(firsts) + ReachedKeys(Claimed(ss, firsts))
  {
    hide FirstHeard, Rank, FirstsAt;
    if ps == [] {
      EmptyFirsts(ss);
    } else {
      var n := |ps| - 1;
      FirstEverSpec(ss, ps[..n]);
      FirstsSnoc(ss, ps);
      var before := FirstEverEvents(ss, ps[..n]);
      var firsts, s := FirstsAt(ss, ps[..n]), ss[ps[n]];
      if FirstHeard(ss, ps[n]) {
        var e := Event(FirstEver(s.aircraft), s.startedMs);
        KeysSnoc(before.events, e);
        ClaimedSnoc(ss, firsts, s.aircraft);
        if Rank(ss, s.aircraft) in UNIQUE_AIRCRAFT_THRESHOLDS {
          var m := UniqueAircraft(Rank(ss, s.aircraft));
          KeysSnoc(before.events + [e], Event(Reached(m), s.startedMs));
          assert MilestoneKeys(before.milestones + [m]) == MilestoneKeys(before.milestones) + {m};
        }
        hide EventKeys, Claimed, FirstEverKeys, ReachedKeys, MilestoneKeys;
      }
    }
  }

  lemma EmptyFirsts(ss: seq<Sighting>)
    ensures FirstsAt(ss, []) == {} && Claimed(ss, {}) == {}
  {
  }

  lemma ClaimedSnoc(ss: seq<Sighting>, firsts: set<int>, a: int)
    ensures FirstEverKeys(firsts + {a}) == FirstEverKeys(firsts) + {FirstEver(a)}
    ensures
      var claim := if Rank(ss, a) in UNIQUE_AIRCRAFT_THRESHOLDS then {UniqueAircraft(Rank(ss, a))} else {};
      && Claimed(ss, firsts + {a}) == Claimed(ss, firsts) + claim
      && ReachedKeys(Claimed(ss, firsts + {a})) == ReachedKeys(Claimed(ss, firsts)) + ReachedKeys(claim)
    ensures ReachedKeys({UniqueAircraft(Rank(ss, a))}) == {Reached(UniqueAircraft(Rank(ss, a)))}
  {
    hide Rank;
  }

  predicate IdsAscend(ss: seq<Sighting>) { forall i, j :: 0 <= i < j < |ss| ==> ss[i].id < ss[j].id }

  lemma {:induction false} IdsAboveBound(ss: seq<Sighting>, watermark: int, x: int)
    requires IdsAscend(ss) && x in IdsAbove(ss, watermark)
    ensures watermark < x <= MaxId(ss)
  {
    var n := |ss| - 1;
    if x in IdsAbove(ss[..n], watermark) {
      IdsAboveBound(ss[..n], watermark, x);
      assert n > 0 ==> ss[n - 1].id < ss[n].id;
    }
  }

  lemma {:induction false} IdsAboveSpec(ss: seq<Sighting>, watermark: int)
    requires IdsAscend(ss)
    ensures forall i :: 0 <= i < |ss| ==> (ss[i].id in IdsAbove(ss, watermark) <==> ss[i].id > watermark)
    ensures Ascending(IdsAbove(ss, watermark))
  {
    if ss != [] {
      var n := |ss| - 1;
      var before := IdsAbove(ss[..n], watermark);
      IdsAboveSpec(ss[..n], watermark);
      forall i | 0 <= i <= n ensures ss[i].id in IdsAbove(ss, watermark) <==> ss[i].id > watermark {
        assert i < n ==> ss[..n][i] == ss[i] && ss[i].id < ss[n].id;
        if ss[n].id in before {
          IdsAboveBound(ss[..n], watermark, ss[n].id);
        }
      }
      forall k | 0 <= k < |before| ensures before[k] < ss[n].id {
        IdsAboveBound(ss[..n], watermark, before[k]);
        assert n == 0 ==> before == [];
        assert n > 0 ==> ss[n - 1].id < ss[n].id;
      }
    }
  }

  function MaxId(ss: seq<Sighting>): int { if ss == [] then 0 else ss[|ss| - 1].id }

  /** The watermark after a scan: the largest id scanned. */
  function ScannedTo(scanned: seq<int>, watermark: int): int {
    if scanned == [] then watermark else scanned[|scanned| - 1]
  }

  /** Cutting an ascending list keeps exactly its members up to the last one kept. */
  lemma CutAscending(ids: seq<int>, n: nat, x: int)
    requires Ascending(ids) && 0 < n <= |ids|
    ensures x in ids[..n] <==> x in ids && x <= ids[n - 1]
  {
    assert forall k :: n <= k < |ids| ==> ids[n - 1] < ids[k];
    if x in ids && x <= ids[n - 1] {
      var k :| 0 <= k < |ids| && ids[k] == x;
      assert ids[..n][k] == x;
    }
    if x in ids[..n] {
      var k :| 0 <= k < n && ids[..n][k] == x;
      assert ids[k] == x && (k < n - 1 ==> ids[k] < ids[n - 1]);
    }
  }

  /** What a scan promises: the ids it names are exactly those of the sightings above the old
      watermark and up to the new one. */
  predicate NoGap(ss: seq<Sighting>, scanned: seq<int>, watermark: int) {
    && watermark <= ScannedTo(scanned, watermark)
    && (scanned != [] ==> ScannedTo(scanned, watermark) <= MaxId(ss))
    && (forall i :: 0 <= i < |ss| ==> (ss[i].id in scanned <==> watermark < ss[i].id <= ScannedTo(scanned, watermark)))
    && (forall x :: x in scanned ==> watermark < x <= ScannedTo(scanned, watermark))
  }

  lemma ScanLeavesNoGap(ss: seq<Sighting>, watermark: int, limit: nat)
    requires InOrder(ss) && 1 <= limit
    ensures NoGap(ss, Scan(ss, watermark, limit), watermark)
    ensures Scan(ss, watermark, limit) == [] ==> forall i :: 0 <= i < |ss| ==> ss[i].id <= watermark
  {
    assert IdsAscend(ss);
    hide InOrder;
    IdsAboveSpec(ss, watermark);
    forall x | x in IdsAbove(ss, watermark) ensures watermark < x <= MaxId(ss) {
      IdsAboveBound(ss, watermark, x);
    }
    var above, scanned := IdsAbove(ss, watermark), Scan(ss, watermark, limit);
    hide IdsAbove;
    if scanned != [] {
      var n := |scanned|;
      assert scanned == above[..n] && above[n - 1] in above;
      forall x: int ensures x in scanned <==> x in above && x <= above[n - 1] {
        CutAscending(above, n, x);
      }
    }
  }

  /** A sighting committed while a pass is under way is past everything it scanned. */
  lemma GrowthKeepsNoGap(ss: seq<Sighting>, x: Sighting, scanned: seq<int>, watermark: int)
    requires InOrder(ss + [x]) && x.id > 0 && watermark <= MaxId(ss) && NoGap(ss, scanned, watermark)
    ensures NoGap(ss + [x], scanned, watermark)
  {
    var more := ss + [x];
    assert ss != [] ==> more[|ss| - 1].id < more[|ss|].id;
    assert MaxId(ss) < x.id == MaxId(more);
    assert x.id !in scanned;
  }

  // ----- Later sightings change no answer -----

  lemma GrowthKeepsFirst(ss: seq<Sighting>, more: seq<Sighting>, i: nat)
    requires ss <= more && i < |ss|
    ensures FirstHeard(more, i) <==> FirstHeard(ss, i)
  {
  }

  /** Ranks never move: the equality test of crossed_threshold sees each rank's airframe with
      the rank it keeps. */
  lemma GrowthKeepsRank(ss: seq<Sighting>, more: seq<Sighting>, i: nat)
    requires ss <= more && i < |ss| && InOrder(more)
    ensures Rank(more, ss[i].aircraft) == Rank(ss, ss[i].aircraft)
  {
    var a := ss[i].aircraft;
    forall k | 0 <= k < |more| && more[k].aircraft <= a ensures more[k].aircraft in Aircraft(ss) {
      var first := FirstOccurrence(more, k);
      FirstsAscend(more, i, first);
      assert ss[first].aircraft == more[k].aircraft;
    }
    assert forall k :: 0 <= k < |ss| ==> more[k] == ss[k];
    assert (set x | x in Aircraft(more) && x <= a) == (set x | x in Aircraft(ss) && x <= a);
  }

  lemma FirstsAscend(ss: seq<Sighting>, i: nat, j: nat)
    requires InOrder(ss) && i < |ss| && j < |ss| && FirstHeard(ss, j) && ss[j].aircraft <= ss[i].aircraft
    ensures j <= i
  {
  }

  lemma FirstOccurrence(ss: seq<Sighting>, k: nat) returns (i: nat)
    requires k < |ss|
    ensures i <= k && ss[i].aircraft == ss[k].aircraft && FirstHeard(ss, i)
    decreases k
  {
    if FirstHeard(ss, k) {
      i := k;
    } else {
      var j :| 0 <= j < k && ss[j].aircraft == ss[k].aircraft;
      i := FirstOccurrence(ss, j);
    }
  }

  /** How many airframes had been heard when sighting i was. */
  function Place(ss: seq<Sighting>, i: nat): nat
    requires i < |ss|
  {
    |Aircraft(ss[..i + 1])|
  }

  /** An airframe's rank is its place in the order of first hearing. */
  lemma RankIsPlace(ss: seq<Sighting>, i: nat)
    requires InOrder(ss) && i < |ss| && FirstHeard(ss, i)
    ensures Rank(ss, ss[i].aircraft) == Place(ss, i)
  {
    var a, heard := ss[i].aircraft, Aircraft(ss[..i + 1]);
    forall k | 0 <= k < |ss| && ss[k].aircraft <= a ensures ss[k].aircraft in heard {
      var first := FirstOccurrence(ss, k);
      FirstsAscend(ss, i, first);
      assert ss[..i + 1][first] == ss[first];
    }
    assert forall k :: 0 <= k <= i ==> ss[..i + 1][k] == ss[k];
    assert (set x | x in Aircraft(ss) && x <= a) == heard;
  }

  /** The events a first sighting gives rise to: the airframe's, and the milestone's if its place
      is a threshold; both at the sighting's start. */
  predicate IsEventOf(ss: seq<Sighting>, i: nat, e: Event)
    requires i < |ss|
  {
    && FirstHeard(ss, i) && e.tsMs == ss[i].startedMs
    && (|| e.key == FirstEver(ss[i].aircraft)
        || (Place(ss, i) in UNIQUE_AIRCRAFT_THRESHOLDS && e.key == Reached(UniqueAircraft(Place(ss, i)))))
  }

  /** The milestone of a first sighting whose place is a threshold. */
  predicate IsMilestoneOf(ss: seq<Sighting>, i: nat, m: MilestoneKey)
    requires i < |ss|
  {
    FirstHeard(ss, i) && Place(ss, i) in UNIQUE_AIRCRAFT_THRESHOLDS && m == UniqueAircraft(Place(ss, i))
  }

  predicate Proposes(ss: seq<Sighting>, ps: seq<nat>, e: Event)
    requires forall k :: 0 <= k < |ps| ==> ps[k] < |ss|
  {
    exists k :: 0 <= k < |ps| && IsEventOf(ss, ps[k], e)
  }

  predicate Claims(ss: seq<Sighting>, ps: seq<nat>, m: MilestoneKey)
    requires forall k :: 0 <= k < |ps| ==> ps[k] < |ss|
  {
    exists k :: 0 <= k < |ps| && IsMilestoneOf(ss, ps[k], m)
  }

  lemma ProposesSnoc(ss: seq<Sighting>, ps: seq<nat>)
    requires ps != [] && forall k :: 0 <= k < |ps| ==> ps[k] < |ss|
    ensures
      var n := |ps| - 1;
      && (forall e :: Proposes(ss, ps, e) <==> Proposes(ss, ps[..n], e) || IsEventOf(ss, ps[n], e))
      && (forall m :: Claims(ss, ps, m) <==> Claims(ss, ps[..n], m) || IsMilestoneOf(ss, ps[n], m))
  {
    hide IsEventOf, IsMilestoneOf;
    var n := |ps| - 1;
    assert forall k :: 0 <= k < n ==> ps[..n][k] == ps[k];
    forall e | Proposes(ss, ps[..n], e) ensures Proposes(ss, ps, e) {
      var k :| 0 <= k < n && IsEventOf(ss, ps[..n][k], e);
      assert IsEventOf(ss, ps[k], e);
    }
    forall m | Claims(ss, ps[..n], m) ensures Claims(ss, ps, m) {
      var k :| 0 <= k < n && IsMilestoneOf(ss, ps[..n][k], m);
      assert IsMilestoneOf(ss, ps[k], m);
    }
  }

  /** The producer proposes exactly those, and claims exactly those milestones. */
  lemma {:induction false} ProposesExactly(ss: seq<Sighting>, ps: seq<nat>)
    requires InOrder(ss) && forall k :: 0 <= k < |ps| ==> ps[k] < |ss|
    ensures
      var b := FirstEverEvents(ss, ps);
      && (forall e :: e in b.events <==> Proposes(ss, ps, e))
      && (forall m :: m in b.milestones <==> Claims(ss, ps, m))
  {
    if ps != [] {
      ProposesSnoc(ss, ps);
      hide FirstHeard, Rank, InOrder, Place, Proposes, Claims;
      var n := |ps| - 1;
      ProposesExactly(ss, ps[..n]);
      if FirstHeard(ss, ps[n]) {
        RankIsPlace(ss, ps[n]);
      }
    }
  }
}
