/** Receiver-local days and the daily fold (analytics/bucketing.py, analytics/rollup.py). */
module Days {
  import opened Sequences
  import opened Wrappers

  const MAX_WINDOW_DAYS: nat := 3660

  /** A receiver's zone, as the analytics code uses it: local midnights, the local date of
      an instant and the local hour of an instant. Dates are numbered consecutively. */
  datatype Zone = Zone(dayStart: int -> int, localDay: int -> int, localHour: int -> int) {
    ghost predicate Valid() {
      && (forall d, e :: d < e ==> dayStart(d) < dayStart(e))
      && (forall ts :: dayStart(localDay(ts)) <= ts < dayStart(localDay(ts) + 1))
      && (forall ts :: 0 <= localHour(ts) < 24)
    }
  }

  /** An instant is on a day exactly when it lies between that day's bounds. */
  lemma OnDay(z: Zone, ts: int, d: int)
    requires z.Valid()
    ensures z.localDay(ts) == d <==> z.dayStart(d) <= ts < z.dayStart(d + 1)
  {
    var e := z.localDay(ts);
    if d < e {
      assert d + 1 == e || z.dayStart(d + 1) < z.dayStart(e);
    } else if e < d {
      assert e + 1 == d || z.dayStart(e + 1) < z.dayStart(d);
    }
  }

  lemma LocalDayMonotone(z: Zone, t: int, u: int)
    requires z.Valid() && t <= u
    ensures z.localDay(t) <= z.localDay(u)
  {
    var d, e := z.localDay(t), z.localDay(u);
    assert e + 1 < d ==> z.dayStart(e + 1) < z.dayStart(d);
  }

  /** A day is over at an instant exactly when the instant's own day is later. */
  lemma ClosedWhenLater(z: Zone, d: int, now: int)
    requires z.Valid()
    ensures z.dayStart(d + 1) <= now <==> d < z.localDay(now)
  {
    OnDay(z, now, z.localDay(now));
    var e := z.localDay(now);
    assert d + 1 < e ==> z.dayStart(d + 1) < z.dayStart(e);
    assert e < d ==> z.dayStart(e + 1) < z.dayStart(d + 1);
  }

  function DaysInRange(first: int, last: int): (days: seq<int>)
    ensures |days| == if first <= last then last - first + 1 else 0
    ensures forall i :: 0 <= i < |days| ==> days[i] == first + i
  {
    if last < first then [] else seq(last - first + 1, i => first + i)
  }

  function Members(days: seq<int>): set<int> { set i | 0 <= i < |days| :: days[i] }

  lemma RangeMembers(first: int, last: int)
    ensures forall d :: d in Members(DaysInRange(first, last)) <==> first <= d <= last
    ensures Ascending(DaysInRange(first, last))
  {
    forall d | first <= d <= last ensures d in Members(DaysInRange(first, last)) {
      assert DaysInRange(first, last)[d - first] == d;
    }
  }

  /** days_in_range: the source refuses to enumerate a span longer than its limit. */
  function EnumeratedDays(first: int, last: int): Option<seq<int>> {
    if last - first >= MAX_WINDOW_DAYS then None else Some(DaysInRange(first, last))
  }

  /** The days from first to last are enumerated exactly when they are few enough, then each of
      them and no other, once, in order; and the bounds of consecutive ones tile the instants
      from the first midnight to the last. */
  lemma EnumeratedDaysTile(z: Zone, first: int, last: int)
    requires z.Valid()
    ensures EnumeratedDays(first, last).None? <==> last - first + 1 > MAX_WINDOW_DAYS
    ensures EnumeratedDays(first, last).Some? ==>
              var days := EnumeratedDays(first, last).value;
              && Ascending(days) && (forall d :: d in Members(days) <==> first <= d <= last)
              && (forall ts :: z.localDay(ts) in Members(days) <==> first <= last && z.dayStart(first) <= ts < z.dayStart(last + 1))
  {
    RangeMembers(first, last);
    hide Members, DaysInRange;
    forall ts ensures first <= z.localDay(ts) <= last <==> first <= last && z.dayStart(first) <= ts < z.dayStart(last + 1) {
      ClosedWhenLater(z, last, ts);
      ClosedWhenLater(z, first - 1, ts);
    }
  }
}

module Rollup {
  import opened Days
  import opened Wrappers

  const HOURS_PER_DAY: nat := 24

  datatype SightingFact = SightingFact(
    sightingId: int, aircraftId: int, startedMs: int, firstSeenMs: int, maxRangeNm: Option<real>,
    interesting: bool, military: bool, government: bool, lawEnforcement: bool,
    typeCode: Option<string>, operatorGroupId: Option<int>)

  datatype GroupCount = GroupCount(sightings: nat, uniqueAircraft: nat)

  datatype DayRollup = DayRollup(
    day: int, uniqueAircraft: nat, newAircraft: nat, sightings: nat,
    interesting: nat, military: nat, government: nat, lawEnforcement: nat,
    maxRangeNm: Option<real>, busiestHour: Option<nat>,
    types: map<string, GroupCount>, operators: map<int, GroupCount>)

  // ----- The declarative row -----

  function Count(facts: seq<SightingFact>, f: SightingFact -> bool): nat {
    if facts == [] then 0 else Count(facts[..|facts| - 1], f) + if f(facts[|facts| - 1]) then 1 else 0
  }

  function Airframes(facts: seq<SightingFact>, f: SightingFact -> bool): set<int> {
    set i | 0 <= i < |facts| && f(facts[i]) :: facts[i].aircraftId
  }

  function All(): SightingFact -> bool { (f: SightingFact) => true }

  function Interesting(): SightingFact -> bool { (f: SightingFact) => f.interesting }

  function Military(): SightingFact -> bool { (f: SightingFact) => f.military }

  function Government(): SightingFact -> bool { (f: SightingFact) => f.government }

  function LawEnforcement(): SightingFact -> bool { (f: SightingFact) => f.lawEnforcement }

  predicate SameDay(z: Zone, f: SightingFact, day: int) {
    f.firstSeenMs == f.startedMs || z.localDay(f.firstSeenMs) == day
  }

  function NewOn(z: Zone, day: int): SightingFact -> bool { (f: SightingFact) => SameDay(z, f, day) }

  function Carrying<K(==)>(key: SightingFact -> Option<K>, k: K): SightingFact -> bool {
    (f: SightingFact) => key(f) == Some(k)
  }

  function InHour(z: Zone, h: int): SightingFact -> bool { (f: SightingFact) => z.localHour(f.startedMs) == h }

  function TypeCode(): SightingFact -> Option<string> { (f: SightingFact) => f.typeCode }

  function OperatorGroup(): SightingFact -> Option<int> { (f: SightingFact) => f.operatorGroupId }

  function KeysOf<K>(facts: seq<SightingFact>, key: SightingFact -> Option<K>): set<K> {
    set i | 0 <= i < |facts| && key(facts[i]).Some? :: key(facts[i]).value
  }

  /** One count per key that some sighting carries. */
  function Groups<K>(facts: seq<SightingFact>, key: SightingFact -> Option<K>): map<K, GroupCount> {
    map k | k in KeysOf(facts, key) :: GroupCount(Count(facts, Carrying(key, k)), |Airframes(facts, Carrying(key, k))|)
  }

  /** The farthest detection: present exactly when some sighting has one, and then attained. */
  ghost predicate IsMaxRange(facts: seq<SightingFact>, r: Option<real>) {
    && (r.None? ==> forall i :: 0 <= i < |facts| ==> facts[i].maxRangeNm.None?)
    && (r.Some? ==>
          && (exists i :: 0 <= i < |facts| && facts[i].maxRangeNm == r)
          && (forall i :: 0 <= i < |facts| && facts[i].maxRangeNm.Some? ==> facts[i].maxRangeNm.value <= r.value))
  }

  /** No hour has more starts, and no earlier hour as many. */
  ghost predicate IsBusiestHour(z: Zone, facts: seq<SightingFact>, r: Option<nat>) {
    match r
    case None => facts == []
    case Some(h) =>
      && facts != [] && h < HOURS_PER_DAY
      && (forall k :: 0 <= k < HOURS_PER_DAY ==> Count(facts, InHour(z, k)) <= Count(facts, InHour(z, h)))
      && (forall k :: 0 <= k < h ==> Count(facts, InHour(z, k)) < Count(facts, InHour(z, h)))
  }

  /** Everything the stored row must say about a day's sightings. */
  ghost predicate IsFold(z: Zone, day: int, facts: seq<SightingFact>, closed: bool, r: DayRollup) {
    && r.day == day
    && r.uniqueAircraft == |Airframes(facts, All())|
    && r.newAircraft == |Airframes(facts, NewOn(z, day))|
    && r.sightings == |facts|
    && r.interesting == Count(facts, Interesting())
    && r.military == Count(facts, Military())
    && r.government == Count(facts, Government())
    && r.lawEnforcement == Count(facts, LawEnforcement())
    && IsMaxRange(facts, r.maxRangeNm)
    && (if closed then IsBusiestHour(z, facts, r.busiestHour) else r.busiestHour == None)
    && r.types == Groups(facts, TypeCode())
    && r.operators == Groups(facts, OperatorGroup())
  }

  // ----- The fold's loops -----

  lemma Snoc(facts: seq<SightingFact>, n: nat, f: SightingFact -> bool)
    requires n < |facts|
    ensures Count(facts[..n + 1], f) == Count(facts[..n], f) + if f(facts[n]) then 1 else 0
    ensures Airframes(facts[..n + 1], f) == Airframes(facts[..n], f) + if f(facts[n]) then {facts[n].aircraftId} else {}
  {
    assert facts[..n + 1][..n] == facts[..n];
    var all := facts[..n + 1];
    forall a | a in Airframes(facts[..n], f) ensures a in Airframes(all, f) {
      var i :| 0 <= i < n && f(facts[..n][i]) && facts[..n][i].aircraftId == a;
      assert all[i] == facts[i];
    }
    forall a | a in Airframes(all, f) ensures a in Airframes(facts[..n], f) || (f(facts[n]) && a == facts[n].aircraftId) {
      var i :| 0 <= i <= n && f(all[i]) && all[i].aircraftId == a;
      assert i < n ==> facts[..n][i] == all[i];
    }
    if f(facts[n]) {
      assert all[n] == facts[n];
    }
  }

  method BusiestHour(z: Zone, facts: seq<SightingFact>) returns (r: Option<nat>)
    requires z.Valid()
    ensures IsBusiestHour(z, facts, r)
  {
    var counts := seq(HOURS_PER_DAY, _ => 0);
    var total := 0;
    for n := 0 to |facts|
      invariant total == n
      invariant |counts| == HOURS_PER_DAY
      invariant forall k :: 0 <= k < HOURS_PER_DAY ==> counts[k] == Count(facts[..n], InHour(z, k))
    {
      forall k | 0 <= k < HOURS_PER_DAY
        ensures Count(facts[..n + 1], InHour(z, k))
                == Count(facts[..n], InHour(z, k)) + if z.localHour(facts[n].startedMs) == k then 1 else 0
      {
        Snoc(facts, n, InHour(z, k));
      }
      var hour := z.localHour(facts[n].startedMs);
      counts := counts[hour := counts[hour] + 1];
      total := total + 1;
    }
    assert facts[..|facts|] == facts;
    if total == 0 {
      return None;
    }
    var best: nat := 0;
    for hour := 1 to HOURS_PER_DAY
      invariant best < hour
      invariant forall k :: 0 <= k < hour ==> counts[k] <= counts[best]
      invariant forall k :: 0 <= k < best ==> counts[k] < counts[best]
    {
      if counts[hour] > counts[best] {
        best := hour;
      }
    }
    return Some(best);
  }

  method FoldDay(z: Zone, day: int, facts: seq<SightingFact>, closed: bool) returns (r: DayRollup)
    requires z.Valid()
    ensures IsFold(z, day, facts, closed, r)
  {
    var aircraft: set<int> := {};
    var newAircraft: set<int> := {};
    var interesting, military, government, lawEnforcement := 0, 0, 0, 0;
    var maxRangeNm: Option<real> := None;
    for n := 0 to |facts|
      invariant aircraft == Airframes(facts[..n], All())
      invariant newAircraft == Airframes(facts[..n], NewOn(z, day))
      invariant interesting == Count(facts[..n], Interesting())
      invariant military == Count(facts[..n], Military())
      invariant government == Count(facts[..n], Government())
      invariant lawEnforcement == Count(facts[..n], LawEnforcement())
      invariant IsMaxRange(facts[..n], maxRangeNm)
    {
      var fact := facts[n];
      Snoc(facts, n, All());
      Snoc(facts, n, NewOn(z, day));
      Snoc(facts, n, Interesting());
      Snoc(facts, n, Military());
      Snoc(facts, n, Government());
      Snoc(facts, n, LawEnforcement());
      MaxRangeStep(facts, n, maxRangeNm);
      aircraft := aircraft + {fact.aircraftId};
      if SameDay(z, fact, day) {
        newAircraft := newAircraft + {fact.aircraftId};
      }
      interesting := interesting + if fact.interesting then 1 else 0;
      military := military + if fact.military then 1 else 0;
      government := government + if fact.government then 1 else 0;
      lawEnforcement := lawEnforcement + if fact.lawEnforcement then 1 else 0;
      if fact.maxRangeNm.Some? && (maxRangeNm.None? || fact.maxRangeNm.value > maxRangeNm.value) {
        maxRangeNm := fact.maxRangeNm;
      }
    }
    assert facts[..|facts|] == facts;
    var types := TallyGroups(facts, TypeCode());
    var operators := TallyGroups(facts, OperatorGroup());
    var busiest: Option<nat> := None;
    if closed {
      busiest := BusiestHour(z, facts);
    }
    r := DayRollup(
      day, |aircraft|, |newAircraft|, |facts|, interesting, military, government, lawEnforcement,
      maxRangeNm, busiest, types, operators);
  }

  lemma MaxRangeStep(facts: seq<SightingFact>, n: nat, r: Option<real>)
    requires n < |facts| && IsMaxRange(facts[..n], r)
    ensures
      var f := facts[n].maxRangeNm;
      IsMaxRange(facts[..n + 1], if f.Some? && (r.None? || f.value > r.value) then f else r)
  {
    var all := facts[..n + 1];
    assert all[n] == facts[n];
    assert forall i :: 0 <= i < n ==> all[i] == facts[..n][i];
  }

  lemma GroupStep<K>(facts: seq<SightingFact>, n: nat, key: SightingFact -> Option<K>)
    requires n < |facts|
    ensures KeysOf(facts[..n + 1], key) == KeysOf(facts[..n], key) + if key(facts[n]).Some? then {key(facts[n]).value} else {}
    ensures forall k :: key(facts[n]) != Some(k) ==>
      && Count(facts[..n + 1], Carrying(key, k)) == Count(facts[..n], Carrying(key, k))
      && Airframes(facts[..n + 1], Carrying(key, k)) == Airframes(facts[..n], Carrying(key, k))
    ensures key(facts[n]).Some? ==>
      var k := key(facts[n]).value;
      && Count(facts[..n + 1], Carrying(key, k)) == Count(facts[..n], Carrying(key, k)) + 1
      && Airframes(facts[..n + 1], Carrying(key, k)) == Airframes(facts[..n], Carrying(key, k)) + {facts[n].aircraftId}
  {
    var all := facts[..n + 1];
    assert all[n] == facts[n];
    assert forall i :: 0 <= i < n ==> all[i] == facts[..n][i];
    forall k
      ensures Count(all, Carrying(key, k)) == Count(facts[..n], Carrying(key, k)) + if key(facts[n]) == Some(k) then 1 else 0
      ensures Airframes(all, Carrying(key, k))
              == Airframes(facts[..n], Carrying(key, k)) + if key(facts[n]) == Some(k) then {facts[n].aircraftId} else {}
    {
      Snoc(facts, n, Carrying(key, k));
    }
    if key(facts[n]).Some? {
      Snoc(facts, n, Carrying(key, key(facts[n]).value));
    }
  }

  lemma {:induction false} NoneCarry<K>(facts: seq<SightingFact>, key: SightingFact -> Option<K>, k: K)
    requires k !in KeysOf(facts, key)
    ensures Count(facts, Carrying(key, k)) == 0 && Airframes(facts, Carrying(key, k)) == {}
  {
    if facts != [] {
      var n := |facts| - 1;
      GroupStep(facts, n, key);
      assert facts[..n + 1] == facts;
      NoneCarry(facts[..n], key, k);
    }
  }

  ghost predicate Tallied<K(!new)>(
    facts: seq<SightingFact>, key: SightingFact -> Option<K>, sightings: map<K, nat>, aircraft: map<K, set<int>>)
  {
    && sightings.Keys == KeysOf(facts, key) && aircraft.Keys == KeysOf(facts, key)
    && (forall k :: k in sightings ==> sightings[k] == Count(facts, Carrying(key, k)))
    && (forall k :: k in aircraft ==> aircraft[k] == Airframes(facts, Carrying(key, k)))
  }

  lemma TallyStep<K(!new)>(
    facts: seq<SightingFact>, n: nat, key: SightingFact -> Option<K>, sightings: map<K, nat>, aircraft: map<K, set<int>>)
    requires n < |facts| && Tallied(facts[..n], key, sightings, aircraft)
    ensures key(facts[n]).None? ==> Tallied(facts[..n + 1], key, sightings, aircraft)
    ensures key(facts[n]).Some? ==>
      var k := key(facts[n]).value;
      Tallied(facts[..n + 1], key,
              sightings[k := (if k in sightings then sightings[k] else 0) + 1],
              aircraft[k := (if k in aircraft then aircraft[k] else {}) + {facts[n].aircraftId}])
  {
    hide Count, Airframes, KeysOf, Carrying;
    GroupStep(facts, n, key);
    if key(facts[n]).Some? && key(facts[n]).value !in sightings {
      NoneCarry(facts[..n], key, key(facts[n]).value);
    }
  }

  /** The two tallies of the source, keyed alike, zipped into one count per key. */
  method TallyGroups<K(==,!new)>(facts: seq<SightingFact>, key: SightingFact -> Option<K>) returns (groups: map<K, GroupCount>)
    ensures groups == Groups(facts, key)
  {
    var aircraft: map<K, set<int>> := map[];
    var sightings: map<K, nat> := map[];
    assert facts[..0] == [];
    for n := 0 to |facts|
      invariant Tallied(facts[..n], key, sightings, aircraft)
    {
      hide Tallied;
      TallyStep(facts, n, key, sightings, aircraft);
      if key(facts[n]).Some? {
        var k := key(facts[n]).value;
        sightings := sightings[k := (if k in sightings then sightings[k] else 0) + 1];
        aircraft := aircraft[k := (if k in aircraft then aircraft[k] else {}) + {facts[n].aircraftId}];
      }
    }
    assert facts[..|facts|] == facts;
    groups := map k | k in sightings :: GroupCount(sightings[k], |aircraft[k]|);
  }

  // ----- The row is a function of the bag of sightings -----

  lemma {:induction false} CountRemove(facts: seq<SightingFact>, i: nat, f: SightingFact -> bool)
    requires i < |facts|
    ensures Count(facts, f) == Count(facts[..i] + facts[i + 1..], f) + if f(facts[i]) then 1 else 0
  {
    var n := |facts| - 1;
    if i == n {
      assert facts[..i] + facts[i + 1..] == facts[..n];
    } else {
      CountRemove(facts[..n], i, f);
      assert facts[..n][..i] + facts[..n][i + 1..] == (facts[..i] + facts[i + 1..])[..n - 1];
    }
  }

  /** Dropping the element at i drops one of it from the multiset. */
  lemma DropAt(facts: seq<SightingFact>, i: nat)
    requires i < |facts|
    ensures multiset(facts[..i] + facts[i + 1..]) == multiset(facts) - multiset{facts[i]}
  {
    assert facts == facts[..i] + ([facts[i]] + facts[i + 1..]);
  }

  lemma SameLength(facts: seq<SightingFact>, other: seq<SightingFact>)
    requires multiset(facts) == multiset(other)
    ensures |facts| == |other|
  {
    assert |multiset(facts)| == |facts| && |multiset(other)| == |other|;
  }

  lemma CountOfPermutation(facts: seq<SightingFact>, other: seq<SightingFact>, f: SightingFact -> bool)
    requires multiset(facts) == multiset(other)
    ensures Count(facts, f) == Count(other, f) && |facts| == |other|
  {
    SameLength(facts, other);
    CountOfRearranged(facts, other, f);
  }

  lemma {:induction false} CountOfRearranged(facts: seq<SightingFact>, other: seq<SightingFact>, f: SightingFact -> bool)
    requires multiset(facts) == multiset(other) && |facts| == |other|
    ensures Count(facts, f) == Count(other, f)
  {
    hide Count;
    if facts == [] {
      assert other == [];
    } else {
      var i := PlaceOf(facts[0], other);
      RemoveBoth(facts, other, i, f);
      CountOfRearranged(facts[1..], other[..i] + other[i + 1..], f);
    }
  }

  /** Removing the same element from both leaves rearrangements, with the same difference in count. */
  lemma RemoveBoth(facts: seq<SightingFact>, other: seq<SightingFact>, i: nat, f: SightingFact -> bool)
    requires multiset(facts) == multiset(other) && facts != [] && i < |other| && other[i] == facts[0]
    ensures multiset(facts[1..]) == multiset(other[..i] + other[i + 1..])
    ensures Count(facts, f) - Count(facts[1..], f) == Count(other, f) - Count(other[..i] + other[i + 1..], f)
  {
    assert multiset(facts[1..]) == multiset(other[..i] + other[i + 1..]) by {
      DropFirst(facts);
      DropAt(other, i);
    }
    CountFirst(facts, f);
    CountRemove(other, i, f);
    hide Count;
  }

  lemma DropFirst(facts: seq<SightingFact>)
    requires facts != []
    ensures multiset(facts[1..]) == multiset(facts) - multiset{facts[0]}
  {
    assert facts == [facts[0]] + facts[1..];
  }

  lemma CountFirst(facts: seq<SightingFact>, f: SightingFact -> bool)
    requires facts != []
    ensures Count(facts, f) == Count(facts[1..], f) + if f(facts[0]) then 1 else 0
  {
    assert facts[..0] + facts[1..] == facts[1..];
    CountRemove(facts, 0, f);
  }

  lemma PlaceOf(e: SightingFact, other: seq<SightingFact>) returns (i: nat)
    requires e in multiset(other)
    ensures i < |other| && other[i] == e
  {
    i :| i < |other| && other[i] == e;
  }

  lemma SameMembers(facts: seq<SightingFact>, other: seq<SightingFact>)
    requires multiset(facts) == multiset(other)
    ensures forall x :: x in facts <==> x in other
  {
    forall x ensures x in facts <==> x in other {
      assert x in facts <==> x in multiset(facts);
      assert x in other <==> x in multiset(other);
    }
  }

  lemma AirframesWithin(facts: seq<SightingFact>, other: seq<SightingFact>, f: SightingFact -> bool)
    requires forall x :: x in facts ==> x in other
    ensures Airframes(facts, f) <= Airframes(other, f)
  {
    forall a | a in Airframes(facts, f) ensures a in Airframes(other, f) {
      var i :| 0 <= i < |facts| && f(facts[i]) && facts[i].aircraftId == a;
      assert facts[i] in other;
      var j :| 0 <= j < |other| && other[j] == facts[i];
    }
  }

  lemma AirframesOfPermutation(facts: seq<SightingFact>, other: seq<SightingFact>, f: SightingFact -> bool)
    requires multiset(facts) == multiset(other)
    ensures Airframes(facts, f) == Airframes(other, f)
  {
    SameMembers(facts, other);
    AirframesWithin(facts, other, f);
    AirframesWithin(other, facts, f);
  }

  lemma KeysWithin<K>(facts: seq<SightingFact>, other: seq<SightingFact>, key: SightingFact -> Option<K>)
    requires forall x :: x in facts ==> x in other
    ensures KeysOf(facts, key) <= KeysOf(other, key)
  {
    forall i | 0 <= i < |facts| && key(facts[i]).Some? ensures key(facts[i]).value in KeysOf(other, key) {
      assert facts[i] in other;
      var j :| 0 <= j < |other| && other[j] == facts[i];
    }
  }

  lemma GroupsOfPermutation<K>(facts: seq<SightingFact>, other: seq<SightingFact>, key: SightingFact -> Option<K>)
    requires multiset(facts) == multiset(other)
    ensures Groups(facts, key) == Groups(other, key)
  {
    SameMembers(facts, other);
    KeysWithin(facts, other, key);
    KeysWithin(other, facts, key);
    forall k | k in KeysOf(facts, key) ensures Groups(facts, key)[k] == Groups(other, key)[k] {
      CountOfPermutation(facts, other, Carrying(key, k));
      AirframesOfPermutation(facts, other, Carrying(key, k));
    }
  }

  lemma MaxRangeUnique(facts: seq<SightingFact>, other: seq<SightingFact>, r: Option<real>, q: Option<real>)
    requires forall x :: x in facts <==> x in other
    requires IsMaxRange(facts, r) && IsMaxRange(other, q)
    ensures r == q
  {
    if r.Some? {
      var i :| 0 <= i < |facts| && facts[i].maxRangeNm == r;
      assert facts[i] in other;
    }
    if q.Some? {
      var i :| 0 <= i < |other| && other[i].maxRangeNm == q;
      assert other[i] in facts;
    }
  }

  lemma BusiestHourUnique(z: Zone, facts: seq<SightingFact>, other: seq<SightingFact>, r: Option<nat>, q: Option<nat>)
    requires multiset(facts) == multiset(other)
    requires IsBusiestHour(z, facts, r) && IsBusiestHour(z, other, q)
    ensures r == q
  {
    CountOfPermutation(facts, other, All());
    if r.Some? && q.Some? {
      var h, g := r.value, q.value;
      CountOfPermutation(facts, other, InHour(z, h));
      CountOfPermutation(facts, other, InHour(z, g));
      assert Count(facts, InHour(z, g)) <= Count(facts, InHour(z, h));
      assert Count(other, InHour(z, h)) <= Count(other, InHour(z, g));
    }
  }

  /** The description determines the row, and the order of the sightings does not enter it. */
  lemma FoldOfPermutation(z: Zone, day: int, facts: seq<SightingFact>, other: seq<SightingFact>, closed: bool, r: DayRollup, q: DayRollup)
    requires multiset(facts) == multiset(other)
    requires IsFold(z, day, facts, closed, r) && IsFold(z, day, other, closed, q)
    ensures r == q
  {
    SameMembers(facts, other);
    AirframesOfPermutation(facts, other, All());
    AirframesOfPermutation(facts, other, NewOn(z, day));
    CountOfPermutation(facts, other, Interesting());
    CountOfPermutation(facts, other, Military());
    CountOfPermutation(facts, other, Government());
    CountOfPermutation(facts, other, LawEnforcement());
    GroupsOfPermutation(facts, other, TypeCode());
    GroupsOfPermutation(facts, other, OperatorGroup());
    MaxRangeUnique(facts, other, r.maxRangeNm, q.maxRangeNm);
    if closed {
      BusiestHourUnique(z, facts, other, r.busiestHour, q.busiestHour);
    }
  }

  // ----- What a row says -----

  function Where(facts: seq<SightingFact>, f: SightingFact -> bool): set<nat> { set i | 0 <= i < |facts| && f(facts[i]) }

  lemma {:induction false} CountIsSize(facts: seq<SightingFact>, f: SightingFact -> bool)
    ensures Count(facts, f) == |Where(facts, f)|
  {
    if facts == [] {
      assert Where(facts, f) == {};
    } else {
      var n := |facts| - 1;
      CountIsSize(facts[..n], f);
      assert Where(facts, f) == Where(facts[..n], f) + if f(facts[n]) then {n} else {};
    }
  }

  /** A day's row, in terms of its sightings one by one: how many there are and of how many
      airframes; how many of these were first seen that day; how many sightings have each
      mark; and for each type and operator the same two numbers. */
  lemma RowSays(z: Zone, day: int, facts: seq<SightingFact>, closed: bool, r: DayRollup)
    requires IsFold(z, day, facts, closed, r)
    ensures r.day == day && r.sightings == |facts|
    ensures r.uniqueAircraft == |set i | 0 <= i < |facts| :: facts[i].aircraftId|
    ensures r.newAircraft
         == |set i | 0 <= i < |facts| && (facts[i].firstSeenMs == facts[i].startedMs || z.localDay(facts[i].firstSeenMs) == day)
               :: facts[i].aircraftId|
    ensures r.interesting == |set i | 0 <= i < |facts| && facts[i].interesting|
    ensures r.military == |set i | 0 <= i < |facts| && facts[i].military|
    ensures r.government == |set i | 0 <= i < |facts| && facts[i].government|
    ensures r.lawEnforcement == |set i | 0 <= i < |facts| && facts[i].lawEnforcement|
    ensures forall code :: code in r.types <==> exists i :: 0 <= i < |facts| && facts[i].typeCode == Some(code)
    ensures forall code :: code in r.types ==>
              r.types[code] == GroupCount(|set i | 0 <= i < |facts| && facts[i].typeCode == Some(code)|,
                                          |set i | 0 <= i < |facts| && facts[i].typeCode == Some(code) :: facts[i].aircraftId|)
    ensures forall g :: g in r.operators <==> exists i :: 0 <= i < |facts| && facts[i].operatorGroupId == Some(g)
    ensures forall g :: g in r.operators ==>
              r.operators[g] == GroupCount(|set i | 0 <= i < |facts| && facts[i].operatorGroupId == Some(g)|,
                                           |set i | 0 <= i < |facts| && facts[i].operatorGroupId == Some(g) :: facts[i].aircraftId|)
  {
    MarksSay(facts);
    AirframesSay(z, day, facts);
    TypesSay(facts);
    OperatorsSay(facts);
    hide Count, Airframes, Groups, IsMaxRange, IsBusiestHour, NewOn, All, Interesting, Military, Government, LawEnforcement, TypeCode, OperatorGroup;
  }

  lemma MarksSay(facts: seq<SightingFact>)
    ensures Count(facts, Interesting()) == |set i | 0 <= i < |facts| && facts[i].interesting|
    ensures Count(facts, Military()) == |set i | 0 <= i < |facts| && facts[i].military|
    ensures Count(facts, Government()) == |set i | 0 <= i < |facts| && facts[i].government|
    ensures Count(facts, LawEnforcement()) == |set i | 0 <= i < |facts| && facts[i].lawEnforcement|
  {
    hide Count;
    CountIsSize(facts, Interesting());
    CountIsSize(facts, Military());
    CountIsSize(facts, Government());
    CountIsSize(facts, LawEnforcement());
    assert Where(facts, Interesting()) == set i | 0 <= i < |facts| && facts[i].interesting;
    assert Where(facts, Military()) == set i | 0 <= i < |facts| && facts[i].military;
    assert Where(facts, Government()) == set i | 0 <= i < |facts| && facts[i].government;
    assert Where(facts, LawEnforcement()) == set i | 0 <= i < |facts| && facts[i].lawEnforcement;
  }

  lemma AirframesSay(z: Zone, day: int, facts: seq<SightingFact>)
    ensures Airframes(facts, All()) == set i | 0 <= i < |facts| :: facts[i].aircraftId
    ensures Airframes(facts, NewOn(z, day))
         == set i | 0 <= i < |facts| && (facts[i].firstSeenMs == facts[i].startedMs || z.localDay(facts[i].firstSeenMs) == day)
              :: facts[i].aircraftId
  {
  }

  lemma TypesSay(facts: seq<SightingFact>)
    ensures forall code :: code in Groups(facts, TypeCode()) <==> exists i :: 0 <= i < |facts| && facts[i].typeCode == Some(code)
    ensures forall code :: code in Groups(facts, TypeCode()) ==>
              Groups(facts, TypeCode())[code]
              == GroupCount(|set i | 0 <= i < |facts| && facts[i].typeCode == Some(code)|,
                            |set i | 0 <= i < |facts| && facts[i].typeCode == Some(code) :: facts[i].aircraftId|)
  {
    hide Count;
    forall code
      ensures Count(facts, Carrying(TypeCode(), code)) == |set i | 0 <= i < |facts| && facts[i].typeCode == Some(code)|
      ensures Airframes(facts, Carrying(TypeCode(), code)) == set i | 0 <= i < |facts| && facts[i].typeCode == Some(code) :: facts[i].aircraftId
    {
      CountIsSize(facts, Carrying(TypeCode(), code));
      assert Where(facts, Carrying(TypeCode(), code)) == set i | 0 <= i < |facts| && facts[i].typeCode == Some(code);
    }
  }

  lemma OperatorsSay(facts: seq<SightingFact>)
    ensures forall g :: g in Groups(facts, OperatorGroup()) <==> exists i :: 0 <= i < |facts| && facts[i].operatorGroupId == Some(g)
    ensures forall g :: g in Groups(facts, OperatorGroup()) ==>
              Groups(facts, OperatorGroup())[g]
              == GroupCount(|set i | 0 <= i < |facts| && facts[i].operatorGroupId == Some(g)|,
                            |set i | 0 <= i < |facts| && facts[i].operatorGroupId == Some(g) :: facts[i].aircraftId|)
  {
    hide Count;
    forall g
      ensures Count(facts, Carrying(OperatorGroup(), g)) == |set i | 0 <= i < |facts| && facts[i].operatorGroupId == Some(g)|
      ensures Airframes(facts, Carrying(OperatorGroup(), g)) == set i | 0 <= i < |facts| && facts[i].operatorGroupId == Some(g) :: facts[i].aircraftId
    {
      CountIsSize(facts, Carrying(OperatorGroup(), g));
      assert Where(facts, Carrying(OperatorGroup(), g)) == set i | 0 <= i < |facts| && facts[i].operatorGroupId == Some(g);
    }
  }

  /** And the busiest hour of a closed day: the earliest in which most of its sightings start. */
  lemma BusiestHourSays(z: Zone, day: int, facts: seq<SightingFact>, r: DayRollup, h: nat)
    requires IsFold(z, day, facts, true, r) && h < 24
    ensures r.busiestHour.None? <==> facts == []
    ensures r.busiestHour.Some? ==>
              var best := r.busiestHour.value;
              var there, here := |set i | 0 <= i < |facts| && z.localHour(facts[i].startedMs) == best|, |set i | 0 <= i < |facts| && z.localHour(facts[i].startedMs) == h|;
              best < 24 && here <= there && (h < best ==> here < there)
  {
    hide Count;
    CountIsSize(facts, InHour(z, h));
    assert Where(facts, InHour(z, h)) == set i | 0 <= i < |facts| && z.localHour(facts[i].startedMs) == h;
    if r.busiestHour.Some? {
      var best := r.busiestHour.value;
      CountIsSize(facts, InHour(z, best));
      assert Where(facts, InHour(z, best)) == set i | 0 <= i < |facts| && z.localHour(facts[i].startedMs) == best;
    }
  }

  // ----- Consecutive days tile the timeline -----

  /** The sightings that started in [lo, hi), in table order. */
  function FactsBetween(db: seq<SightingFact>, lo: int, hi: int): seq<SightingFact> {
    if db == [] then []
    else
      var rest := FactsBetween(db[..|db| - 1], lo, hi);
      if lo <= db[|db| - 1].startedMs < hi then rest + [db[|db| - 1]] else rest
  }

  function FactsOn(z: Zone, db: seq<SightingFact>, day: int): seq<SightingFact> {
    FactsBetween(db, z.dayStart(day), z.dayStart(day + 1))
  }

  /** The sightings of a day are those of the table that started on it. */
  lemma {:induction false} FactsOnTheDay(z: Zone, db: seq<SightingFact>, day: int, f: SightingFact)
    requires z.Valid()
    ensures f in FactsOn(z, db, day) <==> f in db && z.localDay(f.startedMs) == day
    ensures multiset(FactsOn(z, db, day))[f] == if z.localDay(f.startedMs) == day then multiset(db)[f] else 0
  {
    if db != [] {
      var n := |db| - 1;
      FactsOnTheDay(z, db[..n], day, f);
      OnDay(z, db[n].startedMs, day);
      assert db == db[..n] + [db[n]];
    }
  }

  function SumOver(z: Zone, db: seq<SightingFact>, first: int, last: int, f: SightingFact -> bool): nat
    decreases last - first
  {
    if last < first then 0 else Count(FactsOn(z, db, first), f) + SumOver(z, db, first + 1, last, f)
  }

  lemma {:induction false} WindowSplits(db: seq<SightingFact>, lo: int, mid: int, hi: int, f: SightingFact -> bool)
    requires lo <= mid <= hi
    ensures Count(FactsBetween(db, lo, hi), f) == Count(FactsBetween(db, lo, mid), f) + Count(FactsBetween(db, mid, hi), f)
  {
    if db != [] {
      var init, e := db[..|db| - 1], db[|db| - 1];
      WindowSplits(init, lo, mid, hi, f);
      CountSnoc(FactsBetween(init, lo, hi), e, f);
      CountSnoc(FactsBetween(init, lo, mid), e, f);
      CountSnoc(FactsBetween(init, mid, hi), e, f);
    }
  }

  lemma CountSnoc(facts: seq<SightingFact>, e: SightingFact, f: SightingFact -> bool)
    ensures Count(facts + [e], f) == Count(facts, f) + if f(e) then 1 else 0
  {
    assert (facts + [e])[..|facts|] == facts;
  }

  /** Summing any counted figure over consecutive days counts each sighting of the window once. */
  lemma {:induction false} DaysTileTheWindow(z: Zone, db: seq<SightingFact>, first: int, last: int, f: SightingFact -> bool)
    requires z.Valid() && first <= last + 1
    ensures SumOver(z, db, first, last, f) == Count(FactsBetween(db, z.dayStart(first), z.dayStart(last + 1)), f)
    decreases last - first
  {
    if last < first {
      EmptyWindow(db, z.dayStart(first));
    } else {
      DaysTileTheWindow(z, db, first + 1, last, f);
      assert first == last || z.dayStart(first + 1) < z.dayStart(last + 1);
      WindowSplits(db, z.dayStart(first), z.dayStart(first + 1), z.dayStart(last + 1), f);
    }
  }

  lemma {:induction false} EmptyWindow(db: seq<SightingFact>, at: int)
    ensures FactsBetween(db, at, at) == []
  {
    if db != [] {
      EmptyWindow(db[..|db| - 1], at);
    }
  }
}
