/** The hour-by-hour view of a day and the per-day count of new airframes
    (analytics/queries.py): loops that index bucket lists by arithmetic on instants. */
module Hourly {
  import opened Wrappers

  const MS_PER_HOUR := 3_600_000

  datatype Sighting = Sighting(aircraft: int, startedMs: int, endedMs: Option<int>, military: bool, government: bool, lawEnforcement: bool)

  /** The counts of a bucket that has begun. */
  datatype Counts = Counts(sightings: nat, uniqueAircraft: nat, military: nat, government: nat, lawEnforcement: nat, newAircraft: nat)

  /** A stored receiver hour. */
  datatype Metrics = Metrics(messages: int, positions: int, maxRangeNm: Option<real>)

  datatype Row = Row(hourStartMs: int, hour: int, counts: Option<Counts>,
                     messages: Option<int>, positions: Option<int>, maxRangeNm: Option<real>)

  // ----- Counting -----

  /** How many of the values satisfy p. */
  function Count<T>(xs: seq<T>, p: T -> bool): nat {
    if xs == [] then 0 else Count(xs[..|xs| - 1], p) + if p(xs[|xs| - 1]) then 1 else 0
  }

  function Sum(ns: seq<nat>): nat {
    if ns == [] then 0 else Sum(ns[..|ns| - 1]) + ns[|ns| - 1]
  }

  /** Adding one in one place adds one to the sum. */
  lemma {:induction false} SumBump(ns: seq<nat>, i: nat)
    requires i < |ns|
    ensures Sum(ns[i := ns[i] + 1]) == Sum(ns) + 1
  {
    var n := |ns| - 1;
    if i < n {
      SumBump(ns[..n], i);
      assert ns[i := ns[i] + 1][..n] == ns[..n][i := ns[i] + 1];
    } else {
      assert ns[i := ns[i] + 1][..n] == ns[..n];
    }
  }

  function Zeros(n: nat): seq<nat> { seq(n, _ => 0) }

  lemma {:induction false} SumZeros(n: nat)
    ensures Sum(Zeros(n)) == 0
  {
    if n > 0 {
      SumZeros(n - 1);
      assert Zeros(n)[..n - 1] == Zeros(n - 1);
    }
  }

  // ----- Buckets -----

  /** The first UTC hour at or after an instant. */
  function FirstHour(startMs: int): int { -(-startMs / MS_PER_HOUR) * MS_PER_HOUR }

  /** How many hours from firstMs begin before endMs. */
  function BucketCount(firstMs: int, endMs: int): nat {
    if endMs <= firstMs then 0 else (endMs - firstMs + MS_PER_HOUR - 1) / MS_PER_HOUR
  }

  function BucketStart(firstMs: int, i: int): int { firstMs + i * MS_PER_HOUR }

  /** The bucket an instant falls in. */
  function BucketOf(firstMs: int, ms: int): int { (ms - firstMs) / MS_PER_HOUR }

  predicate InBucket(firstMs: int, i: int, ms: int) { BucketStart(firstMs, i) <= ms < BucketStart(firstMs, i + 1) }

  /** An instant falls in exactly one bucket, the one the division names. */
  lemma BucketIsUnique(firstMs: int, ms: int, i: int)
    ensures InBucket(firstMs, i, ms) <==> i == BucketOf(firstMs, ms)
  {
  }

  /** The day's buckets are exactly the UTC hours that begin inside it. */
  lemma BucketsAreTheHours(startMs: int, endMs: int, hour: int)
    ensures
      var firstMs := FirstHour(startMs);
      (exists i :: 0 <= i < BucketCount(firstMs, endMs) && BucketStart(firstMs, i) == hour * MS_PER_HOUR)
      <==> startMs <= hour * MS_PER_HOUR < endMs
  {
    var firstMs := FirstHour(startMs);
    var n := BucketCount(firstMs, endMs);
    CeilingHour(startMs);
    LastHour(firstMs, endMs);
    var i := hour - firstMs / MS_PER_HOUR;
    assert BucketStart(firstMs, i) == hour * MS_PER_HOUR;
  }

  lemma CeilingHour(startMs: int)
    ensures startMs <= FirstHour(startMs) < startMs + MS_PER_HOUR && FirstHour(startMs) % MS_PER_HOUR == 0
  {
  }

  lemma LastHour(firstMs: int, endMs: int)
    ensures
      var n := BucketCount(firstMs, endMs);
      && (n > 0 ==> BucketStart(firstMs, n - 1) < endMs <= BucketStart(firstMs, n))
      && (n == 0 ==> endMs <= firstMs)
  {
  }

  // ----- The loops -----

  function UntilMs(s: Sighting, nowMs: int): int { if s.endedMs.None? then nowMs else s.endedMs.value }

  /** Starts in bucket i, and is not over before the day's first bucket. */
  predicate StartsIn(s: Sighting, firstMs: int, i: int, nowMs: int) {
    UntilMs(s, nowMs) >= firstMs && InBucket(firstMs, i, s.startedMs)
  }

  /** Begun before the bucket ends and not over before it begins. */
  predicate HeardIn(s: Sighting, firstMs: int, i: int, nowMs: int) {
    s.startedMs < BucketStart(firstMs, i + 1) && UntilMs(s, nowMs) >= BucketStart(firstMs, i)
  }

  function HeardSet(ss: seq<Sighting>, firstMs: int, i: int, nowMs: int): set<int> {
    set k | 0 <= k < |ss| && HeardIn(ss[k], firstMs, i, nowMs) :: ss[k].aircraft
  }

  lemma HeardSnoc(ss: seq<Sighting>, s: Sighting, firstMs: int, i: int, nowMs: int)
    ensures HeardSet(ss + [s], firstMs, i, nowMs) == HeardSet(ss, firstMs, i, nowMs) + if HeardIn(s, firstMs, i, nowMs) then {s.aircraft} else {}
  {
    hide HeardIn;
    var more := ss + [s];
    assert forall k :: 0 <= k < |ss| ==> more[k] == ss[k];
    assert more[|ss|] == s;
  }

  /** What is read of a sighting: only ones that start before the last bucket ends. */
  predicate Fetched(ss: seq<Sighting>, firstMs: int, n: nat) {
    forall k :: 0 <= k < |ss| ==> ss[k].startedMs < BucketStart(firstMs, n)
  }

  /** How many flagged sightings start in bucket i. */
  function StartedIn(ss: seq<Sighting>, firstMs: int, i: int, nowMs: int, flagged: Sighting -> bool): nat {
    Count(ss, s => StartsIn(s, firstMs, i, nowMs) && flagged(s))
  }

  function NewIn(firstHeard: seq<int>, firstMs: int, i: int): nat { Count(firstHeard, ms => InBucket(firstMs, i, ms)) }

  /** newly_heard: the fetched first-heard instants, bucket by bucket. */
  method NewlyHeard(firstHeard: seq<int>, firstMs: int, n: nat) returns (counts: seq<nat>)
    requires forall k :: 0 <= k < |firstHeard| ==> firstMs <= firstHeard[k] < BucketStart(firstMs, n)
    ensures |counts| == n && Sum(counts) == |firstHeard|
    ensures forall i :: 0 <= i < n ==> counts[i] == NewIn(firstHeard, firstMs, i)
  {
    counts := Zeros(n);
    SumZeros(n);
    for k := 0 to |firstHeard|
      invariant |counts| == n && Sum(counts) == k
      invariant forall i :: 0 <= i < n ==> counts[i] == Count(firstHeard[..k], ms => InBucket(firstMs, i, ms))
    {
      var bucket := BucketOf(firstMs, firstHeard[k]);
      InRange(firstMs, n, firstHeard[k]);
      assert firstHeard[..k + 1][..k] == firstHeard[..k];
      forall i | 0 <= i < n
        ensures Count(firstHeard[..k + 1], ms => InBucket(firstMs, i, ms))
             == counts[i] + if i == bucket then 1 else 0
      {
        BucketIsUnique(firstMs, firstHeard[k], i);
      }
      SumBump(counts, bucket);
      counts := counts[bucket := counts[bucket] + 1];
    }
    assert firstHeard[..|firstHeard|] == firstHeard;
  }

  lemma InRange(firstMs: int, n: nat, ms: int)
    requires firstMs <= ms < BucketStart(firstMs, n)
    ensures 0 <= BucketOf(firstMs, ms) < n
  {
  }

  /** started, or one of the three class counters: `flagged` says which sightings count. */
  method Started(ss: seq<Sighting>, firstMs: int, n: nat, nowMs: int, flagged: Sighting -> bool) returns (counts: seq<nat>)
    requires Fetched(ss, firstMs, n)
    ensures |counts| == n
    ensures forall i :: 0 <= i < n ==> counts[i] == StartedIn(ss, firstMs, i, nowMs, flagged)
    ensures Sum(counts) == Count(ss, s => UntilMs(s, nowMs) >= firstMs && s.startedMs >= firstMs && flagged(s))
  {
    counts := Zeros(n);
    SumZeros(n);
    for k := 0 to |ss|
      invariant |counts| == n
      invariant forall i :: 0 <= i < n ==> counts[i] == Count(ss[..k], s => StartsIn(s, firstMs, i, nowMs) && flagged(s))
      invariant Sum(counts) == Count(ss[..k], s => UntilMs(s, nowMs) >= firstMs && s.startedMs >= firstMs && flagged(s))
    {
      var s := ss[k];
      assert ss[..k + 1][..k] == ss[..k];
      forall i ensures InBucket(firstMs, i, s.startedMs) <==> i == BucketOf(firstMs, s.startedMs) {
        BucketIsUnique(firstMs, s.startedMs, i);
      }
      hide InBucket, BucketOf;
      if UntilMs(s, nowMs) >= firstMs && firstMs <= s.startedMs < BucketStart(firstMs, n) && flagged(s) {
        var bucket := BucketOf(firstMs, s.startedMs);
        InRange(firstMs, n, s.startedMs);
        SumBump(counts, bucket);
        counts := counts[bucket := counts[bucket] + 1];
      } else {
        NegativeBucket(firstMs, s.startedMs);
      }
    }
    assert ss[..|ss|] == ss;
  }

  lemma NegativeBucket(firstMs: int, ms: int)
    ensures BucketOf(firstMs, ms) >= 0 <==> ms >= firstMs
  {
  }

  function Max(a: int, b: int): int { if a < b then b else a }

  function Min(a: int, b: int): int { if b < a then b else a }

  /** The buckets from the start's to the end's, both clipped to the day, are all in bounds and
      are exactly those the sighting overlaps: even when its end lies before its start. */
  lemma HeardRange(s: Sighting, firstMs: int, n: nat, nowMs: int)
    requires n > 0 && s.startedMs < BucketStart(firstMs, n) && UntilMs(s, nowMs) >= firstMs
    ensures
      var lo := BucketOf(firstMs, Max(s.startedMs, firstMs));
      var hi := BucketOf(firstMs, Min(UntilMs(s, nowMs), BucketStart(firstMs, n) - 1));
      && 0 <= lo < n && 0 <= hi < n
      && forall i :: 0 <= i < n ==> (lo <= i <= hi <==> HeardIn(s, firstMs, i, nowMs))
  {
    var from, to := Max(s.startedMs, firstMs), Min(UntilMs(s, nowMs), BucketStart(firstMs, n) - 1);
    InRange(firstMs, n, from);
    InRange(firstMs, n, to);
    forall i | 0 <= i < n ensures BucketOf(firstMs, from) <= i <= BucketOf(firstMs, to) <==> HeardIn(s, firstMs, i, nowMs) {
      BucketOrder(firstMs, from, i);
      BucketOrder(firstMs, to, i);
      Within(firstMs, n, i);
    }
  }

  lemma BucketOrder(firstMs: int, ms: int, i: int)
    ensures BucketOf(firstMs, ms) <= i <==> ms < BucketStart(firstMs, i + 1)
    ensures i <= BucketOf(firstMs, ms) <==> BucketStart(firstMs, i) <= ms
  {
  }

  lemma Within(firstMs: int, n: nat, i: int)
    requires 0 <= i < n
    ensures firstMs <= BucketStart(firstMs, i) < BucketStart(firstMs, i + 1) <= BucketStart(firstMs, n)
  {
  }

  /** heard: for each bucket, exactly the airframes with a fetched sighting overlapping it. */
  method Heard(ss: seq<Sighting>, firstMs: int, n: nat, nowMs: int) returns (heard: seq<set<int>>)
    requires n > 0 && Fetched(ss, firstMs, n)
    ensures |heard| == n && forall i :: 0 <= i < n ==> heard[i] == HeardSet(ss, firstMs, i, nowMs)
  {
    heard := seq(n, _ => {});
    for k := 0 to |ss|
      invariant |heard| == n && forall i :: 0 <= i < n ==> heard[i] == HeardSet(ss[..k], firstMs, i, nowMs)
    {
      var s := ss[k];
      assert ss[..k + 1] == ss[..k] + [s];
      forall i | 0 <= i < n
        ensures HeardSet(ss[..k + 1], firstMs, i, nowMs) == heard[i] + if HeardIn(s, firstMs, i, nowMs) then {s.aircraft} else {}
      {
        HeardSnoc(ss[..k], s, firstMs, i, nowMs);
      }
      if UntilMs(s, nowMs) >= firstMs {
        HeardRange(s, firstMs, n, nowMs);
        heard := AddBetween(heard, BucketOf(firstMs, Max(s.startedMs, firstMs)),
                            BucketOf(firstMs, Min(UntilMs(s, nowMs), BucketStart(firstMs, n) - 1)), s.aircraft);
      } else {
        forall i | 0 <= i < n ensures !HeardIn(s, firstMs, i, nowMs) {
          Within(firstMs, n, i);
        }
      }
    }
    assert ss[..|ss|] == ss;
  }

  method AddBetween(heard: seq<set<int>>, lo: int, hi: int, aircraft: int) returns (r: seq<set<int>>)
    requires 0 <= lo < |heard| && 0 <= hi < |heard|
    ensures |r| == |heard|
    ensures forall i :: 0 <= i < |heard| ==> r[i] == heard[i] + if lo <= i <= hi then {aircraft} else {}
  {
    r := heard;
    var index := lo;
    while index < hi + 1
      invariant |r| == |heard| && lo <= index && (lo <= hi ==> index <= hi + 1) && (hi < lo ==> index == lo)
      invariant forall i :: 0 <= i < |heard| ==> r[i] == heard[i] + if lo <= i < index then {aircraft} else {}
    {
      r := r[index := r[index] + {aircraft}];
      index := index + 1;
    }
  }

  function CountsIn(ss: seq<Sighting>, firstHeard: seq<int>, firstMs: int, i: int, nowMs: int): Counts {
    Counts(StartedIn(ss, firstMs, i, nowMs, Any), |HeardSet(ss, firstMs, i, nowMs)|, StartedIn(ss, firstMs, i, nowMs, Military),
           StartedIn(ss, firstMs, i, nowMs, Government), StartedIn(ss, firstMs, i, nowMs, LawEnforcement), NewIn(firstHeard, firstMs, i))
  }

  /** The whole day, each bucket labelled with the local hour it begins in and joined to the
      receiver hour of the same start. A bucket that has not begun has no counts. */
  method HourlyRows(ss: seq<Sighting>, firstHeard: seq<int>, receiver: map<int, Metrics>, localHour: int -> int,
                    startMs: int, endMs: int, nowMs: int) returns (rows: seq<Row>)
    requires
      var firstMs := FirstHour(startMs);
      var n := BucketCount(firstMs, endMs);
      && Fetched(ss, firstMs, n)
      && forall k :: 0 <= k < |firstHeard| ==> firstMs <= firstHeard[k] < BucketStart(firstMs, n)
    ensures
      var firstMs := FirstHour(startMs);
      && |rows| == BucketCount(firstMs, endMs)
      && forall i :: 0 <= i < |rows| ==>
           var hour := BucketStart(firstMs, i);
           && rows[i].hourStartMs == hour && rows[i].hour == localHour(hour)
           && rows[i].counts == (if hour <= nowMs then Some(CountsIn(ss, firstHeard, firstMs, i, nowMs)) else None)
           && (rows[i].messages.Some? <==> hour in receiver) && (rows[i].positions.Some? <==> hour in receiver)
           && (hour in receiver ==>
                 && rows[i].messages.value == receiver[hour].messages && rows[i].positions.value == receiver[hour].positions
                 && rows[i].maxRangeNm == receiver[hour].maxRangeNm)
           && (hour !in receiver ==> rows[i].maxRangeNm == None)
  {
    var firstMs := FirstHour(startMs);
    var n := BucketCount(firstMs, endMs);
    hide StartedIn, NewIn, HeardSet, FirstHour, BucketCount, BucketStart;
    if n == 0 {
      return [];
    }
    var started := Started(ss, firstMs, n, nowMs, Any);
    var military := Started(ss, firstMs, n, nowMs, Military);
    var government := Started(ss, firstMs, n, nowMs, Government);
    var lawEnforcement := Started(ss, firstMs, n, nowMs, LawEnforcement);
    var newly := NewlyHeard(firstHeard, firstMs, n);
    var heard := Heard(ss, firstMs, n, nowMs);
    rows := seq(n, i requires 0 <= i < n =>
      RowOf(BucketStart(firstMs, i), nowMs, receiver, localHour,
            Counts(started[i], |heard[i]|, military[i], government[i], lawEnforcement[i], newly[i])));
  }

  predicate Any(s: Sighting) { true }
  predicate Military(s: Sighting) { s.military }
  predicate Government(s: Sighting) { s.government }
  predicate LawEnforcement(s: Sighting) { s.lawEnforcement }

  function RowOf(hour: int, nowMs: int, receiver: map<int, Metrics>, localHour: int -> int, counts: Counts): Row {
    var begun := if hour <= nowMs then Some(counts) else None;
    if hour in receiver
    then Row(hour, localHour(hour), begun, Some(receiver[hour].messages), Some(receiver[hour].positions), receiver[hour].maxRangeNm)
    else Row(hour, localHour(hour), begun, None, None, None)
  }

  // ----- New airframes by day -----

  /** Day d of a list of day starts: from its start to the next one's, the first open below
      and the last open above. */
  predicate InDay(starts: seq<int>, d: int, ms: int) {
    0 <= d < |starts| && (d == 0 || starts[d] <= ms) && (d + 1 == |starts| || ms < starts[d + 1])
  }

  /** Days do not overlap. */
  lemma OneDay(starts: seq<int>, day: int, ms: int)
    requires forall i, j :: 0 <= i < j < |starts| ==> starts[i] < starts[j]
    requires InDay(starts, day, ms)
    ensures forall d :: 0 <= d < |starts| ==> (InDay(starts, d, ms) <==> d == day)
  {
    forall d | 0 <= d < |starts| ensures InDay(starts, d, ms) <==> d == day {
      assert d < day ==> starts[d + 1] <= starts[day];
      assert d > day ==> starts[day + 1] <= starts[d];
    }
  }

  /** One walk over sorted instants against increasing day starts counts each day's instants,
      and every instant in exactly one day. */
  method NewAircraftByDay(values: seq<int>, starts: seq<int>) returns (counts: seq<nat>)
    requires starts != [] && forall i, j :: 0 <= i < j < |starts| ==> starts[i] < starts[j]
    requires forall i, j :: 0 <= i < j < |values| ==> values[i] <= values[j]
    ensures |counts| == |starts| && Sum(counts) == |values|
    ensures forall d :: 0 <= d < |starts| ==> counts[d] == Count(values, ms => InDay(starts, d, ms))
  {
    counts := Zeros(|starts|);
    SumZeros(|starts|);
    var index := 0;
    for k := 0 to |values|
      invariant 0 <= index < |starts| && |counts| == |starts| && Sum(counts) == k
      invariant index == 0 || (k > 0 && starts[index] <= values[k - 1])
      invariant forall d :: 0 <= d < |starts| ==> counts[d] == Count(values[..k], ms => InDay(starts, d, ms))
    {
      var value := values[k];
      assert values[..k + 1][..k] == values[..k];
      while index + 1 < |starts| && value >= starts[index + 1]
        invariant 0 <= index < |starts| && (index == 0 || starts[index] <= value)
      {
        index := index + 1;
      }
      OneDay(starts, index, value);
      hide InDay;
      SumBump(counts, index);
      counts := counts[index := counts[index] + 1];
    }
    assert values[..|values|] == values;
  }

  // ----- What the counts say -----

  function Where<T>(xs: seq<T>, p: T -> bool): set<int> { set k | 0 <= k < |xs| && p(xs[k]) }

  lemma {:induction false} CountIsSize<T>(xs: seq<T>, p: T -> bool)
    ensures Count(xs, p) == |Where(xs, p)|
  {
    if xs == [] {
      assert Where(xs, p) == {};
    } else {
      var n := |xs| - 1;
      CountIsSize(xs[..n], p);
      assert Where(xs, p) == Where(xs[..n], p) + if p(xs[n]) then {n} else {};
    }
  }

  /** When the sighting ended; one still open goes on until now. */
  function Ends(s: Sighting, nowMs: int): int { if s.endedMs.Some? then s.endedMs.value else nowMs }

  /** The hour's counts, sighting by sighting: those that started in it, and how many of them are
      of each class; the airframes heard at some time in it; the airframes first heard in it. */
  lemma CountsSay(ss: seq<Sighting>, firstHeard: seq<int>, firstMs: int, i: int, nowMs: int)
    ensures
      var c, from, to := CountsIn(ss, firstHeard, firstMs, i, nowMs), firstMs + i * 3_600_000, firstMs + (i + 1) * 3_600_000;
      && c.sightings == |set k | 0 <= k < |ss| && from <= ss[k].startedMs < to && Ends(ss[k], nowMs) >= firstMs|
      && c.military == |set k | 0 <= k < |ss| && from <= ss[k].startedMs < to && Ends(ss[k], nowMs) >= firstMs && ss[k].military|
      && c.government == |set k | 0 <= k < |ss| && from <= ss[k].startedMs < to && Ends(ss[k], nowMs) >= firstMs && ss[k].government|
      && c.lawEnforcement
         == |set k | 0 <= k < |ss| && from <= ss[k].startedMs < to && Ends(ss[k], nowMs) >= firstMs && ss[k].lawEnforcement|
      && c.uniqueAircraft == |set k | 0 <= k < |ss| && ss[k].startedMs < to && Ends(ss[k], nowMs) >= from :: ss[k].aircraft|
      && c.newAircraft == |set k | 0 <= k < |firstHeard| && from <= firstHeard[k] < to|
  {
    StartedSay(ss, firstMs, i, nowMs);
    HeardSay(ss, firstMs, i, nowMs);
    CountIsSize(firstHeard, ms => InBucket(firstMs, i, ms));
    assert Where(firstHeard, ms => InBucket(firstMs, i, ms))
        == set k | 0 <= k < |firstHeard| && firstMs + i * 3_600_000 <= firstHeard[k] < firstMs + (i + 1) * 3_600_000;
    hide StartedIn, HeardSet, Ends, Count;
  }

  lemma StartedSay(ss: seq<Sighting>, firstMs: int, i: int, nowMs: int)
    ensures
      var from, to := firstMs + i * 3_600_000, firstMs + (i + 1) * 3_600_000;
      && StartedIn(ss, firstMs, i, nowMs, Any)
         == |set k | 0 <= k < |ss| && from <= ss[k].startedMs < to && Ends(ss[k], nowMs) >= firstMs|
      && StartedIn(ss, firstMs, i, nowMs, Military)
         == |set k | 0 <= k < |ss| && from <= ss[k].startedMs < to && Ends(ss[k], nowMs) >= firstMs && ss[k].military|
      && StartedIn(ss, firstMs, i, nowMs, Government)
         == |set k | 0 <= k < |ss| && from <= ss[k].startedMs < to && Ends(ss[k], nowMs) >= firstMs && ss[k].government|
      && StartedIn(ss, firstMs, i, nowMs, LawEnforcement)
         == |set k | 0 <= k < |ss| && from <= ss[k].startedMs < to && Ends(ss[k], nowMs) >= firstMs && ss[k].lawEnforcement|
  {
    FlaggedSay(ss, firstMs, i, nowMs, Any);
    FlaggedSay(ss, firstMs, i, nowMs, Military);
    FlaggedSay(ss, firstMs, i, nowMs, Government);
    FlaggedSay(ss, firstMs, i, nowMs, LawEnforcement);
    hide StartedIn, Ends;
    var from, to := firstMs + i * 3_600_000, firstMs + (i + 1) * 3_600_000;
    assert StartedWhere(ss, firstMs, from, to, nowMs, Any)
        == set k | 0 <= k < |ss| && from <= ss[k].startedMs < to && Ends(ss[k], nowMs) >= firstMs;
    assert StartedWhere(ss, firstMs, from, to, nowMs, Military)
        == set k | 0 <= k < |ss| && from <= ss[k].startedMs < to && Ends(ss[k], nowMs) >= firstMs && ss[k].military;
    assert StartedWhere(ss, firstMs, from, to, nowMs, Government)
        == set k | 0 <= k < |ss| && from <= ss[k].startedMs < to && Ends(ss[k], nowMs) >= firstMs && ss[k].government;
    assert StartedWhere(ss, firstMs, from, to, nowMs, LawEnforcement)
        == set k | 0 <= k < |ss| && from <= ss[k].startedMs < to && Ends(ss[k], nowMs) >= firstMs && ss[k].lawEnforcement;
  }

  function StartedWhere(ss: seq<Sighting>, firstMs: int, from: int, to: int, nowMs: int, flagged: Sighting -> bool): set<int> {
    set k | 0 <= k < |ss| && from <= ss[k].startedMs < to && Ends(ss[k], nowMs) >= firstMs && flagged(ss[k])
  }

  lemma FlaggedSay(ss: seq<Sighting>, firstMs: int, i: int, nowMs: int, flagged: Sighting -> bool)
    ensures StartedIn(ss, firstMs, i, nowMs, flagged)
         == |StartedWhere(ss, firstMs, firstMs + i * 3_600_000, firstMs + (i + 1) * 3_600_000, nowMs, flagged)|
  {
    CountIsSize(ss, s => StartsIn(s, firstMs, i, nowMs) && flagged(s));
    assert Where(ss, s => StartsIn(s, firstMs, i, nowMs) && flagged(s))
        == StartedWhere(ss, firstMs, firstMs + i * 3_600_000, firstMs + (i + 1) * 3_600_000, nowMs, flagged);
  }

  lemma HeardSay(ss: seq<Sighting>, firstMs: int, i: int, nowMs: int)
    ensures
      var from, to := firstMs + i * 3_600_000, firstMs + (i + 1) * 3_600_000;
      HeardSet(ss, firstMs, i, nowMs) == set k | 0 <= k < |ss| && ss[k].startedMs < to && Ends(ss[k], nowMs) >= from :: ss[k].aircraft
  {
  }

  /** A day's new airframes: the instants from its start to the next day's, whatever lies before
      the first start and after the last counted with the first and the last. */
  lemma DayCountSays(values: seq<int>, starts: seq<int>, d: int)
    requires 0 <= d < |starts|
    ensures Count(values, ms => InDay(starts, d, ms))
         == |set k | 0 <= k < |values| && (d == 0 || starts[d] <= values[k]) && (d + 1 == |starts| || values[k] < starts[d + 1])|
  {
    CountIsSize(values, ms => InDay(starts, d, ms));
    assert Where(values, ms => InDay(starts, d, ms))
        == set k | 0 <= k < |values| && (d == 0 || starts[d] <= values[k]) && (d + 1 == |starts| || values[k] < starts[d + 1]);
  }
}
