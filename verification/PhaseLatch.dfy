/** The phase latch and its grace window (airports/service.py) over the inference gates
    (airports/inference.py). */
module PhaseLatch {
  import opened Sequences
  import opened Wrappers

  const NEAREST_SEARCH_NM := 30.0
  const CONTEXT_CEILING_FT := 10_000.0
  const PHASE_CEILING_AGL_FT := 6_000.0
  const MIN_VERTICAL_RATE_FPM := 300.0
  const ARRIVAL_MAX_DISTANCE_NM := 15.0
  const DEPARTURE_MAX_DISTANCE_NM := 10.0
  const ON_GROUND_MAX_DISTANCE_NM := 3.0
  const MIN_TREND_SAMPLES := 2
  const TREND_WINDOW_MS := 120_000
  const MIN_TREND_DELTA_NM := 0.3
  const MAX_TRAIL_SAMPLES := 256
  const MAX_TRACKED_AIRCRAFT := 4096

  datatype Phase = Arriving | Departing

  datatype Sample = Sample(ident: string, distanceNm: real, tsMs: int)

  datatype Nearby = Nearby(ident: string, distanceNm: real, elevationFt: Option<int>)

  datatype Kinematics = Kinematics(altitudeFt: Option<real>, rateFpm: Option<real>, onGround: Option<bool>, tsMs: int)

  // ----- The gates -----

  function HeightAboveField(altitudeFt: Option<real>, elevationFt: Option<int>): Option<real> {
    if altitudeFt.None? then None
    else Some(altitudeFt.value - (if elevationFt.Some? then elevationFt.value else 0) as real)
  }

  predicate InContext(n: Nearby, k: Kinematics) {
    n.distanceNm <= NEAREST_SEARCH_NM &&
    if k.onGround == Some(true) then n.distanceNm <= ON_GROUND_MAX_DISTANCE_NM
    else
      var agl := HeightAboveField(k.altitudeFt, n.elevationFt);
      agl.Some? && agl.value <= CONTEXT_CEILING_FT
  }

  predicate InWindow(s: Sample, nowMs: int) { nowMs - s.tsMs <= TREND_WINDOW_MS }

  /** Samples inside the window, oldest position first. */
  function Window(trail: seq<Sample>, nowMs: int): seq<Sample> {
    if trail == [] then []
    else
      var before := Window(trail[..|trail| - 1], nowMs);
      if InWindow(trail[|trail| - 1], nowMs) then before + [trail[|trail| - 1]] else before
  }

  function NamingField(trail: seq<Sample>, ident: string): seq<Sample> {
    if trail == [] then []
    else
      var before := NamingField(trail[..|trail| - 1], ident);
      if trail[|trail| - 1].ident == ident then before + [trail[|trail| - 1]] else before
  }

  /** The first of the samples with the least timestamp. */
  function Oldest(window: seq<Sample>): Sample
    requires window != []
  {
    if |window| == 1 then window[0]
    else
      var before := Oldest(window[..|window| - 1]);
      if window[|window| - 1].tsMs < before.tsMs then window[|window| - 1] else before
  }

  function ClosingDelta(n: Nearby, trail: seq<Sample>, nowMs: int): Option<real> {
    var recent := Window(trail, nowMs);
    var window := NamingField(recent, n.ident);
    if |window| < MIN_TREND_SAMPLES - 1 then None
    else if exists s :: s in recent && s.ident != n.ident then None
    else Some(Oldest(window).distanceNm - n.distanceNm)
  }

  function InferPhase(n: Nearby, k: Kinematics, trail: seq<Sample>): Option<Phase> {
    var agl := HeightAboveField(k.altitudeFt, n.elevationFt);
    if k.onGround == Some(true) then None
    else if k.rateFpm.None? || -MIN_VERTICAL_RATE_FPM < k.rateFpm.value < MIN_VERTICAL_RATE_FPM then None
    else if agl.None? || agl.value > PHASE_CEILING_AGL_FT then None
    else
      var delta := ClosingDelta(n, trail, k.tsMs);
      if delta.None? then None
      else if k.rateFpm.value <= -MIN_VERTICAL_RATE_FPM then
        if n.distanceNm > ARRIVAL_MAX_DISTANCE_NM then None
        else if delta.value >= MIN_TREND_DELTA_NM then Some(Arriving) else None
      else if n.distanceNm > DEPARTURE_MAX_DISTANCE_NM then None
      else if -delta.value >= MIN_TREND_DELTA_NM then Some(Departing) else None
  }

  lemma {:induction false} WindowMembers(trail: seq<Sample>, nowMs: int, s: Sample)
    ensures s in Window(trail, nowMs) <==> s in trail && InWindow(s, nowMs)
  {
    if trail != [] {
      WindowMembers(trail[..|trail| - 1], nowMs, s);
      assert trail == trail[..|trail| - 1] + [trail[|trail| - 1]];
    }
  }

  lemma {:induction false} NamingMembers(trail: seq<Sample>, ident: string, s: Sample)
    ensures s in NamingField(trail, ident) <==> s in trail && s.ident == ident
  {
    if trail != [] {
      NamingMembers(trail[..|trail| - 1], ident, s);
      assert trail == trail[..|trail| - 1] + [trail[|trail| - 1]];
    }
  }

  lemma {:induction false} OldestIsLeast(window: seq<Sample>)
    requires window != []
    ensures Oldest(window) in window && forall s :: s in window ==> Oldest(window).tsMs <= s.tsMs
  {
    if |window| > 1 {
      OldestIsLeast(window[..|window| - 1]);
      assert window == window[..|window| - 1] + [window[|window| - 1]];
    }
  }

  /** A phase is claimed only with a trend behind it: every remembered sample of the last two
      minutes names this field, and the oldest of them was at least 0.3 nm further out for an
      arrival, further in for a departure. And nothing claims a phase that would not be
      reported at all: every inferred phase passes the context gates. */
  lemma PhaseNeedsTrend(n: Nearby, k: Kinematics, trail: seq<Sample>)
    requires InferPhase(n, k, trail).Some?
    ensures InContext(n, k)
    ensures forall s :: s in trail && InWindow(s, k.tsMs) ==> s.ident == n.ident
    ensures exists s :: s in trail && InWindow(s, k.tsMs)
                        && (forall o :: o in trail && InWindow(o, k.tsMs) ==> s.tsMs <= o.tsMs)
                        && (InferPhase(n, k, trail) == Some(Arriving) ==> s.distanceNm >= n.distanceNm + MIN_TREND_DELTA_NM)
                        && (InferPhase(n, k, trail) == Some(Departing) ==> s.distanceNm <= n.distanceNm - MIN_TREND_DELTA_NM)
  {
    var recent := Window(trail, k.tsMs);
    var window := NamingField(recent, n.ident);
    OldestIsLeast(window);
    var oldest := Oldest(window);
    NamingMembers(recent, n.ident, oldest);
    WindowMembers(trail, k.tsMs, oldest);
    forall s | s in trail && InWindow(s, k.tsMs) ensures s.ident == n.ident && oldest.tsMs <= s.tsMs {
      WindowMembers(trail, k.tsMs, s);
      NamingMembers(recent, n.ident, s);
    }
  }

  /** Where a trend begins: every sample of the last two minutes names the field, and this is the
      oldest of them, the first if several are as old. */
  predicate TrendStart(n: Nearby, nowMs: int, trail: seq<Sample>, i: nat) {
    && i < |trail| && nowMs - trail[i].tsMs <= TREND_WINDOW_MS
    && forall j :: 0 <= j < |trail| && nowMs - trail[j].tsMs <= TREND_WINDOW_MS ==>
         && trail[j].ident == n.ident
         && if j < i then trail[i].tsMs < trail[j].tsMs else trail[i].tsMs <= trail[j].tsMs
  }

  /** The position of the first oldest sample of a window. */
  predicate FirstOldest(trail: seq<Sample>, nowMs: int, i: nat) {
    && i < |trail| && InWindow(trail[i], nowMs)
    && forall j :: 0 <= j < |trail| && InWindow(trail[j], nowMs) ==>
         if j < i then trail[i].tsMs < trail[j].tsMs else trail[i].tsMs <= trail[j].tsMs
  }

  lemma {:induction false} OldestIsFirst(trail: seq<Sample>, nowMs: int) returns (i: nat)
    requires Window(trail, nowMs) != []
    ensures FirstOldest(trail, nowMs, i) && Oldest(Window(trail, nowMs)) == trail[i]
  {
    var n := |trail| - 1;
    var init, before := trail[..n], Window(trail[..n], nowMs);
    if before == [] {
      i := n;
      forall j | 0 <= j < n ensures !InWindow(trail[j], nowMs) {
        WindowMembers(init, nowMs, trail[j]);
        assert init[j] in init;
      }
    } else {
      i := OldestIsFirst(init, nowMs);
      assert forall j :: 0 <= j < n ==> init[j] == trail[j];
      if InWindow(trail[n], nowMs) {
        assert (before + [trail[n]])[..|before|] == before;
        if trail[n].tsMs < trail[i].tsMs {
          i := n;
        }
      }
    }
  }

  lemma {:induction false} AllNaming(trail: seq<Sample>, ident: string)
    requires forall s :: s in trail ==> s.ident == ident
    ensures NamingField(trail, ident) == trail
  {
    if trail != [] {
      AllNaming(trail[..|trail| - 1], ident);
      assert trail == trail[..|trail| - 1] + [trail[|trail| - 1]];
    }
  }

  /** The trend the code uses is the one from that sample, if there is one. */
  lemma DeltaExactly(n: Nearby, trail: seq<Sample>, nowMs: int)
    ensures ClosingDelta(n, trail, nowMs).Some? <==> exists i: nat :: TrendStart(n, nowMs, trail, i)
    ensures forall i: nat :: TrendStart(n, nowMs, trail, i) ==> ClosingDelta(n, trail, nowMs) == Some(trail[i].distanceNm - n.distanceNm)
  {
    var recent := Window(trail, nowMs);
    forall s ensures s in recent <==> s in trail && InWindow(s, nowMs) {
      WindowMembers(trail, nowMs, s);
    }
    if ClosingDelta(n, trail, nowMs).Some? {
      AllNaming(recent, n.ident);
      var i := OldestIsFirst(trail, nowMs);
      assert forall j :: 0 <= j < |trail| && InWindow(trail[j], nowMs) ==> trail[j] in recent;
      assert TrendStart(n, nowMs, trail, i);
    }
    forall i: nat | TrendStart(n, nowMs, trail, i) ensures ClosingDelta(n, trail, nowMs) == Some(trail[i].distanceNm - n.distanceNm) {
      assert trail[i] in recent;
      AllNaming(recent, n.ident);
      var k := OldestIsFirst(trail, nowMs);
      assert k == i;
    }
  }

  /** Not on the ground, and no more than 6,000 ft above the field, or above the sea where the
      field's elevation is unknown. */
  predicate Low(n: Nearby, k: Kinematics) {
    && k.onGround != Some(true) && k.altitudeFt.Some?
    && k.altitudeFt.value <= 6_000.0 + if n.elevationFt.Some? then n.elevationFt.value as real else 0.0
  }

  /** Exactly when an arrival or a departure is inferred: low, descending at 300 fpm or more within
      15 nm, or climbing as fast within 10 nm, and 0.3 nm nearer, or further, than at the
      start of the trend. */
  lemma PhaseExactly(n: Nearby, k: Kinematics, trail: seq<Sample>)
    ensures InferPhase(n, k, trail) == Some(Arriving) <==>
            && Low(n, k) && k.rateFpm.Some? && k.rateFpm.value <= -300.0 && n.distanceNm <= 15.0
            && exists i: nat :: TrendStart(n, k.tsMs, trail, i) && n.distanceNm <= trail[i].distanceNm - 0.3
    ensures InferPhase(n, k, trail) == Some(Departing) <==>
            && Low(n, k) && k.rateFpm.Some? && k.rateFpm.value >= 300.0 && n.distanceNm <= 10.0
            && exists i: nat :: TrendStart(n, k.tsMs, trail, i) && n.distanceNm >= trail[i].distanceNm + 0.3
  {
    DeltaExactly(n, trail, k.tsMs);
    hide ClosingDelta, TrendStart;
  }

  /** What the service remembers: samples older than an earlier observation's window dropped
      from the front. */
  function Pruned(trail: seq<Sample>, nowMs: int): seq<Sample> {
    if trail != [] && trail[0].tsMs < nowMs - TREND_WINDOW_MS then Pruned(trail[1..], nowMs) else trail
  }

  /** Nothing at the front of a pruned trail is older than the window, and only the front went. */
  lemma {:induction false} PrunedIsFresh(trail: seq<Sample>, nowMs: int)
    ensures
      var kept := Pruned(trail, nowMs);
      && |kept| <= |trail| && kept == trail[|trail| - |kept|..]
      && (kept != [] ==> nowMs - kept[0].tsMs <= TREND_WINDOW_MS)
  {
    if trail != [] && trail[0].tsMs < nowMs - TREND_WINDOW_MS {
      PrunedIsFresh(trail[1..], nowMs);
    }
  }

  /** Pruning at one observation is invisible to every inference at that time or later. */
  lemma PruningIsInvisible(n: Nearby, k: Kinematics, trail: seq<Sample>, prunedAtMs: int)
    requires prunedAtMs <= k.tsMs
    ensures InferPhase(n, k, Pruned(trail, prunedAtMs)) == InferPhase(n, k, trail)
  {
    PrunedWindow(trail, prunedAtMs, k.tsMs);
  }

  lemma {:induction false} PrunedWindow(trail: seq<Sample>, prunedAtMs: int, nowMs: int)
    requires prunedAtMs <= nowMs
    ensures Window(Pruned(trail, prunedAtMs), nowMs) == Window(trail, nowMs)
  {
    if trail != [] && trail[0].tsMs < prunedAtMs - TREND_WINDOW_MS {
      PrunedWindow(trail[1..], prunedAtMs, nowMs);
      WindowDropsFirst(trail, nowMs);
    }
  }

  lemma {:induction false} WindowDropsFirst(trail: seq<Sample>, nowMs: int)
    requires trail != [] && !InWindow(trail[0], nowMs)
    ensures Window(trail[1..], nowMs) == Window(trail, nowMs)
  {
    if |trail| > 1 {
      WindowDropsFirst(trail[..|trail| - 1], nowMs);
      assert trail[1..][..|trail| - 2] == trail[..|trail| - 1][1..];
    }
  }

  // ----- Ordered dictionaries -----

  datatype Item<V> = Item(key: string, value: V)

  function Lookup<V>(d: seq<Item<V>>, k: string): Option<V> {
    if d == [] then None
    else if d[|d| - 1].key == k then Some(d[|d| - 1].value)
    else Lookup(d[..|d| - 1], k)
  }

  function Without<V>(d: seq<Item<V>>, k: string): seq<Item<V>> {
    if d == [] then []
    else if d[|d| - 1].key == k then Without(d[..|d| - 1], k)
    else Without(d[..|d| - 1], k) + [d[|d| - 1]]
  }

  /** Assignment followed by move_to_end. */
  function Put<V>(d: seq<Item<V>>, k: string, v: V): seq<Item<V>> { Without(d, k) + [Item(k, v)] }

  predicate DistinctKeys<V>(d: seq<Item<V>>) { DistinctBy(d, (i: Item<V>) => i.key) }

  function KeySet<V>(d: seq<Item<V>>): set<string> { set i | 0 <= i < |d| :: d[i].key }

  lemma {:induction false} WithoutSpec<V>(d: seq<Item<V>>, k: string, j: string)
    ensures Lookup(Without(d, k), j) == if j == k then None else Lookup(d, j)
  {
    if d != [] {
      WithoutSpec(d[..|d| - 1], k, j);
    }
  }

  lemma {:induction false} WithoutKeeps<V>(d: seq<Item<V>>, k: string)
    requires DistinctKeys(d)
    ensures DistinctKeys(Without(d, k)) && KeySet(Without(d, k)) == KeySet(d) - {k} && |Without(d, k)| <= |d|
  {
    if d == [] {
      assert KeySet(d) == {};
    } else {
      var n := |d| - 1;
      LastIsNew(d);
      WithoutKeeps(d[..n], k);
      KeySetSnoc(d[..n], d[n]);
      assert d == d[..n] + [d[n]];
      hide DistinctKeys, KeySet;
      if d[n].key != k {
        var rest := Without(d[..n], k);
        NewKeyLast(rest, d[n]);
        KeySetSnoc(rest, d[n]);
      }
    }
  }

  lemma LastIsNew<V>(d: seq<Item<V>>)
    requires d != [] && DistinctKeys(d)
    ensures DistinctKeys(d[..|d| - 1]) && d[|d| - 1].key !in KeySet(d[..|d| - 1])
  {
  }

  lemma NewKeyLast<V>(d: seq<Item<V>>, e: Item<V>)
    requires DistinctKeys(d) && e.key !in KeySet(d)
    ensures DistinctKeys(d + [e])
  {
    assert forall i :: 0 <= i < |d| ==> d[i].key in KeySet(d);
  }

  lemma PutSpec<V>(d: seq<Item<V>>, k: string, v: V, j: string)
    ensures Lookup(Put(d, k, v), j) == if j == k then Some(v) else Lookup(d, j)
  {
    WithoutSpec(d, k, j);
    assert Put(d, k, v)[..|Put(d, k, v)| - 1] == Without(d, k);
  }

  lemma KeySetSnoc<V>(d: seq<Item<V>>, e: Item<V>)
    ensures KeySet(d + [e]) == KeySet(d) + {e.key}
  {
    assert forall i :: 0 <= i < |d| ==> (d + [e])[i] == d[i];
    assert (d + [e])[|d|] == e;
  }

  lemma PutKeeps<V>(d: seq<Item<V>>, k: string, v: V)
    requires DistinctKeys(d)
    ensures DistinctKeys(Put(d, k, v)) && KeySet(Put(d, k, v)) == KeySet(d) + {k}
  {
    WithoutKeeps(d, k);
    var rest := Without(d, k);
    assert forall i :: 0 <= i < |rest| ==> rest[i].key in KeySet(rest);
    KeySetSnoc(rest, Item(k, v));
  }

  /** Dropping entries from the front never changes what is still found. */
  lemma {:induction false} SuffixLookup<V>(d: seq<Item<V>>, n: nat, k: string)
    requires n <= |d|
    ensures Lookup(d[n..], k).Some? ==> Lookup(d[n..], k) == Lookup(d, k)
    decreases |d| - n
  {
    if n < |d| && d[|d| - 1].key != k {
      assert d[n..][..|d| - n - 1] == d[..|d| - 1][n..];
      SuffixLookup(d[..|d| - 1], n, k);
    }
  }

  lemma {:induction false} SizeIsKeys<V>(d: seq<Item<V>>)
    requires DistinctKeys(d)
    ensures |d| == |KeySet(d)|
  {
    if d == [] {
      assert KeySet(d) == {};
    } else {
      var n := |d| - 1;
      SizeIsKeys(d[..n]);
      assert forall i :: 0 <= i < n ==> d[..n][i] == d[i];
      assert KeySet(d) == KeySet(d[..n]) + {d[n].key};
      assert d[n].key !in KeySet(d[..n]);
    }
  }

  // ----- The service -----

  datatype Answer = Answer(ident: string, distanceNm: real, phase: Option<Phase>)

  datatype Held = Held(answer: Answer, trail: seq<Sample>, expiryMs: int)

  /** What observations made of an aircraft: an answer given, with the phase freshly inferred
      for it if any, or the answer dropped. */
  datatype Entry = Shown(icao: string, answer: Answer, inferred: Option<Phase>) | Dropped(icao: string)

  datatype State = State(answers: seq<Item<Answer>>, trails: map<string, seq<Sample>>, lapsed: seq<Item<Held>>, history: seq<Entry>)

  /** A live event: an observation, with the nearest field the index found for it, or a
      removal. */
  datatype Event =
    | Observed(icao: string, positioned: bool, indexLoaded: bool, nearest: Option<Nearby>, kinematics: Kinematics)
    | Removed(icao: string, lastSeenMs: int)

  /** _trail. */
  function TrailOf(s: State, icao: string): seq<Sample> { if icao in s.trails then s.trails[icao] else [] }

  /** _lapse. */
  function Lapse(s: State, icao: string, lastSeenMs: int, graceMs: nat): State {
    var answer := Lookup(s.answers, icao);
    var trail := TrailOf(s, icao);
    State(Without(s.answers, icao), s.trails - {icao},
          if answer.None? || graceMs == 0 then Without(s.lapsed, icao)
          else Newest(Put(s.lapsed, icao, Held(answer.value, trail, lastSeenMs + graceMs))),
          s.history)
  }

  function Newest<V>(d: seq<Item<V>>): seq<Item<V>> {
    if |d| > MAX_TRACKED_AIRCRAFT then d[|d| - MAX_TRACKED_AIRCRAFT..] else d
  }

  /** Expired entries at the front, dropped. */
  function Swept(d: seq<Item<Held>>, nowMs: int): seq<Item<Held>> {
    if d == [] || d[0].value.expiryMs > nowMs then d else Swept(d[1..], nowMs)
  }

  /** _resume. */
  function Resume(s: State, icao: string, nowMs: int): State {
    var swept := Swept(s.lapsed, nowMs);
    var held := Lookup(swept, icao);
    if held.None? || held.value.expiryMs <= nowMs then s.(lapsed := Without(swept, icao))
    else State(Put(s.answers, icao, held.value.answer), s.trails[icao := held.value.trail], Without(swept, icao), s.history)
  }

  /** _remember_sample: the trail with its stale front dropped and one sample more, the oldest
      falling off a full one. */
  function Remembered(trail: seq<Sample>, sample: Sample): seq<Sample> {
    var kept := Pruned(trail, sample.tsMs);
    (if |kept| >= MAX_TRAIL_SAMPLES then kept[|kept| - MAX_TRAIL_SAMPLES + 1..] else kept) + [sample]
  }

  /** _latched. */
  function Latched(held: Option<Answer>, ident: string, inferred: Option<Phase>): Option<Phase> {
    if inferred.Some? then inferred
    else if held.Some? && held.value.ident == ident then held.value.phase
    else None
  }

  function Evict(answers: seq<Item<Answer>>, trails: map<string, seq<Sample>>): map<string, seq<Sample>> {
    if |answers| > MAX_TRACKED_AIRCRAFT then Evict(answers[1..], trails - {answers[0].key}) else trails
  }

  function Looks(e: Event): bool { e.Observed? && e.positioned && e.indexLoaded }

  /** _observe, once the aircraft has a position and an index is loaded. */
  function Answered(s: State, e: Event): State
    requires e.Observed?
  {
    var r := Resume(s, e.icao, e.kinematics.tsMs);
    if e.nearest.None? then
      State(Without(r.answers, e.icao), r.trails - {e.icao}, Without(r.lapsed, e.icao), r.history + [Dropped(e.icao)])
    else
      var n := e.nearest.value;
      var trail := TrailOf(r, e.icao);
      var trails := r.trails[e.icao := Remembered(trail, Sample(n.ident, n.distanceNm, e.kinematics.tsMs))];
      if !InContext(n, e.kinematics) then
        State(Without(r.answers, e.icao), trails, r.lapsed, r.history + [Dropped(e.icao)])
      else
        var inferred := InferPhase(n, e.kinematics, trail);
        var answer := Answer(n.ident, n.distanceNm, Latched(Lookup(r.answers, e.icao), n.ident, inferred));
        var answers := Put(r.answers, e.icao, answer);
        State(Newest(answers), Evict(answers, trails), r.lapsed, r.history + [Shown(e.icao, answer, inferred)])
  }

  /** What is handed to the open sighting. */
  datatype Claim = Claim(ident: string, phase: Option<Phase>, atMs: int)

  /** _persist: an answer without a phase is kept only for an aircraft on the ground. */
  function Persisted(answer: Answer, k: Kinematics): Option<Claim> {
    if answer.phase.None? && k.onGround != Some(true) then None else Some(Claim(answer.ident, answer.phase, k.tsMs))
  }

  /** What one look hands over, if it gives an answer. */
  function ClaimOf(s: State, e: Event): Option<Claim>
    requires Looks(e)
  {
    var h := Answered(s, e).history;
    if h != [] && h[|h| - 1].Shown? then Persisted(h[|h| - 1].answer, e.kinematics) else None
  }

  function Next(s: State, e: Event, graceMs: nat): State {
    if e.Removed? then Lapse(s, e.icao, e.lastSeenMs, graceMs)
    else if Looks(e) then Answered(s, e)
    else s
  }

  function Run(s: State, es: seq<Event>, graceMs: nat): State {
    if es == [] then s else Next(Run(s, es[..|es| - 1], graceMs), es[|es| - 1], graceMs)
  }

  const EMPTY := State([], map[], [], [])

  // ----- One look, exactly -----

  /** Reported at all: within 30 nm and, on the ground, within 3 nm of the field; in the air, at a
      known altitude no more than 10,000 ft above it. */
  predicate Reported(e: Event)
    requires e.Observed?
  {
    && e.nearest.Some? && e.nearest.value.distanceNm <= 30.0
    && if e.kinematics.onGround == Some(true) then e.nearest.value.distanceNm <= 3.0
       else
         && e.kinematics.altitudeFt.Some?
         && e.kinematics.altitudeFt.value <= 10_000.0 + if e.nearest.value.elevationFt.Some? then e.nearest.value.elevationFt.value as real else 0.0
  }

  /** A look gives an answer exactly when the field is to be reported: the nearest field and its
      distance, with a phase freshly inferred from the trail, or else the one last shown if it
      was for the same field. What it hands over is that, when there is a phase or the
      aircraft is on the ground. */
  lemma LookExactly(s: State, e: Event)
    requires Looks(e)
    ensures
      var r, t := Resume(s, e.icao, e.kinematics.tsMs), Answered(s, e);
      if !Reported(e) then t.history == s.history + [Dropped(e.icao)] && Lookup(t.answers, e.icao) == None && ClaimOf(s, e) == None
      else
        var n := e.nearest.value;
        var inferred := InferPhase(n, e.kinematics, TrailOf(r, e.icao));
        var held := Lookup(r.answers, e.icao);
        var phase := if inferred.Some? then inferred else if held.Some? && held.value.ident == n.ident then held.value.phase else None;
        var answer := Answer(n.ident, n.distanceNm, phase);
        && t.history == s.history + [Shown(e.icao, answer, inferred)] && Lookup(t.answers, e.icao) == Some(answer)
        && ClaimOf(s, e) == if phase.Some? || e.kinematics.onGround == Some(true) then Some(Claim(n.ident, phase, e.kinematics.tsMs)) else None
  {
    var r := Resume(s, e.icao, e.kinematics.tsMs);
    WithoutSpec(r.answers, e.icao, e.icao);
    assert r.history == s.history;
    if e.nearest.Some? {
      ReportedIsInContext(e);
      if Reported(e) {
        var n := e.nearest.value;
        var inferred := InferPhase(n, e.kinematics, TrailOf(r, e.icao));
        JustPutIsKept(r.answers, e.icao, Answer(n.ident, n.distanceNm, Latched(Lookup(r.answers, e.icao), n.ident, inferred)));
      }
    }
    hide Resume, InferPhase, InContext, Reported, Evict, Remembered, Without, Put, Newest;
  }

  lemma ReportedIsInContext(e: Event)
    requires e.Observed? && e.nearest.Some?
    ensures Reported(e) <==> InContext(e.nearest.value, e.kinematics)
  {
  }

  /** What was answered last is never the one to be evicted. */
  lemma JustPutIsKept<V>(d: seq<Item<V>>, k: string, v: V)
    ensures Lookup(Newest(Put(d, k, v)), k) == Some(v)
  {
    hide Without;
    var all := Put(d, k, v);
    assert all[|all| - 1] == Item(k, v);
    assert Newest(all)[|Newest(all)| - 1] == Item(k, v);
  }

  /** With no field near, everything about the aircraft is forgotten. */
  lemma NothingNearForgets(s: State, e: Event)
    requires Looks(e) && e.nearest.None?
    ensures var t := Answered(s, e); Lookup(t.answers, e.icao) == None && TrailOf(t, e.icao) == [] && Lookup(t.lapsed, e.icao) == None
  {
    var r := Resume(s, e.icao, e.kinematics.tsMs);
    WithoutSpec(r.answers, e.icao, e.icao);
    WithoutSpec(r.lapsed, e.icao, e.icao);
  }

  lemma {:induction false} WindowJoin(a: seq<Sample>, b: seq<Sample>, nowMs: int)
    ensures Window(a + b, nowMs) == Window(a, nowMs) + Window(b, nowMs)
  {
    if b == [] {
      assert a + b == a;
    } else {
      WindowJoin(a, b[..|b| - 1], nowMs);
      assert (a + b)[..|a + b| - 1] == a + b[..|b| - 1];
    }
  }

  /** A look adds one sample to what later looks see of the last two minutes, and takes none
      away, unless the trail is full. */
  lemma RememberedExactly(trail: seq<Sample>, sample: Sample, nowMs: int)
    requires sample.tsMs <= nowMs && |Pruned(trail, sample.tsMs)| < MAX_TRAIL_SAMPLES
    ensures Window(Remembered(trail, sample), nowMs)
         == Window(trail, nowMs) + if nowMs - sample.tsMs <= TREND_WINDOW_MS then [sample] else []
  {
    var kept := Pruned(trail, sample.tsMs);
    PrunedWindow(trail, sample.tsMs, nowMs);
    WindowJoin(kept, [sample], nowMs);
    assert [sample][..0] == [] && Window([], nowMs) == [];
  }

  /** A trail never holds more than its bound, and always ends with the last sample. */
  lemma RememberedIsBounded(trail: seq<Sample>, sample: Sample)
    ensures
      var t := Remembered(trail, sample);
      && 1 <= |t| && t[|t| - 1] == sample
      && (|Pruned(trail, sample.tsMs)| <= MAX_TRAIL_SAMPLES ==> |t| <= MAX_TRAIL_SAMPLES)
  {
  }

  /** The sample goes to the aircraft's trail whether or not the field is reported. */
  lemma LookRemembers(s: State, e: Event)
    requires Looks(e) && e.nearest.Some? && |Resume(s, e.icao, e.kinematics.tsMs).answers| < MAX_TRACKED_AIRCRAFT
    ensures
      TrailOf(Answered(s, e), e.icao)
      == Remembered(TrailOf(Resume(s, e.icao, e.kinematics.tsMs), e.icao),
                    Sample(e.nearest.value.ident, e.nearest.value.distanceNm, e.kinematics.tsMs))
  {
    var r := Resume(s, e.icao, e.kinematics.tsMs);
    WithoutShortens(r.answers, e.icao);
    hide Resume, InferPhase, InContext, Remembered, Without, Latched, Newest;
  }

  lemma {:induction false} WithoutShortens<V>(d: seq<Item<V>>, k: string)
    ensures |Without(d, k)| <= |d|
  {
    if d != [] {
      WithoutShortens(d[..|d| - 1], k);
    }
  }

  /** Evicting answers drops the trails of the aircraft evicted and no others. */
  lemma {:induction false} EvictExactly(answers: seq<Item<Answer>>, trails: map<string, seq<Sample>>, k: string)
    ensures
      var kept := Evict(answers, trails);
      && (k in kept <==> k in trails && forall i :: 0 <= i < |answers| - MAX_TRACKED_AIRCRAFT ==> answers[i].key != k)
      && (k in kept ==> kept[k] == trails[k])
  {
    if |answers| > MAX_TRACKED_AIRCRAFT {
      EvictExactly(answers[1..], trails - {answers[0].key}, k);
      assert forall i :: 1 <= i < |answers| ==> answers[1..][i - 1] == answers[i];
    }
  }

  lemma StepIsBounded(s: State, e: Event, graceMs: nat)
    requires |s.answers| <= MAX_TRACKED_AIRCRAFT && |s.lapsed| <= MAX_TRACKED_AIRCRAFT
    ensures |Next(s, e, graceMs).answers| <= MAX_TRACKED_AIRCRAFT && |Next(s, e, graceMs).lapsed| <= MAX_TRACKED_AIRCRAFT
  {
    WithoutShortens(s.answers, e.icao);
    WithoutShortens(s.lapsed, e.icao);
    if Looks(e) {
      var r, swept := Resume(s, e.icao, e.kinematics.tsMs), Swept(s.lapsed, e.kinematics.tsMs);
      SweptShortens(s.lapsed, e.kinematics.tsMs);
      WithoutShortens(swept, e.icao);
      WithoutShortens(r.lapsed, e.icao);
      WithoutShortens(r.answers, e.icao);
      ResumedSize(s, e.icao, e.kinematics.tsMs);
    }
    hide Resume, InferPhase, InContext, Remembered, Without, Latched, Evict, Swept, Put;
  }

  /** A resumed aircraft had no answer, or its answer is replaced. */
  lemma ResumedSize(s: State, icao: string, nowMs: int)
    ensures
      var r := Resume(s, icao, nowMs);
      && Without(r.answers, icao) == Without(s.answers, icao)
      && |r.lapsed| <= |s.lapsed|
  {
    var swept := Swept(s.lapsed, nowMs);
    SweptShortens(s.lapsed, nowMs);
    WithoutShortens(swept, icao);
    var held := Lookup(swept, icao);
    if held.Some? && held.value.expiryMs > nowMs {
      WithoutTwice(s.answers, icao);
      assert (Without(s.answers, icao) + [Item(icao, held.value.answer)])[..|Without(s.answers, icao)|] == Without(s.answers, icao);
    }
  }

  lemma {:induction false} WithoutTwice<V>(d: seq<Item<V>>, k: string)
    ensures Without(Without(d, k), k) == Without(d, k)
  {
    if d != [] {
      var n := |d| - 1;
      WithoutTwice(d[..n], k);
      assert (Without(d[..n], k) + [d[n]])[..|Without(d[..n], k)|] == Without(d[..n], k);
    }
  }

  lemma {:induction false} SweptShortens(d: seq<Item<Held>>, nowMs: int)
    ensures |Swept(d, nowMs)| <= |d|
  {
    if d != [] && d[0].value.expiryMs <= nowMs {
      SweptShortens(d[1..], nowMs);
    }
  }

  /** Over any history, no more aircraft are answered for, or set aside, than are tracked. */
  lemma {:induction false} MemoryIsBounded(es: seq<Event>, graceMs: nat)
    ensures var s := Run(EMPTY, es, graceMs); |s.answers| <= MAX_TRACKED_AIRCRAFT && |s.lapsed| <= MAX_TRACKED_AIRCRAFT
  {
    hide Next;
    if es != [] {
      MemoryIsBounded(es[..|es| - 1], graceMs);
      StepIsBounded(Run(EMPTY, es[..|es| - 1], graceMs), es[|es| - 1], graceMs);
    }
  }

  // ----- Every held phase was inferred -----

  /** Entry k inferred this phase for this field, and every entry about the aircraft since is
      an answer for the same field that shows it and inferred nothing else. */
  predicate InferredAt(h: seq<Entry>, icao: string, ident: string, phase: Phase, k: nat) {
    && k < |h| && h[k].icao == icao && h[k].Shown? && h[k].inferred == Some(phase) && h[k].answer.ident == ident
    && forall j :: k < j < |h| && h[j].icao == icao ==>
         h[j].Shown? && h[j].answer.ident == ident && h[j].answer.phase == Some(phase) && h[j].inferred == None
  }

  predicate Justified(h: seq<Entry>, icao: string, a: Answer) {
    a.phase.Some? ==> exists k :: 0 <= k < |h| && InferredAt(h, icao, a.ident, a.phase.value, k)
  }

  /** Every answer, current or set aside. */
  ghost predicate AllJustified(s: State) {
    && (forall icao :: Lookup(s.answers, icao).Some? ==> Justified(s.history, icao, Lookup(s.answers, icao).value))
    && (forall icao :: Lookup(s.lapsed, icao).Some? ==> Justified(s.history, icao, Lookup(s.lapsed, icao).value.answer))
  }

  lemma {:induction false} SweptSpec(d: seq<Item<Held>>, nowMs: int, k: string)
    ensures Lookup(Swept(d, nowMs), k).Some? ==> Lookup(Swept(d, nowMs), k) == Lookup(d, k)
    ensures Lookup(d, k).Some? && Lookup(d, k).value.expiryMs > nowMs ==> Lookup(Swept(d, nowMs), k) == Lookup(d, k)
  {
    if d != [] && d[0].value.expiryMs <= nowMs {
      SweptSpec(d[1..], nowMs, k);
      SuffixLookup(d, 1, k);
      TailLookup(d, k);
    }
  }

  /** Losing the first entry loses only a key that is nowhere else. */
  lemma {:induction false} TailLookup<V>(d: seq<Item<V>>, k: string)
    requires d != []
    ensures Lookup(d, k).Some? && Lookup(d[1..], k).None? ==> Lookup(d, k) == Some(d[0].value)
  {
    if |d| > 1 && d[|d| - 1].key != k {
      assert d[1..][..|d| - 2] == d[..|d| - 1][1..];
      TailLookup(d[..|d| - 1], k);
    }
  }

  lemma NewestSpec<V>(d: seq<Item<V>>, k: string)
    ensures Lookup(Newest(d), k).Some? ==> Lookup(Newest(d), k) == Lookup(d, k)
  {
    if |d| > MAX_TRACKED_AIRCRAFT {
      SuffixLookup(d, |d| - MAX_TRACKED_AIRCRAFT, k);
    }
  }

  lemma LapseKeeps(s: State, icao: string, lastSeenMs: int, graceMs: nat)
    requires AllJustified(s)
    ensures AllJustified(Lapse(s, icao, lastSeenMs, graceMs))
  {
    hide Justified, Newest, Put;
    var t := Lapse(s, icao, lastSeenMs, graceMs);
    forall j | Lookup(t.answers, j).Some? ensures Justified(t.history, j, Lookup(t.answers, j).value) {
      WithoutSpec(s.answers, icao, j);
    }
    forall j | Lookup(t.lapsed, j).Some? ensures Justified(t.history, j, Lookup(t.lapsed, j).value.answer) {
      WithoutSpec(s.lapsed, icao, j);
      if Lookup(s.answers, icao).Some? {
        var trail := TrailOf(s, icao);
        var held := Held(Lookup(s.answers, icao).value, trail, lastSeenMs + graceMs);
        PutSpec(s.lapsed, icao, held, j);
        NewestSpec(Put(s.lapsed, icao, held), j);
      }
    }
  }

  /** Resuming restores only what was set aside, and leaves nothing set aside for the aircraft. */
  lemma ResumeLookup(s: State, icao: string, nowMs: int, j: string)
    ensures
      var r := Resume(s, icao, nowMs);
      && r.history == s.history
      && (Lookup(r.lapsed, j).Some? ==> j != icao && Lookup(r.lapsed, j) == Lookup(s.lapsed, j))
      && (Lookup(r.answers, j) == Lookup(s.answers, j)
          || (j == icao && Lookup(s.lapsed, icao).Some? && Lookup(r.answers, j) == Some(Lookup(s.lapsed, icao).value.answer)))
  {
    hide Put;
    var swept := Swept(s.lapsed, nowMs);
    SweptSpec(s.lapsed, nowMs, icao);
    SweptSpec(s.lapsed, nowMs, j);
    WithoutSpec(swept, icao, j);
    if Lookup(swept, icao).Some? {
      PutSpec(s.answers, icao, Lookup(swept, icao).value.answer, j);
    }
  }

  lemma ResumeKeeps(s: State, icao: string, nowMs: int)
    requires AllJustified(s)
    ensures AllJustified(Resume(s, icao, nowMs))
    ensures Lookup(Resume(s, icao, nowMs).lapsed, icao).None?
  {
    hide Justified, Resume;
    forall j {
      ResumeLookup(s, icao, nowMs, j);
    }
  }

  lemma JustifiedOther(h: seq<Entry>, e: Entry, icao: string, a: Answer)
    requires e.icao != icao && Justified(h, icao, a)
    ensures Justified(h + [e], icao, a)
  {
    if a.phase.Some? {
      var k :| 0 <= k < |h| && InferredAt(h, icao, a.ident, a.phase.value, k);
      assert InferredAt(h + [e], icao, a.ident, a.phase.value, k);
    }
  }

  /** The latch hands on a justification or starts a new one. */
  lemma LatchJustifies(h: seq<Entry>, icao: string, held: Option<Answer>, n: Nearby, inferred: Option<Phase>)
    requires held.Some? ==> Justified(h, icao, held.value)
    ensures
      var answer := Answer(n.ident, n.distanceNm, Latched(held, n.ident, inferred));
      Justified(h + [Shown(icao, answer, inferred)], icao, answer)
  {
    var answer := Answer(n.ident, n.distanceNm, Latched(held, n.ident, inferred));
    var more := h + [Shown(icao, answer, inferred)];
    if inferred.Some? {
      assert InferredAt(more, icao, n.ident, inferred.value, |h|);
    } else if answer.phase.Some? {
      var k :| 0 <= k < |h| && InferredAt(h, icao, held.value.ident, held.value.phase.value, k);
      assert InferredAt(more, icao, n.ident, answer.phase.value, k);
    }
  }

  lemma AnsweredKeeps(s: State, e: Event)
    requires AllJustified(s) && e.Observed?
    ensures AllJustified(Answered(s, e))
  {
    var r, t := Resume(s, e.icao, e.kinematics.tsMs), Answered(s, e);
    ResumeKeeps(s, e.icao, e.kinematics.tsMs);
    hide Resume, Justified, InferPhase, InContext, Newest, Put, Evict, Latched, Remembered;
    var entry := t.history[|r.history|];
    assert t.history == r.history + [entry] && entry.icao == e.icao;
    forall j | Lookup(t.lapsed, j).Some? ensures Justified(t.history, j, Lookup(t.lapsed, j).value.answer) {
      WithoutSpec(r.lapsed, e.icao, j);
      JustifiedOther(r.history, entry, j, Lookup(t.lapsed, j).value.answer);
    }
    forall j | Lookup(t.answers, j).Some? ensures Justified(t.history, j, Lookup(t.answers, j).value) {
      WithoutSpec(r.answers, e.icao, j);
      if e.nearest.Some? && InContext(e.nearest.value, e.kinematics) {
        var n := e.nearest.value;
        var answer := entry.answer;
        assert t.answers == Newest(Put(r.answers, e.icao, answer));
        PutSpec(r.answers, e.icao, answer, j);
        NewestSpec(Put(r.answers, e.icao, answer), j);
        LatchJustifies(r.history, e.icao, Lookup(r.answers, e.icao), n, entry.inferred);
      }
      if j != e.icao {
        JustifiedOther(r.history, entry, j, Lookup(t.answers, j).value);
      }
    }
  }

  /** Over any history of observations and removals, a phase that is shown or set aside was
      inferred at some earlier observation, for the same field, and every answer given since
      names that field and shows that phase: nothing revives a phase, moves it to another field
      or carries it over a dropped answer. */
  lemma {:induction false} HeldPhasesWereInferred(es: seq<Event>, graceMs: nat)
    ensures AllJustified(Run(EMPTY, es, graceMs))
  {
    if es != [] {
      var n := |es| - 1;
      var s := Run(EMPTY, es[..n], graceMs);
      HeldPhasesWereInferred(es[..n], graceMs);
      if es[n].Removed? {
        LapseKeeps(s, es[n].icao, es[n].lastSeenMs, graceMs);
      } else {
        AnsweredKeeps(s, es[n]);
      }
    }
  }

  lemma CurrentIsJustified(s: State, icao: string)
    requires AllJustified(s) && Lookup(s.answers, icao).Some?
    ensures Justified(s.history, icao, Lookup(s.answers, icao).value)
  {
  }

  /** Nothing is claimed in history on less than the gates: a claim with a phase has an inference
      behind it, unrevoked since; one without is of an aircraft on the ground within three miles
      of the field. */
  lemma ClaimsAreJustified(es: seq<Event>, graceMs: nat, e: Event)
    requires Looks(e) && ClaimOf(Run(EMPTY, es, graceMs), e).Some?
    ensures
      var s, c := Run(EMPTY, es, graceMs), ClaimOf(Run(EMPTY, es, graceMs), e).value;
      && e.nearest.Some? && c.ident == e.nearest.value.ident && c.atMs == e.kinematics.tsMs
      && (c.phase.Some? ==>
            exists k :: 0 <= k < |Answered(s, e).history| && InferredAt(Answered(s, e).history, e.icao, c.ident, c.phase.value, k))
      && (c.phase.None? ==> e.kinematics.onGround == Some(true) && e.nearest.value.distanceNm <= ON_GROUND_MAX_DISTANCE_NM)
  {
    hide Resume, InferPhase, Answered, ClaimOf, Lookup, Run, AllJustified, InferredAt;
    var s := Run(EMPTY, es, graceMs);
    HeldPhasesWereInferred(es, graceMs);
    AnsweredKeeps(s, e);
    LookExactly(s, e);
    CurrentIsJustified(Answered(s, e), e.icao);
  }

  // ----- The grace window is exact -----

  ghost predicate Tidy(s: State, all: set<string>) {
    DistinctKeys(s.lapsed) && KeySet(s.lapsed) <= all
  }

  lemma {:induction false} SweptKeeps(d: seq<Item<Held>>, nowMs: int)
    requires DistinctKeys(d)
    ensures DistinctKeys(Swept(d, nowMs)) && KeySet(Swept(d, nowMs)) <= KeySet(d)
  {
    if d != [] && d[0].value.expiryMs <= nowMs {
      SweptKeeps(d[1..], nowMs);
      assert KeySet(d[1..]) <= KeySet(d) by {
        assert forall i :: 0 <= i < |d| - 1 ==> d[1..][i] == d[i + 1];
      }
    }
  }

  /** While at most MAX_TRACKED_AIRCRAFT aircraft are involved, nothing set aside is evicted. */
  lemma NothingEvicted(d: seq<Item<Held>>, k: string, held: Held, all: set<string>)
    requires DistinctKeys(d) && KeySet(d) <= all && k in all && |all| <= MAX_TRACKED_AIRCRAFT
    ensures Newest(Put(d, k, held)) == Put(d, k, held)
    ensures DistinctKeys(Put(d, k, held)) && KeySet(Put(d, k, held)) <= all
  {
    PutKeeps(d, k, held);
    SizeIsKeys(Put(d, k, held));
    SubsetSize(KeySet(Put(d, k, held)), all);
  }

  lemma {:induction false} SubsetSize(a: set<string>, b: set<string>)
    requires a <= b
    ensures |a| <= |b|
    decreases a
  {
    if a != {} {
      var x :| x in a;
      SubsetSize(a - {x}, b - {x});
    }
  }

  lemma StepTidy(s: State, e: Event, graceMs: nat, all: set<string>)
    requires Tidy(s, all) && e.icao in all && |all| <= MAX_TRACKED_AIRCRAFT
    ensures Tidy(Next(s, e, graceMs), all)
  {
    WithoutKeeps(s.lapsed, e.icao);
    if e.Removed? {
      var answer := Lookup(s.answers, e.icao);
      if answer.Some? {
        NothingEvicted(s.lapsed, e.icao, Held(answer.value, TrailOf(s, e.icao), e.lastSeenMs + graceMs), all);
      }
    } else {
      var swept := Swept(s.lapsed, e.kinematics.tsMs);
      SweptKeeps(s.lapsed, e.kinematics.tsMs);
      WithoutKeeps(swept, e.icao);
      WithoutKeeps(Without(swept, e.icao), e.icao);
    }
    hide DistinctKeys, KeySet, Put, Newest, InferPhase, InContext, Evict, Latched, Remembered, Without, Swept;
  }

  /** The aircraft has no answer, and what was set aside for it is exactly `held` while that
      could still be resumed at nowMs. */
  ghost predicate Waiting(s: State, icao: string, held: Held, nowMs: int) {
    && Lookup(s.answers, icao) == None && icao !in s.trails
    && (Lookup(s.lapsed, icao) == None || Lookup(s.lapsed, icao) == Some(held))
    && (nowMs < held.expiryMs ==> Lookup(s.lapsed, icao) == Some(held))
  }

  /** Events that leave a waiting aircraft waiting: it is neither removed again nor looked at,
      and nobody is looked at later than nowMs. */
  predicate Meanwhile(e: Event, icao: string, nowMs: int) {
    && (e.icao == icao ==> e.Observed? && !Looks(e))
    && (Looks(e) ==> e.kinematics.tsMs <= nowMs)
  }

  lemma RemovalWaits(s: State, icao: string, lastSeenMs: int, nowMs: int, graceMs: nat, all: set<string>) returns (held: Held)
    requires Tidy(s, all) && icao in all && |all| <= MAX_TRACKED_AIRCRAFT && 0 < graceMs
    requires Lookup(s.answers, icao).Some?
    ensures held == Held(Lookup(s.answers, icao).value, TrailOf(s, icao), lastSeenMs + graceMs)
    ensures Waiting(Next(s, Removed(icao, lastSeenMs), graceMs), icao, held, nowMs)
  {
    held := Held(Lookup(s.answers, icao).value, TrailOf(s, icao), lastSeenMs + graceMs);
    WithoutSpec(s.answers, icao, icao);
    NothingEvicted(s.lapsed, icao, held, all);
    PutSpec(s.lapsed, icao, held, icao);
  }

  lemma OtherLapses(s: State, j: string, lastSeenMs: int, icao: string, held: Held, nowMs: int, graceMs: nat, all: set<string>)
    requires Waiting(s, icao, held, nowMs) && j != icao
    requires Tidy(s, all) && j in all && |all| <= MAX_TRACKED_AIRCRAFT
    ensures Waiting(Lapse(s, j, lastSeenMs, graceMs), icao, held, nowMs)
  {
    hide Put, Newest;
    WithoutSpec(s.answers, j, icao);
    WithoutSpec(s.lapsed, j, icao);
    var answer := Lookup(s.answers, j);
    if answer.Some? {
      var other := Held(answer.value, TrailOf(s, j), lastSeenMs + graceMs);
      NothingEvicted(s.lapsed, j, other, all);
      PutSpec(s.lapsed, j, other, icao);
    }
  }

  lemma {:induction false} EvictOnlyDrops(answers: seq<Item<Answer>>, trails: map<string, seq<Sample>>)
    ensures Evict(answers, trails).Keys <= trails.Keys
  {
    if |answers| > MAX_TRACKED_AIRCRAFT {
      EvictOnlyDrops(answers[1..], trails - {answers[0].key});
    }
  }

  lemma OtherAnswers(s: State, e: Event, icao: string, held: Held, nowMs: int)
    requires Waiting(s, icao, held, nowMs) && e.Observed? && e.icao != icao && e.kinematics.tsMs <= nowMs
    ensures Waiting(Answered(s, e), icao, held, nowMs)
  {
    var swept := Swept(s.lapsed, e.kinematics.tsMs);
    var r, t := Resume(s, e.icao, e.kinematics.tsMs), Answered(s, e);
    ResumeLookup(s, e.icao, e.kinematics.tsMs, icao);
    SweptSpec(s.lapsed, e.kinematics.tsMs, icao);
    WithoutSpec(swept, e.icao, icao);
    WithoutSpec(r.lapsed, e.icao, icao);
    WithoutSpec(r.answers, e.icao, icao);
    assert r.lapsed == Without(swept, e.icao) && icao !in r.trails;
    hide Resume, InferPhase, InContext, Newest, Put, Evict, Latched, Remembered, Swept;
    if e.nearest.Some? && InContext(e.nearest.value, e.kinematics) {
      var answer := t.history[|r.history|].answer;
      assert t.answers == Newest(Put(r.answers, e.icao, answer));
      PutSpec(r.answers, e.icao, answer, icao);
      NewestSpec(Put(r.answers, e.icao, answer), icao);
      var n := e.nearest.value;
      EvictOnlyDrops(Put(r.answers, e.icao, answer),
                     r.trails[e.icao := Remembered(TrailOf(r, e.icao), Sample(n.ident, n.distanceNm, e.kinematics.tsMs))]);
    }
  }

  lemma {:induction false} WaitsThrough(s: State, mid: seq<Event>, icao: string, held: Held, nowMs: int, graceMs: nat, all: set<string>)
    requires Waiting(s, icao, held, nowMs) && Tidy(s, all) && |all| <= MAX_TRACKED_AIRCRAFT
    requires forall e :: e in mid ==> Meanwhile(e, icao, nowMs) && e.icao in all
    ensures Waiting(Run(s, mid, graceMs), icao, held, nowMs) && Tidy(Run(s, mid, graceMs), all)
  {
    hide Waiting, Tidy, Answered, Lapse;
    if mid != [] {
      var n := |mid| - 1;
      WaitsThrough(s, mid[..n], icao, held, nowMs, graceMs, all);
      var t, e := Run(s, mid[..n], graceMs), mid[n];
      assert e in mid;
      StepTidy(t, e, graceMs, all);
      if e.Removed? {
        OtherLapses(t, e.icao, e.lastSeenMs, icao, held, nowMs, graceMs, all);
      } else if Looks(e) {
        OtherAnswers(t, e, icao, held, nowMs);
      }
    }
  }

  /** The grace window is exact. An aircraft with an answer is removed; whatever other aircraft
      do, it is next looked at (a position, an index loaded) at nowMs. Then its answer and
      trail are taken back if and only if nowMs is before its last sighting plus the grace,
      provided nobody was looked at later than nowMs in between and no more aircraft are
      involved than the service tracks. */
  lemma ResumedExactlyInGrace(s: State, icao: string, lastSeenMs: int, mid: seq<Event>, nowMs: int, graceMs: nat, all: set<string>)
    requires Tidy(s, all) && icao in all && |all| <= MAX_TRACKED_AIRCRAFT && 0 < graceMs
    requires Lookup(s.answers, icao).Some?
    requires forall e :: e in mid ==> Meanwhile(e, icao, nowMs) && e.icao in all
    ensures
      var t := Run(Next(s, Removed(icao, lastSeenMs), graceMs), mid, graceMs);
      var r := Resume(t, icao, nowMs);
      && (nowMs < lastSeenMs + graceMs ==>
            Lookup(r.answers, icao) == Lookup(s.answers, icao) && TrailOf(r, icao) == TrailOf(s, icao))
      && (nowMs >= lastSeenMs + graceMs ==> Lookup(r.answers, icao) == None && TrailOf(r, icao) == [])
  {
    var first := Next(s, Removed(icao, lastSeenMs), graceMs);
    var held := RemovalWaits(s, icao, lastSeenMs, nowMs, graceMs, all);
    StepTidy(s, Removed(icao, lastSeenMs), graceMs, all);
    WaitsThrough(first, mid, icao, held, nowMs, graceMs, all);
    ResumeWaiting(Run(first, mid, graceMs), icao, held, nowMs);
  }

  lemma ResumeWaiting(t: State, icao: string, held: Held, nowMs: int)
    requires Waiting(t, icao, held, nowMs)
    ensures
      var r := Resume(t, icao, nowMs);
      if nowMs < held.expiryMs then Lookup(r.answers, icao) == Some(held.answer) && TrailOf(r, icao) == held.trail
      else Lookup(r.answers, icao) == None && TrailOf(r, icao) == []
  {
    hide Put;
    SweptSpec(t.lapsed, nowMs, icao);
    PutSpec(t.answers, icao, held.answer, icao);
  }

  /** What the map then draws: observed again at the same field, low enough to report and with
      no phase of its own to infer, the aircraft shows the phase it left with when it is back
      within the grace, and none when it is not. */
  lemma ApproachContinuesExactly(s: State, icao: string, lastSeenMs: int, mid: seq<Event>, e: Event, graceMs: nat, all: set<string>)
    requires Tidy(s, all) && icao in all && |all| <= MAX_TRACKED_AIRCRAFT && 0 < graceMs
    requires Lookup(s.answers, icao).Some?
    requires Looks(e) && e.icao == icao && forall x :: x in mid ==> Meanwhile(x, icao, e.kinematics.tsMs) && x.icao in all
    requires
      var before := Lookup(s.answers, icao).value;
      && e.nearest.Some? && e.nearest.value.ident == before.ident && InContext(e.nearest.value, e.kinematics)
      && InferPhase(e.nearest.value, e.kinematics, if e.kinematics.tsMs < lastSeenMs + graceMs then TrailOf(s, icao) else []) == None
    ensures
      var t := Run(Next(s, Removed(icao, lastSeenMs), graceMs), mid, graceMs);
      Answered(t, e).history == t.history + [Shown(icao, Answer(e.nearest.value.ident, e.nearest.value.distanceNm,
        if e.kinematics.tsMs < lastSeenMs + graceMs then Lookup(s.answers, icao).value.phase else None), None)]
  {
    var nowMs := e.kinematics.tsMs;
    var t := Run(Next(s, Removed(icao, lastSeenMs), graceMs), mid, graceMs);
    ResumedExactlyInGrace(s, icao, lastSeenMs, mid, nowMs, graceMs, all);
    var r := Resume(t, icao, nowMs);
    assert r.history == t.history;
    hide Resume, InferPhase, InContext, Newest, Put, Evict, Remembered, Run, Next, Without;
  }

  /** With no grace nothing is set aside, and an aircraft without a position, or before the index
      is loaded, changes nothing. */
  lemma NothingSetAside(s: State, e: Event)
    ensures e.Removed? ==> Lookup(Next(s, e, 0).lapsed, e.icao) == None && Lookup(Next(s, e, 0).answers, e.icao) == None
    ensures e.Observed? && !(e.positioned && e.indexLoaded) ==> Next(s, e, 0) == s
  {
    WithoutSpec(s.answers, e.icao, e.icao);
    WithoutSpec(s.lapsed, e.icao, e.icao);
  }

  /** Removed twice with nothing seen between, the aircraft loses what was set aside. */
  lemma SecondRemovalDrops(s: State, icao: string, firstMs: int, secondMs: int, graceMs: nat)
    ensures
      var t := Next(Next(s, Removed(icao, firstMs), graceMs), Removed(icao, secondMs), graceMs);
      Lookup(t.answers, icao) == None && Lookup(t.lapsed, icao) == None
  {
    var t := Next(s, Removed(icao, firstMs), graceMs);
    WithoutSpec(s.answers, icao, icao);
    WithoutSpec(t.answers, icao, icao);
    WithoutSpec(t.lapsed, icao, icao);
  }

  /** The condition on the clocks is needed: one aircraft looked at past the other's expiry
      sweeps it away, and a later look with an earlier timestamp finds nothing. */
  lemma EarlierTimestampFindsNothing(s: State, icao: string, e: Event, nowMs: int)
    requires |s.lapsed| == 1 && s.lapsed[0].key == icao && Lookup(s.answers, icao) == None
    requires Looks(e) && e.icao != icao && e.nearest == None
    requires nowMs < s.lapsed[0].value.expiryMs <= e.kinematics.tsMs
    ensures Lookup(Resume(Answered(s, e), icao, nowMs).answers, icao) == None
  {
    assert Swept(s.lapsed, e.kinematics.tsMs) == [] by {
      assert Swept(s.lapsed[1..], e.kinematics.tsMs) == [];
    }
    WithoutSpec(s.answers, e.icao, icao);
  }
}
