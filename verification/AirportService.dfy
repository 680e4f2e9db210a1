/** The airport context service as an object: ordered dictionaries changed in place, each
    method proved to be the step PhaseLatch reasons about. */
module AirportContext {
  import Grid
  import opened PhaseLatch
  import opened Wrappers

  datatype Position = Position(lat: real, lon: real)

  /** The field nearest to a position, as the gates read it. */
  function NearbyOf(best: Option<Grid.Nearest>): Option<Nearby> {
    if best.None? then None
    else Some(Nearby(best.value.airport.ident, best.value.distanceNm, best.value.airport.elevationFt))
  }

  class AirportContextService {
    const graceMs: nat
    var index: Grid.AirportIndex
    var answers: seq<Item<Answer>>
    var trails: map<string, seq<Sample>>
    var lapsed: seq<Item<Held>>
    ghost var history: seq<Entry>

    ghost function State(): State
      reads this
    {
      PhaseLatch.State(answers, trails, lapsed, history)
    }

    constructor (graceMs: nat, index: Grid.AirportIndex)
      ensures State() == EMPTY && this.graceMs == graceMs && this.index == index
    {
      this.graceMs := graceMs;
      this.index := index;
      answers, trails, lapsed, history := [], map[], [], [];
    }

    /** One observation from the live layer: the nearest field is the index's answer within the
        search radius, and what the event gives is the state machine's step for it. */
    method ConsiderLive(icao: string, position: Option<Position>, k: Kinematics,
                        dist: Grid.Airport -> real, cosDeg: real -> real) returns (claim: Option<Claim>, ghost e: Event)
      requires index.Valid() && Grid.PositiveBelowPolar(cosDeg)
      modifies this
      ensures e.Observed? && e == Observed(icao, position.Some?, index.airports != [], e.nearest, k)
      ensures index == old(index) && State() == Next(old(State()), e, graceMs)
      ensures claim == if Looks(e) then ClaimOf(old(State()), e) else None
      ensures Looks(e) ==>
                exists best: Option<Grid.Nearest> ::
                  && (e.nearest == if best.None? then None
                                   else Some(Nearby(best.value.airport.ident, best.value.distanceNm, best.value.airport.elevationFt)))
                  && Grid.IsNearest(best, Grid.Reached(Grid.AirportSet(index.airports), position.value.lat, position.value.lon, NEAREST_SEARCH_NM, cosDeg),
                                    dist, NEAREST_SEARCH_NM)
      ensures Looks(e) ==>
                forall a :: a in index.airports && dist(a) <= NEAREST_SEARCH_NM
                            && Grid.InSpans(a, position.value.lat, position.value.lon, NEAREST_SEARCH_NM, cosDeg) ==>
                  e.nearest.Some? && e.nearest.value.distanceNm <= dist(a)
    {
      e := Observed(icao, position.Some?, index.airports != [], None, k);
      claim := None;
      if position.None? || index.cells == map[] {
        return;
      }
      var best := index.FindNearest(position.value.lat, position.value.lon, NEAREST_SEARCH_NM, dist, cosDeg);
      e := Observed(icao, true, true, NearbyOf(best), k);
      claim := Observe(Observed(icao, true, true, NearbyOf(best), k));
    }

    /** reload: the new index is swapped in whole. */
    method Reload(index: Grid.AirportIndex)
      modifies `index
      ensures this.index == index && State() == old(State())
    {
      this.index := index;
    }

    /** consider: removals are set aside, looks are answered, everything else is ignored. */
    method Consider(e: Event) returns (claim: Option<Claim>)
      modifies this
      ensures State() == Next(old(State()), e, graceMs) && index == old(index)
      ensures claim == if Looks(e) then ClaimOf(old(State()), e) else None
    {
      claim := None;
      if e.Removed? {
        LapseOne(e.icao, e.lastSeenMs);
      } else if e.positioned && e.indexLoaded {
        claim := Observe(e);
      }
    }

    method LapseOne(icao: string, lastSeenMs: int)
      modifies `answers, `trails, `lapsed
      ensures State() == Lapse(old(State()), icao, lastSeenMs, graceMs) && index == old(index)
    {
      hide Without;
      var answer := Lookup(answers, icao);
      var trail := if icao in trails then trails[icao] else [];
      answers := Without(answers, icao);
      trails := trails - {icao};
      if answer.None? || graceMs == 0 {
        lapsed := Without(lapsed, icao);
        return;
      }
      lapsed := Put(lapsed, icao, Held(answer.value, trail, lastSeenMs + graceMs));
      ghost var all := lapsed;
      while |lapsed| > MAX_TRACKED_AIRCRAFT
        invariant lapsed == all || (|lapsed| >= MAX_TRACKED_AIRCRAFT && |lapsed| <= |all| && lapsed == all[|all| - |lapsed|..])
        invariant answers == old(Without(answers, icao)) && trails == old(trails) - {icao} && history == old(history)
        decreases |lapsed|
      {
        assert lapsed == all[|all| - |lapsed|..];
        lapsed := lapsed[1..];
      }
      assert lapsed == Newest(all);
    }

    method ResumeOne(icao: string, nowMs: int)
      modifies `answers, `trails, `lapsed
      ensures State() == Resume(old(State()), icao, nowMs)
    {
      hide Without;
      while lapsed != [] && lapsed[0].value.expiryMs <= nowMs
        invariant Swept(lapsed, nowMs) == old(Swept(lapsed, nowMs))
        invariant answers == old(answers) && trails == old(trails)
        decreases |lapsed|
      {
        lapsed := lapsed[1..];
      }
      var held := Lookup(lapsed, icao);
      lapsed := Without(lapsed, icao);
      if held.None? || held.value.expiryMs <= nowMs {
        return;
      }
      answers := Put(answers, icao, held.value.answer);
      trails := trails[icao := held.value.trail];
    }

    /** _remember_sample. */
    method Remember(icao: string, sample: Sample)
      modifies `trails
      ensures trails == old(trails)[icao := Remembered(TrailOf(old(State()), icao), sample)]
    {
      var trail := if icao in trails then trails[icao] else [];
      ghost var whole := trail;
      while trail != [] && trail[0].tsMs < sample.tsMs - TREND_WINDOW_MS
        invariant Pruned(trail, sample.tsMs) == Pruned(whole, sample.tsMs)
        decreases |trail|
      {
        trail := trail[1..];
      }
      if |trail| >= MAX_TRAIL_SAMPLES {
        trail := trail[|trail| - MAX_TRAIL_SAMPLES + 1..];
      }
      trails := trails[icao := trail + [sample]];
    }

    method EvictOldest()
      modifies `answers, `trails
      ensures answers == Newest(old(answers)) && trails == Evict(old(answers), old(trails))
    {
      ghost var all := answers;
      while |answers| > MAX_TRACKED_AIRCRAFT
        invariant Evict(answers, trails) == Evict(all, old(trails))
        invariant answers == all || (|answers| >= MAX_TRACKED_AIRCRAFT && |answers| <= |all| && answers == all[|all| - |answers|..])
        decreases |answers|
      {
        assert answers == all[|all| - |answers|..];
        trails := trails - {answers[0].key};
        answers := answers[1..];
      }
    }

    /** _observe, with what it hands to the open sighting. */
    method Observe(e: Event) returns (claim: Option<Claim>)
      requires Looks(e)
      modifies `answers, `trails, `lapsed, `history
      ensures State() == Answered(old(State()), e)
      ensures claim == ClaimOf(old(State()), e)
    {
      claim := None;
      hide InferPhase, InContext, Without, Put, Newest, Evict, Remembered, Resume;
      ResumeOne(e.icao, e.kinematics.tsMs);
      ghost var r := State();
      if e.nearest.None? {
        answers := Without(answers, e.icao);
        trails := trails - {e.icao};
        lapsed := Without(lapsed, e.icao);
        history := history + [Dropped(e.icao)];
        return;
      }
      var n := e.nearest.value;
      var trail := if e.icao in trails then trails[e.icao] else [];
      Remember(e.icao, Sample(n.ident, n.distanceNm, e.kinematics.tsMs));
      if !InContext(n, e.kinematics) {
        answers := Without(answers, e.icao);
        history := history + [Dropped(e.icao)];
        return;
      }
      var inferred := InferPhase(n, e.kinematics, trail);
      var answer := Answer(n.ident, n.distanceNm, Latched(Lookup(answers, e.icao), n.ident, inferred));
      answers := Put(answers, e.icao, answer);
      EvictOldest();
      history := history + [Shown(e.icao, answer, inferred)];
      if answer.phase.Some? || e.kinematics.onGround == Some(true) {
        claim := Some(Claim(answer.ident, answer.phase, e.kinematics.tsMs));
      }
    }
  }
}
