/** The nearest-airport grid (airports/index.py): half-degree cells, clamped in latitude and
    cyclic in longitude.

    The distance from the query point and the cosine are parameters: nothing is assumed of
    the first, and of the second only that it is positive below the polar bands. */
module Grid {
  import opened Numbers
  import opened Wrappers

  const LAT_CELLS := 360
  const LON_CELLS := 720
  const POLAR_LATITUDE_DEG := 85.0

  datatype Airport = Airport(ident: string, iata: Option<string>, name: string, lat: real, lon: real, elevationFt: Option<int>)

  datatype Nearest = Nearest(airport: Airport, distanceNm: real)

  type Cell = (int, int)

  // ----- Cells -----

  function Ceiling(x: real): int { -((-x).Floor) }

  function LatCell(lat: real): (c: int)
    ensures 0 <= c < LAT_CELLS
  {
    var c := Truncate((lat + 90.0) / 0.5);
    var atLeast := if c < 0 then 0 else c;
    if atLeast > LAT_CELLS - 1 then LAT_CELLS - 1 else atLeast
  }

  /** The remainder modulo 360, never negative, as the source's operator has it. */
  function Wrapped(x: real): (r: real)
    ensures 0.0 <= r < 360.0
  {
    x - 360.0 * (x / 360.0).Floor as real
  }

  function LonCell(lon: real): (c: int)
    ensures 0 <= c < LON_CELLS
  {
    Truncate(Wrapped(lon + 180.0) / 0.5) % LON_CELLS
  }

  function CellOf(a: Airport): Cell { (LatCell(a.lat), LonCell(a.lon)) }

  function LatSpan(withinNm: real): int { Ceiling(withinNm / 60.0 / 0.5) }

  function BandLatitude(latCell: int): real { Abs((latCell as real + 0.5) * 0.5 - 90.0) }

  ghost predicate PositiveBelowPolar(cosDeg: real -> real) { forall x :: 0.0 <= x < POLAR_LATITUDE_DEG ==> cosDeg(x) > 0.0 }

  /** Degrees of longitude the radius spans in a band, and whether the band is walked whole. */
  function SpanDeg(latCell: int, withinNm: real, cosDeg: real -> real): real
    requires PositiveBelowPolar(cosDeg) && BandLatitude(latCell) < POLAR_LATITUDE_DEG
  {
    withinNm / (60.0 * cosDeg(BandLatitude(latCell)))
  }

  predicate WholeBand(latCell: int, withinNm: real, cosDeg: real -> real)
    requires PositiveBelowPolar(cosDeg)
  {
    BandLatitude(latCell) >= POLAR_LATITUDE_DEG || SpanDeg(latCell, withinNm, cosDeg) >= 180.0
  }

  /** The longitude cell lies within `span` cells of the centre, going round. */
  predicate CyclicallyWithin(lonCell: int, centre: int, span: int) {
    exists offset :: -span <= offset <= span && At(centre, offset) == lonCell
  }

  function At(centre: int, offset: int): int { (centre + offset) % LON_CELLS }

  /** The cells a query walks. */
  predicate Walked(cell: Cell, lat: real, lon: real, withinNm: real, cosDeg: real -> real)
    requires PositiveBelowPolar(cosDeg)
  {
    && 0 <= cell.0 < LAT_CELLS && 0 <= cell.1 < LON_CELLS
    && LatCell(lat) - LatSpan(withinNm) <= cell.0 <= LatCell(lat) + LatSpan(withinNm)
    && (WholeBand(cell.0, withinNm, cosDeg)
        || CyclicallyWithin(cell.1, LonCell(lon), Ceiling(SpanDeg(cell.0, withinNm, cosDeg) / 0.5)))
  }

  // ----- No point within the spans is missed -----

  /** Doubled degrees, truncated and clamped, move by no more cells than the degrees do. */
  lemma LatCellsApart(p: real, q: real, d: real)
    requires Abs(p - q) <= d
    ensures LatCell(p) - Ceiling(d / 0.5) <= LatCell(q) <= LatCell(p) + Ceiling(d / 0.5)
  {
    assert Abs((p + 90.0) / 0.5 - (q + 90.0) / 0.5) <= d / 0.5;
  }

  /** Wrapping only moves the cell index by whole turns. */
  lemma LonCellTurns(lon: real) returns (turns: int)
    ensures LonCell(lon) == ((lon + 180.0) / 0.5).Floor - LON_CELLS * turns
  {
    turns := ((lon + 180.0) / 360.0).Floor;
    var u := Wrapped(lon + 180.0);
    assert u / 0.5 == (lon + 180.0) / 0.5 - 720.0 * turns as real;
    assert (u / 0.5).Floor == ((lon + 180.0) / 0.5).Floor - 720 * turns;
  }

  /** Two longitudes at most d degrees apart, after any number k of whole turns, lie within
      ceil(2d) cells of one another going round: the antimeridian is no seam. */
  lemma LonCellsApart(p: real, q: real, k: int, d: real)
    requires Abs(q - p + 360.0 * k as real) <= d
    ensures CyclicallyWithin(LonCell(q), LonCell(p), Ceiling(d / 0.5))
  {
    var m := LonCellTurns(p);
    var n := LonCellTurns(q);
    var a, b := ((q + 180.0) / 0.5).Floor, ((p + 180.0) / 0.5).Floor;
    var offset := a + LON_CELLS * k - b;
    var span := Ceiling(d / 0.5);
    assert (q + 180.0) / 0.5 + (720 * k) as real - (p + 180.0) / 0.5 == (q - p + 360.0 * k as real) / 0.5;
    FloorsApart((q + 180.0) / 0.5, (p + 180.0) / 0.5, LON_CELLS * k, d / 0.5);
    hide LonCell, Ceiling;
    assert LonCell(p) + offset == LonCell(q) + LON_CELLS * (n + k - m);
    WholeTurns(LonCell(p), offset, LonCell(q), n + k - m);
  }

  lemma FloorsApart(x: real, y: real, shift: int, d: real)
    requires Abs(x + shift as real - y) <= d
    ensures -Ceiling(d) <= x.Floor + shift - y.Floor <= Ceiling(d)
  {
  }

  lemma WholeTurns(centre: int, offset: int, c: int, turns: int)
    requires centre + offset == c + LON_CELLS * turns && 0 <= c < LON_CELLS
    ensures At(centre, offset) == c
  {
  }

  /** The latitude in the middle of the half-degree band that holds a latitude, without its sign. */
  function MidLatitude(lat: real): real { Abs((2.0 * lat).Floor as real / 2.0 + 0.25) }

  lemma BandLatitudeIsMid(lat: real)
    ensures -90.0 <= lat < 90.0 ==> BandLatitude(LatCell(lat)) == MidLatitude(lat)
    ensures -90.0 <= lat < 90.0 ==> Abs(BandLatitude(LatCell(lat)) - Abs(lat)) <= 0.25
    ensures !(-90.0 <= lat < 90.0) ==> BandLatitude(LatCell(lat)) >= POLAR_LATITUDE_DEG && MidLatitude(lat) >= POLAR_LATITUDE_DEG
  {
    if -90.0 <= lat < 90.0 {
      assert (lat + 90.0) / 0.5 == 2.0 * lat + 180.0;
      assert LatCell(lat) == (2.0 * lat).Floor + 180;
    }
  }

  /** The points a search is responsible for: in latitude no further than the radius, at sixty
      nautical miles a degree; in longitude, going round, no further than the radius at that
      many times the cosine of the middle of the point's own half-degree band, and near the
      poles anywhere. */
  ghost predicate InSpans(a: Airport, lat: real, lon: real, withinNm: real, cosDeg: real -> real) {
    var m := MidLatitude(a.lat);
    && Abs(lat - a.lat) <= withinNm / 60.0
    && (m >= POLAR_LATITUDE_DEG || exists k: int :: Abs(Turned(a.lon, lon, k)) * 60.0 * cosDeg(m) <= withinNm)
  }

  function Turned(p: real, q: real, k: int): real { p - q + 360.0 * k as real }

  lemma WithinSpan(x: real, c: real, withinNm: real)
    requires c > 0.0 && x * 60.0 * c <= withinNm
    ensures x <= withinNm / (60.0 * c)
  {
    var span := withinNm / (60.0 * c);
    assert span * (60.0 * c) == withinNm;
    assert x > span ==> (x - span) * (60.0 * c) > 0.0;
  }

  lemma TurnWithinSpan(a: Airport, lon: real, k: int, withinNm: real, cosDeg: real -> real)
    requires PositiveBelowPolar(cosDeg) && BandLatitude(LatCell(a.lat)) == MidLatitude(a.lat) < POLAR_LATITUDE_DEG
    requires Abs(Turned(a.lon, lon, k)) * 60.0 * cosDeg(MidLatitude(a.lat)) <= withinNm
    ensures Abs(Turned(a.lon, lon, k)) <= SpanDeg(LatCell(a.lat), withinNm, cosDeg)
  {
    hide LatCell, Turned;
    assert MidLatitude(a.lat) >= 0.0;
    hide MidLatitude, BandLatitude, Abs;
    WithinSpan(Abs(Turned(a.lon, lon, k)), cosDeg(MidLatitude(a.lat)), withinNm);
  }

  lemma InSpansIsWalked(a: Airport, lat: real, lon: real, withinNm: real, cosDeg: real -> real)
    requires PositiveBelowPolar(cosDeg) && InSpans(a, lat, lon, withinNm, cosDeg)
    ensures Walked(CellOf(a), lat, lon, withinNm, cosDeg)
  {
    hide LatCell, LonCell, MidLatitude, BandLatitude, SpanDeg, Abs, CyclicallyWithin, Ceiling;
    LatCellsApart(lat, a.lat, withinNm / 60.0);
    BandLatitudeIsMid(a.lat);
    if !WholeBand(LatCell(a.lat), withinNm, cosDeg) {
      var k: int :| Abs(Turned(a.lon, lon, k)) * 60.0 * cosDeg(MidLatitude(a.lat)) <= withinNm;
      TurnWithinSpan(a, lon, k, withinNm, cosDeg);
      LonCellsApart(lon, a.lon, k, SpanDeg(LatCell(a.lat), withinNm, cosDeg));
    }
  }

  /** The other way: nothing more than a degree beyond the radius in latitude is walked. */
  lemma WalkedIsNear(a: Airport, lat: real, lon: real, withinNm: real, cosDeg: real -> real)
    requires PositiveBelowPolar(cosDeg) && Walked(CellOf(a), lat, lon, withinNm, cosDeg)
    requires -90.0 <= lat <= 90.0 && -90.0 <= a.lat <= 90.0
    ensures Abs(lat - a.lat) < withinNm / 60.0 + 1.0
  {
    assert withinNm / 60.0 / 0.5 == 2.0 * (withinNm / 60.0);
    LatCellHolds(lat);
    LatCellHolds(a.lat);
  }

  lemma LatCellHolds(lat: real)
    requires -90.0 <= lat <= 90.0
    ensures LatCell(lat) as real * 0.5 - 90.0 <= lat <= (LatCell(lat) + 1) as real * 0.5 - 90.0
    ensures lat < 90.0 ==> lat < (LatCell(lat) + 1) as real * 0.5 - 90.0
  {
  }

  // ----- Which candidate wins -----

  /** The source's order on strings: by the first character that differs, a prefix first. */
  predicate Before(a: string, b: string) {
    b != [] && (a == [] || a[0] < b[0] || (a[0] == b[0] && Before(a[1..], b[1..])))
  }

  lemma {:induction false} BeforeIsStrict(a: string, b: string)
    ensures !(Before(a, b) && Before(b, a))
    ensures a == b || Before(a, b) || Before(b, a)
  {
    if a != [] && b != [] && a[0] == b[0] {
      BeforeIsStrict(a[1..], b[1..]);
      assert a == [a[0]] + a[1..] && b == [b[0]] + b[1..];
    }
  }

  lemma {:induction false} BeforeIsTransitive(a: string, b: string, c: string)
    requires Before(a, b) && Before(b, c)
    ensures Before(a, c)
  {
    if a != [] && a[0] == b[0] == c[0] {
      BeforeIsTransitive(a[1..], b[1..], c[1..]);
    }
  }

  /** One string comes before another when it is a proper beginning of it, or has the lesser
      character where they first differ. */
  lemma {:induction false} BeforeMeans(a: string, b: string)
    ensures Before(a, b) <==>
            exists i :: 0 <= i <= |a| && i <= |b| && a[..i] == b[..i] && i < |b| && (i == |a| || (i < |a| && a[i] < b[i]))
    decreases |a|
  {
    if Before(a, b) {
      if a == [] || a[0] < b[0] {
        assert a[..0] == b[..0];
      } else {
        BeforeMeans(a[1..], b[1..]);
        var i :| 0 <= i <= |a| - 1 && i <= |b| - 1 && a[1..][..i] == b[1..][..i] && i < |b| - 1 && (i == |a| - 1 || (i < |a| - 1 && a[1..][i] < b[1..][i]));
        assert a[..i + 1] == [a[0]] + a[1..][..i] && b[..i + 1] == [b[0]] + b[1..][..i];
      }
    }
    if i :| 0 <= i <= |a| && i <= |b| && a[..i] == b[..i] && i < |b| && (i == |a| || (i < |a| && a[i] < b[i])) {
      if i > 0 {
        assert a[0] == a[..i][0] == b[..i][0] == b[0];
        assert a[1..][..i - 1] == a[..i][1..] && b[1..][..i - 1] == b[..i][1..];
        BeforeMeans(a[1..], b[1..]);
      }
    }
  }

  predicate Closer(a: Airport, b: Airport, dist: Airport -> real) {
    dist(a) < dist(b) || (dist(a) == dist(b) && Before(a.ident, b.ident))
  }

  lemma CloserIsTransitive(a: Airport, b: Airport, c: Airport, dist: Airport -> real)
    requires Closer(a, b, dist) && Closer(b, c, dist)
    ensures Closer(a, c, dist)
  {
    if dist(a) == dist(b) == dist(c) {
      BeforeIsTransitive(a.ident, b.ident, c.ident);
    }
  }

  /** The (distance, ident)-least airport of a pool within the radius, or none. */
  predicate IsNearest(best: Option<Nearest>, pool: set<Airport>, dist: Airport -> real, withinNm: real) {
    match best
    case None => forall a :: a in pool ==> dist(a) > withinNm
    case Some(n) =>
      && n.airport in pool && n.distanceNm == dist(n.airport) <= withinNm
      && forall a :: a in pool && dist(a) <= withinNm ==> !Closer(a, n.airport, dist)
  }

  function AirportSet(airports: seq<Airport>): set<Airport> { set a | a in airports }

  /** nearest's loop over its candidates. */
  method Least(candidates: seq<Airport>, dist: Airport -> real, withinNm: real) returns (best: Option<Nearest>)
    ensures IsNearest(best, AirportSet(candidates), dist, withinNm)
  {
    best := None;
    for n := 0 to |candidates|
      invariant IsNearest(best, AirportSet(candidates[..n]), dist, withinNm)
    {
      var airport := candidates[n];
      assert candidates[..n + 1] == candidates[..n] + [airport];
      var distance := dist(airport);
      if distance <= withinNm {
        BeforeIsStrict(airport.ident, airport.ident);
        if best.None? || distance < best.value.distanceNm
           || (distance == best.value.distanceNm && Before(airport.ident, best.value.airport.ident)) {
          forall a | a in candidates[..n] && dist(a) <= withinNm ensures !Closer(a, airport, dist) {
            if best.Some? && Closer(a, airport, dist) {
              CloserIsTransitive(a, airport, best.value.airport, dist);
            }
          }
          best := Some(Nearest(airport, distance));
        }
      }
    }
    assert candidates[..|candidates|] == candidates;
  }

  predicate DistinctIdents(pool: set<Airport>) { forall a, b :: a in pool && b in pool && a.ident == b.ident ==> a == b }

  /** With distinct idents a pool has one answer. */
  lemma AnswerIsUnique(x: Option<Nearest>, y: Option<Nearest>, pool: set<Airport>, dist: Airport -> real, withinNm: real)
    requires IsNearest(x, pool, dist, withinNm) && IsNearest(y, pool, dist, withinNm) && DistinctIdents(pool)
    ensures x == y
  {
    if x.Some? && y.Some? {
      BeforeIsStrict(x.value.airport.ident, y.value.airport.ident);
    }
  }

  // ----- The index -----

  /** The airports a query measures. */
  function Reached(pool: set<Airport>, lat: real, lon: real, withinNm: real, cosDeg: real -> real): set<Airport>
    requires PositiveBelowPolar(cosDeg)
  {
    set a | a in pool && Walked(CellOf(a), lat, lon, withinNm, cosDeg)
  }

  /** The cells of a latitude band that a search reaches: near the poles all; otherwise those some
      number of cells from the centre, going round, of which all but one are within the radius
      at sixty nautical miles a degree times the cosine of the band's middle. */
  ghost predicate InReach(c: int, latCell: int, centreLon: int, withinNm: real, cosDeg: real -> real) {
    var m := Abs(latCell as real / 2.0 - 89.75);
    && 0 <= c < LON_CELLS
    && (m >= POLAR_LATITUDE_DEG
        || exists n: int :: At(centreLon, n) == c && AllButOneWithin(n, cosDeg(m), withinNm))
  }

  /** Of n half-degree cells, all but one are within the radius where the cosine is c. */
  predicate AllButOneWithin(n: int, c: real, withinNm: real) { (Abs(n as real) - 1.0) * 0.5 * 60.0 * c < withinNm }

  lemma StepsInSpan(n: int, span: real)
    ensures -Ceiling(span) <= n <= Ceiling(span) <==> Abs(n as real) - 1.0 < span
  {
  }

  lemma StepsInReach(n: int, c: real, withinNm: real)
    requires c > 0.0
    ensures
      var span := Ceiling(withinNm / (60.0 * c) / 0.5);
      -span <= n <= span <==> AllButOneWithin(n, c, withinNm)
  {
    var deg := withinNm / (60.0 * c);
    StepsInSpan(n, deg / 0.5);
    hide Ceiling;
    var x := Abs(n as real) - 1.0;
    hide Abs;
    assert deg * (60.0 * c) == withinNm;
    Scaled(x * 0.5, deg, 60.0 * c);
    assert (x * 0.5) * (60.0 * c) == x * 0.5 * 60.0 * c;
    assert x < deg / 0.5 <==> x * 0.5 < deg;
  }

  lemma Scaled(x: real, y: real, c: real)
    requires c > 0.0
    ensures x < y <==> x * c < y * c
  {
    if x < y {
      assert (y - x) * c > 0.0;
    } else {
      assert (x - y) * c >= 0.0;
    }
  }

  /** A span of half the world or more reaches every cell. */
  lemma HalfTheWorld(c: int, centre: int, span: int)
    requires 0 <= c < LON_CELLS && 0 <= centre < LON_CELLS && span >= 360
    ensures CyclicallyWithin(c, centre, span)
  {
    var d := c - centre;
    var offset := if d > 360 then d - LON_CELLS else if d < -360 then d + LON_CELLS else d;
    WholeTurns(centre, offset, c, if d > 360 then -1 else if d < -360 then 1 else 0);
  }

  /** The cells the source walks in a band are those. */
  lemma WalkedIsInReach(c: int, latCell: int, centreLon: int, withinNm: real, cosDeg: real -> real)
    requires PositiveBelowPolar(cosDeg) && withinNm > 0.0 && 0 <= c < LON_CELLS && 0 <= centreLon < LON_CELLS
    ensures InReach(c, latCell, centreLon, withinNm, cosDeg) <==>
            WholeBand(latCell, withinNm, cosDeg)
            || CyclicallyWithin(c, centreLon, Ceiling(SpanDeg(latCell, withinNm, cosDeg) / 0.5))
  {
    var m := BandLatitude(latCell);
    assert m == Abs(latCell as real / 2.0 - 89.75) >= 0.0;
    hide Abs, BandLatitude, AllButOneWithin, CyclicallyWithin, Ceiling;
    if m < POLAR_LATITUDE_DEG {
      CyclicIsWithin(c, centreLon, cosDeg(m), withinNm);
      if SpanDeg(latCell, withinNm, cosDeg) >= 180.0 {
        CeilingUp(SpanDeg(latCell, withinNm, cosDeg) / 0.5);
        HalfTheWorld(c, centreLon, Ceiling(SpanDeg(latCell, withinNm, cosDeg) / 0.5));
      }
    }
  }

  lemma CeilingUp(x: real)
    requires x >= 360.0
    ensures Ceiling(x) >= 360
  {
  }

  lemma CyclicIsWithin(c: int, centre: int, cosine: real, withinNm: real)
    requires cosine > 0.0
    ensures
      (exists n: int :: At(centre, n) == c && AllButOneWithin(n, cosine, withinNm))
      <==> CyclicallyWithin(c, centre, Ceiling(withinNm / (60.0 * cosine) / 0.5))
  {
    var span := Ceiling(withinNm / (60.0 * cosine) / 0.5);
    hide AllButOneWithin, Ceiling, At;
    forall n: int ensures -span <= n <= span <==> AllButOneWithin(n, cosine, withinNm) {
      StepsInReach(n, cosine, withinNm);
    }
  }

  /** One latitude band's longitude cells. */
  method LonCells(latCell: int, centreLon: int, withinNm: real, cosDeg: real -> real) returns (cells: seq<int>)
    requires PositiveBelowPolar(cosDeg) && withinNm > 0.0
    ensures forall c :: c in cells <==>
              0 <= c < LON_CELLS && (WholeBand(latCell, withinNm, cosDeg)
                                     || CyclicallyWithin(c, centreLon, Ceiling(SpanDeg(latCell, withinNm, cosDeg) / 0.5)))
    ensures 0 <= centreLon < LON_CELLS ==> forall c :: c in cells <==> InReach(c, latCell, centreLon, withinNm, cosDeg)
  {
    forall c | 0 <= c < LON_CELLS && 0 <= centreLon < LON_CELLS
      ensures InReach(c, latCell, centreLon, withinNm, cosDeg) <==>
              WholeBand(latCell, withinNm, cosDeg)
              || CyclicallyWithin(c, centreLon, Ceiling(SpanDeg(latCell, withinNm, cosDeg) / 0.5))
    {
      WalkedIsInReach(c, latCell, centreLon, withinNm, cosDeg);
    }
    hide InReach;
    cells := [];
    if WholeBand(latCell, withinNm, cosDeg) {
      for c := 0 to LON_CELLS
        invariant forall x :: x in cells <==> 0 <= x < c
      {
        cells := cells + [c];
      }
    } else {
      var spanDeg := SpanDeg(latCell, withinNm, cosDeg);
      assert spanDeg > 0.0;
      var span := Ceiling(spanDeg / 0.5);
      for offset := -span to span + 1
        invariant forall x :: x in cells <==> exists o :: -span <= o < offset && At(centreLon, o) == x
      {
        cells := cells + [At(centreLon, offset)];
      }
      assert forall x :: CyclicallyWithin(x, centreLon, span) <==> exists o :: -span <= o < span + 1 && At(centreLon, o) == x;
    }
  }

  /** The last airport with the ident, as assigning to a dictionary leaves it. */
  function LastNamed(airports: seq<Airport>, ident: string): Option<Airport> {
    if airports == [] then None
    else if airports[|airports| - 1].ident == ident then Some(airports[|airports| - 1])
    else LastNamed(airports[..|airports| - 1], ident)
  }

  /** The first airport with the IATA code, as setdefault leaves it. */
  function FirstCoded(airports: seq<Airport>, code: string): Option<Airport> {
    if airports == [] then None
    else
      var before := FirstCoded(airports[..|airports| - 1], code);
      if before.None? && airports[|airports| - 1].iata == Some(code) then Some(airports[|airports| - 1]) else before
  }

  function Lookup(m: map<string, Airport>, k: string): Option<Airport> { if k in m then Some(m[k]) else None }

  /** A name is looked up among the idents, where the last airport with it counts, and only then
      among the IATA codes, where the first does. */
  lemma NamedMeans(airports: seq<Airport>, k: string)
    ensures
      match Named(airports, k)
      case None => forall a :: a in airports ==> a.ident != k && a.iata != Some(k)
      case Some(x) =>
        exists i ::
          && 0 <= i < |airports| && airports[i] == x
          && if x.ident == k then forall j :: i < j < |airports| ==> airports[j].ident != k
             else
               && x.iata == Some(k) && (forall a :: a in airports ==> a.ident != k)
               && forall j :: 0 <= j < i ==> airports[j].iata != Some(k)
  {
    LastIsLast(airports, k);
    FirstIsFirst(airports, k);
  }

  lemma {:induction false} LastIsLast(airports: seq<Airport>, k: string)
    ensures
      match LastNamed(airports, k)
      case None => forall a :: a in airports ==> a.ident != k
      case Some(x) => x.ident == k && exists i :: 0 <= i < |airports| && airports[i] == x && forall j :: i < j < |airports| ==> airports[j].ident != k
  {
    if airports != [] {
      var n := |airports| - 1;
      LastIsLast(airports[..n], k);
      assert airports == airports[..n] + [airports[n]];
      if airports[n].ident != k && LastNamed(airports[..n], k).Some? {
        var x := LastNamed(airports[..n], k).value;
        var i :| 0 <= i < n && airports[..n][i] == x && forall j :: i < j < n ==> airports[..n][j].ident != k;
        assert airports[i] == x;
      }
    }
  }

  lemma {:induction false} FirstIsFirst(airports: seq<Airport>, code: string)
    ensures
      match FirstCoded(airports, code)
      case None => forall a :: a in airports ==> a.iata != Some(code)
      case Some(x) => x.iata == Some(code) && exists i :: 0 <= i < |airports| && airports[i] == x && forall j :: 0 <= j < i ==> airports[j].iata != Some(code)
  {
    if airports != [] {
      var n := |airports| - 1;
      FirstIsFirst(airports[..n], code);
      assert airports == airports[..n] + [airports[n]];
      if FirstCoded(airports[..n], code).Some? {
        var x := FirstCoded(airports[..n], code).value;
        var i :| 0 <= i < n && airports[..n][i] == x && forall j :: 0 <= j < i ==> airports[..n][j].iata != Some(code);
        assert airports[i] == x;
      } else if airports[n].iata == Some(code) {
        assert airports[n] == FirstCoded(airports, code).value;
        assert forall j :: 0 <= j < n ==> airports[j] in airports[..n];
      }
    }
  }

  lemma ListedAfter(airports: seq<Airport>, airport: Airport, k: string)
    ensures LastNamed(airports + [airport], k) == if airport.ident == k then Some(airport) else LastNamed(airports, k)
    ensures FirstCoded(airports + [airport], k)
         == if FirstCoded(airports, k).None? && airport.iata == Some(k) then Some(airport) else FirstCoded(airports, k)
  {
    assert (airports + [airport])[..|airports|] == airports;
  }

  /** A field by its ident, or else by its IATA code. */
  function Named(airports: seq<Airport>, ident: string): Option<Airport> {
    var byIdent := LastNamed(airports, ident);
    if byIdent.Some? then byIdent else FirstCoded(airports, ident)
  }

  class AirportIndex {
    var cells: map<Cell, seq<Airport>>
    var byIdent: map<string, Airport>
    var byIata: map<string, Airport>
    ghost var airports: seq<Airport>

    ghost predicate Bucketed()
      reads this
    {
      && (forall c, a :: (c in cells && a in cells[c]) <==> (a in airports && CellOf(a) == c))
      && (cells == map[] <==> airports == [])
    }

    ghost predicate Listed()
      reads this
    {
      forall k :: Lookup(byIdent, k) == LastNamed(airports, k) && Lookup(byIata, k) == FirstCoded(airports, k)
    }

    ghost predicate Valid()
      reads this
    {
      Bucketed() && Listed()
    }

    constructor (dataset: seq<Airport>)
      ensures Valid() && airports == dataset
    {
      cells, byIdent, byIata, airports := map[], map[], map[], [];
      new;
      for n := 0 to |dataset|
        invariant Valid() && airports == dataset[..n]
      {
        assert dataset[..n + 1] == dataset[..n] + [dataset[n]];
        Add(dataset[n]);
      }
      assert dataset[..|dataset|] == dataset;
    }

    /** One turn of the constructor's loop. */
    method Add(airport: Airport)
      requires Valid()
      modifies this
      ensures Valid() && airports == old(airports) + [airport]
    {
      hide LatCell, LonCell;
      byIdent := byIdent[airport.ident := airport];
      if airport.iata.Some? && airport.iata.value !in byIata {
        byIata := byIata[airport.iata.value := airport];
      }
      var cell := CellOf(airport);
      cells := cells[cell := (if cell in cells then cells[cell] else []) + [airport]];
      airports := airports + [airport];
      assert cell in cells;
      forall k ensures Lookup(byIdent, k) == LastNamed(airports, k) && Lookup(byIata, k) == FirstCoded(airports, k) {
        ListedAfter(old(airports), airport, k);
        assert Lookup(old(byIdent), k) == LastNamed(old(airports), k) && Lookup(old(byIata), k) == FirstCoded(old(airports), k);
      }
    }

    /** name_for: the ident as given first, and only then in upper case. */
    method NameFor(ident: string, upper: string -> string) returns (name: Option<string>)
      requires Valid()
      ensures
        var record := if Named(airports, ident).Some? then Named(airports, ident) else Named(airports, upper(ident));
        name == if record.Some? then Some(record.value.name) else None
    {
      var record := FieldNamed(ident);
      if record.None? {
        record := FieldNamed(upper(ident));
      }
      name := if record.Some? then Some(record.value.name) else None;
    }

    method FieldNamed(ident: string) returns (record: Option<Airport>)
      requires Valid()
      ensures record == Named(airports, ident)
    {
      record := Lookup(byIdent, ident);
      if record.None? {
        record := Lookup(byIata, ident);
      }
    }

    /** The airports bucketed in one latitude band's walked cells. */
    method Band(latCell: int, centreLon: int, withinNm: real, cosDeg: real -> real) returns (found: seq<Airport>)
      requires Valid() && PositiveBelowPolar(cosDeg) && withinNm > 0.0
      ensures forall a :: a in found <==>
                && a in airports && LatCell(a.lat) == latCell
                && (WholeBand(latCell, withinNm, cosDeg)
                    || CyclicallyWithin(LonCell(a.lon), centreLon, Ceiling(SpanDeg(latCell, withinNm, cosDeg) / 0.5)))
    {
      hide CyclicallyWithin, WholeBand, SpanDeg, LatCell, LonCell;
      var lons := LonCells(latCell, centreLon, withinNm, cosDeg);
      found := [];
      for n := 0 to |lons|
        invariant forall a :: a in found <==> a in airports && LatCell(a.lat) == latCell && LonCell(a.lon) in lons[..n]
      {
        var cell := (latCell, lons[n]);
        assert lons[..n + 1] == lons[..n] + [lons[n]];
        if cell in cells {
          found := found + cells[cell];
        }
      }
      assert lons[..|lons|] == lons;
    }

    method Candidates(lat: real, lon: real, withinNm: real, cosDeg: real -> real) returns (found: seq<Airport>)
      requires Valid() && PositiveBelowPolar(cosDeg) && withinNm > 0.0
      ensures AirportSet(found) == Reached(AirportSet(airports), lat, lon, withinNm, cosDeg)
    {
      var span := LatSpan(withinNm);
      assert span >= 0;
      var centre := LatCell(lat);
      hide CyclicallyWithin, WholeBand, SpanDeg, LatCell, LonCell, LatSpan;
      found := [];
      for offset := -span to span + 1
        invariant forall a :: a in found <==>
                    a in airports && Walked(CellOf(a), lat, lon, withinNm, cosDeg) && LatCell(a.lat) < centre + offset
      {
        var latCell := centre + offset;
        if 0 <= latCell < LAT_CELLS {
          var band := Band(latCell, LonCell(lon), withinNm, cosDeg);
          found := found + band;
        }
      }
    }

    /** The answer is the (distance, ident)-least of the airports measured, and never loses to
        any airport within the radius that lies within the spans, on either side of the
        antimeridian. */
    method FindNearest(lat: real, lon: real, withinNm: real, dist: Airport -> real, cosDeg: real -> real) returns (best: Option<Nearest>)
      requires Valid() && PositiveBelowPolar(cosDeg)
      ensures withinNm <= 0.0 ==> best == None
      ensures withinNm > 0.0 ==>
                && IsNearest(best, Reached(AirportSet(airports), lat, lon, withinNm, cosDeg), dist, withinNm)
                && forall a :: a in airports && dist(a) <= withinNm && InSpans(a, lat, lon, withinNm, cosDeg) ==>
                     && best.Some? && best.value.distanceNm == dist(best.value.airport) <= dist(a)
                     && (dist(a) == best.value.distanceNm ==> a.ident == best.value.airport.ident || Before(best.value.airport.ident, a.ident))
    {
      if withinNm <= 0.0 || cells == map[] {
        return None;
      }
      var found := Candidates(lat, lon, withinNm, cosDeg);
      best := Least(found, dist, withinNm);
      forall a | a in airports && dist(a) <= withinNm && InSpans(a, lat, lon, withinNm, cosDeg)
        ensures best.Some? && best.value.distanceNm == dist(best.value.airport) <= dist(a)
        ensures dist(a) == best.value.distanceNm ==> a.ident == best.value.airport.ident || Before(best.value.airport.ident, a.ident)
      {
        InSpansIsWalked(a, lat, lon, withinNm, cosDeg);
        BeforeIsStrict(best.value.airport.ident, a.ident);
        hide Walked;
        assert a in Reached(AirportSet(airports), lat, lon, withinNm, cosDeg);
      }
    }
  }

  /** Insertion order never shows: datasets with the same airports, in any order and however
      repeated, give the same answer when idents are distinct. */
  lemma OrderIsIrrelevant(p: seq<Airport>, q: seq<Airport>, x: Option<Nearest>, y: Option<Nearest>,
                          lat: real, lon: real, withinNm: real, dist: Airport -> real, cosDeg: real -> real)
    requires PositiveBelowPolar(cosDeg) && DistinctIdents(AirportSet(p))
    requires forall a :: a in p <==> a in q
    requires IsNearest(x, Reached(AirportSet(p), lat, lon, withinNm, cosDeg), dist, withinNm)
    requires IsNearest(y, Reached(AirportSet(q), lat, lon, withinNm, cosDeg), dist, withinNm)
    ensures x == y
  {
    assert AirportSet(p) == AirportSet(q);
    AnswerIsUnique(x, y, Reached(AirportSet(p), lat, lon, withinNm, cosDeg), dist, withinNm);
  }
}
