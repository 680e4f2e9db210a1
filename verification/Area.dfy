/** The compiled area and its containment test (alerts/area.py, CompiledArea).

    A ring is cut into latitude bands, and a point is tested against the edges of its own
    band only. The reference is the same ray cast over every edge; the proofs connect the
    two, and then say what the reference itself promises. */
module Area {
  import opened Geometry
  import opened Numbers
  import opened Ring

  const MAX_BANDS: nat := 16

  datatype Edge = Edge(x1: real, y1: real, x2: real, y2: real, slope: real)

  datatype CompiledArea = CompiledArea(
    minLon: real, maxLon: real, minLat: real, maxLat: real,
    bandHeight: real, bands: seq<seq<Edge>>, vertices: set<Vertex>)

  // ----- Numbers -----

  function MinOf(s: seq<real>): real
    requires s != []
  {
    if |s| == 1 then s[0] else Min(MinOf(s[..|s| - 1]), s[|s| - 1])
  }

  function MaxOf(s: seq<real>): real
    requires s != []
  {
    if |s| == 1 then s[0] else Max(MaxOf(s[..|s| - 1]), s[|s| - 1])
  }

  lemma {:induction false} MinOfIsLeast(s: seq<real>)
    requires s != []
    ensures MinOf(s) in s && forall i :: 0 <= i < |s| ==> MinOf(s) <= s[i]
  {
    if |s| > 1 {
      MinOfIsLeast(s[..|s| - 1]);
      forall i | 0 <= i < |s| ensures MinOf(s) <= s[i] {
        if i < |s| - 1 { assert s[..|s| - 1][i] == s[i]; }
      }
    }
  }

  lemma {:induction false} MaxOfIsGreatest(s: seq<real>)
    requires s != []
    ensures MaxOf(s) in s && forall i :: 0 <= i < |s| ==> s[i] <= MaxOf(s)
  {
    if |s| > 1 {
      MaxOfIsGreatest(s[..|s| - 1]);
      forall i | 0 <= i < |s| ensures s[i] <= MaxOf(s) {
        if i < |s| - 1 { assert s[..|s| - 1][i] == s[i]; }
      }
    }
  }

  // ----- One edge and one point -----

  function MakeEdge(a: Vertex, b: Vertex): (e: Edge)
    ensures e.x1 == a.lon && e.y1 == a.lat && e.x2 == b.lon && e.y2 == b.lat
  {
    Edge(a.lon, a.lat, b.lon, b.lat, if a.lat == b.lat then 0.0 else (b.lon - a.lon) / (b.lat - a.lat))
  }

  /** The half-open test: a ray through a vertex is counted once. */
  predicate Straddles(e: Edge, lat: real) { (e.y1 > lat) != (e.y2 > lat) }

  function CrossingLon(e: Edge, lat: real): real { e.x1 + (lat - e.y1) * e.slope }

  /** The edge settles the answer: the point is within tolerance of the crossing, or on a
      horizontal edge. */
  predicate Touches(e: Edge, p: Vertex) {
    if Straddles(e, p.lat) then
      Abs(CrossingLon(e, p.lat) - p.lon) <= EDGE_TOLERANCE_DEG
    else
      e.y1 == p.lat == e.y2 && Min(e.x1, e.x2) <= p.lon <= Max(e.x1, e.x2)
  }

  /** The edge toggles the answer. */
  predicate Toggles(e: Edge, p: Vertex) {
    Straddles(e, p.lat) && p.lon < CrossingLon(e, p.lat)
  }

  predicate Odd(n: nat) { n % 2 == 1 }

  function CountIf(es: seq<Edge>, f: Edge -> bool): nat {
    if es == [] then 0 else CountIf(es[..|es| - 1], f) + if f(es[|es| - 1]) then 1 else 0
  }

  function Toggling(p: Vertex): Edge -> bool { (e: Edge) => Toggles(e, p) }

  function Straddling(lat: real): Edge -> bool { (e: Edge) => Straddles(e, lat) }

  /** Some edge of the list settles the answer. */
  predicate TouchedIn(es: seq<Edge>, p: Vertex) {
    exists i :: 0 <= i < |es| && Touches(es[i], p)
  }

  /** Even-odd over the given edges, with the boundary inside. The order does not matter. */
  predicate RayCast(es: seq<Edge>, p: Vertex) {
    TouchedIn(es, p) || Odd(CountIf(es, Toggling(p)))
  }

  // ----- A ring's edges, box and bands -----

  function EdgesTo(open: seq<Vertex>, k: nat): seq<Edge>
    requires k <= |open|
  {
    seq(k, i requires 0 <= i < |open| => MakeEdge(open[i], Next(open, i)))
  }

  lemma EdgesToStep(open: seq<Vertex>, k: nat)
    requires k < |open|
    ensures EdgesTo(open, k + 1) == EdgesTo(open, k) + [MakeEdge(open[k], Next(open, k))]
  {
    hide Succ, MakeEdge;
  }

  lemma CountIfStep(es: seq<Edge>, e: Edge, f: Edge -> bool)
    ensures CountIf(es + [e], f) == CountIf(es, f) + if f(e) then 1 else 0
  {
    assert (es + [e])[..|es|] == es;
  }

  function Edges(open: seq<Vertex>): seq<Edge> { EdgesTo(open, |open|) }

  function Lons(open: seq<Vertex>): seq<real> { seq(|open|, i requires 0 <= i < |open| => open[i].lon) }

  function Lats(open: seq<Vertex>): seq<real> { seq(|open|, i requires 0 <= i < |open| => open[i].lat) }

  /** What compiling divides by must not be zero; Ring.AcceptableHasHeight gives it. */
  predicate Compilable(open: seq<Vertex>) {
    exists i :: 0 <= i < |open| && open[i].lat != open[0].lat
  }

  function BandOf(count: nat, minLat: real, height: real, lat: real): int
    requires height != 0.0
  {
    var k := Truncate((lat - minLat) / height);
    if k < count as int - 1 then k else count as int - 1
  }

  lemma FloorMonotone(x: real, y: real)
    requires 0.0 <= x <= y
    ensures 0 <= Truncate(x) <= Truncate(y)
  {
  }

  lemma QuotientMonotone(x: real, y: real, d: real)
    requires 0.0 <= x <= y && d > 0.0
    ensures 0.0 <= x / d <= y / d
  {
    var q, r := x / d, y / d;
    assert q * d == x && r * d == y;
    assert q < 0.0 ==> q * d < 0.0;
    assert q > r ==> (q - r) * d > 0.0;
  }

  /** The band index is one monotone expression, used for edge ends and for points. */
  lemma BandOfMonotone(count: nat, minLat: real, height: real, low: real, high: real)
    requires count > 0 && height > 0.0 && minLat <= low <= high
    ensures 0 <= BandOf(count, minLat, height, low) <= BandOf(count, minLat, height, high) < count
  {
    QuotientMonotone(low - minLat, high - minLat, height);
    FloorMonotone((low - minLat) / height, (high - minLat) / height);
  }

  /** The edges listed under band k: those whose latitude span reaches it. */
  function BandEdges(es: seq<Edge>, count: nat, minLat: real, height: real, k: int): seq<Edge>
    requires height != 0.0
  {
    if es == [] then []
    else
      var e := es[|es| - 1];
      var before := BandEdges(es[..|es| - 1], count, minLat, height, k);
      if BandOf(count, minLat, height, Min(e.y1, e.y2)) <= k <= BandOf(count, minLat, height, Max(e.y1, e.y2))
      then before + [e] else before
  }

  lemma VerticesInBox(open: seq<Vertex>, p: Vertex)
    requires p in open
    ensures MinOf(Lons(open)) <= p.lon <= MaxOf(Lons(open)) && MinOf(Lats(open)) <= p.lat <= MaxOf(Lats(open))
  {
    hide MinOf, MaxOf;
    var i :| 0 <= i < |open| && open[i] == p;
    var lons, lats := Lons(open), Lats(open);
    assert lons[i] == p.lon && lats[i] == p.lat;
    MinOfIsLeast(lons); MaxOfIsGreatest(lons); MinOfIsLeast(lats); MaxOfIsGreatest(lats);
  }

  lemma EdgeInBox(open: seq<Vertex>, i: nat)
    requires i < |open|
    ensures
      var e := Edges(open)[i];
      && MinOf(Lons(open)) <= Min(e.x1, e.x2) && Max(e.x1, e.x2) <= MaxOf(Lons(open))
      && MinOf(Lats(open)) <= Min(e.y1, e.y2) && Max(e.y1, e.y2) <= MaxOf(Lats(open))
  {
    hide MinOf, MaxOf, Succ, MakeEdge;
    VerticesInBox(open, open[i]);
    VerticesInBox(open, Next(open, i));
  }

  function BandCount(open: seq<Vertex>): nat {
    if MAX_BANDS <= |open| then MAX_BANDS else |open|
  }

  /** One band a vertex, and at most sixteen, which together are as high as the ring. */
  lemma BandsFillTheRing(open: seq<Vertex>, area: CompiledArea)
    requires Compilable(open) && Compiles(open, area)
    ensures |area.bands| == if |open| <= 16 then |open| else 16
    ensures |area.bands| as real * area.bandHeight == area.maxLat - area.minLat
  {
    CompilableHeight(open);
    hide MinOf, MaxOf, Lats, Lons, BandEdges, Edges;
    QuotientTimes(area.maxLat - area.minLat, BandCount(open) as real);
  }

  lemma QuotientTimes(n: real, d: real)
    requires d != 0.0
    ensures d * (n / d) == n
  {
  }

  lemma CompilableHeight(open: seq<Vertex>)
    requires Compilable(open)
    ensures MinOf(Lats(open)) < MaxOf(Lats(open))
    ensures (MaxOf(Lats(open)) - MinOf(Lats(open))) / BandCount(open) as real > 0.0
  {
    var lats := Lats(open);
    MinOfIsLeast(lats);
    MaxOfIsGreatest(lats);
    var i :| 0 <= i < |open| && open[i].lat != open[0].lat;
    assert lats[i] != lats[0];
    PositiveQuotient(MaxOf(lats) - MinOf(lats), BandCount(open) as real);
  }

  lemma PositiveQuotient(n: real, d: real)
    requires n > 0.0 && d > 0.0
    ensures n / d > 0.0
  {
  }

  /** What compiling divides the latitude range into: never zero. */
  function BandHeight(open: seq<Vertex>): (r: real)
    requires Compilable(open)
    ensures r > 0.0
  {
    CompilableHeight(open);
    (MaxOf(Lats(open)) - MinOf(Lats(open))) / BandCount(open) as real
  }

  /** The area a ring compiles to. */
  ghost predicate Compiles(open: seq<Vertex>, area: CompiledArea)
    requires Compilable(open)
  {
    && area.minLon == MinOf(Lons(open)) && area.maxLon == MaxOf(Lons(open))
    && area.minLat == MinOf(Lats(open)) && area.maxLat == MaxOf(Lats(open))
    && area.bandHeight == BandHeight(open)
    && |area.bands| == BandCount(open)
    && (forall k :: 0 <= k < |area.bands| ==>
          area.bands[k] == BandEdges(Edges(open), BandCount(open), area.minLat, area.bandHeight, k))
    && area.vertices == set v | v in open
  }

  /** The list of edges, one per vertex, in ring order. */
  method CollectEdges(openRing: seq<Vertex>) returns (edges: seq<Edge>)
    ensures edges == Edges(openRing)
  {
    hide Succ, MakeEdge;
    edges := [];
    for index := 0 to |openRing|
      invariant edges == EdgesTo(openRing, index)
    {
      EdgesToStep(openRing, index);
      edges := edges + [MakeEdge(openRing[index], Next(openRing, index))];
    }
  }

  lemma EdgesAboveFloor(open: seq<Vertex>)
    requires open != []
    ensures forall i :: 0 <= i < |Edges(open)| ==> MinOf(Lats(open)) <= Edges(open)[i].y1 && MinOf(Lats(open)) <= Edges(open)[i].y2
  {
    hide MinOf, MaxOf;
    forall i | 0 <= i < |Edges(open)| ensures MinOf(Lats(open)) <= Edges(open)[i].y1 && MinOf(Lats(open)) <= Edges(open)[i].y2 {
      EdgeInBox(open, i);
    }
  }

  method FromRing(ring: seq<Vertex>) returns (area: CompiledArea)
    requires Compilable(Opened(ring))
    ensures Compiles(Opened(ring), area)
  {
    hide Succ, MinOf, MaxOf, BandOf, BandEdges, MakeEdge;
    var openRing := Opened(ring);
    CompilableHeight(openRing);
    var lons, lats := Lons(openRing), Lats(openRing);
    var minLat, maxLat := MinOf(lats), MaxOf(lats);
    var bandCount := BandCount(openRing);
    var bandHeight := (maxLat - minLat) / bandCount as real;
    var edges := CollectEdges(openRing);
    EdgesAboveFloor(openRing);
    hide Lons, Lats, Compilable, Edges;
    var bands := FillBands(edges, bandCount, minLat, bandHeight);
    area := CompiledArea(MinOf(lons), MaxOf(lons), minLat, maxLat, bandHeight, bands, set v | v in openRing);
  }

  /** Appends every edge to each band between the bands of its two ends. */
  method FillBands(edges: seq<Edge>, bandCount: nat, minLat: real, bandHeight: real) returns (bands: seq<seq<Edge>>)
    requires bandCount > 0 && bandHeight > 0.0
    requires forall i :: 0 <= i < |edges| ==> minLat <= edges[i].y1 && minLat <= edges[i].y2
    ensures |bands| == bandCount
    ensures forall k :: 0 <= k < bandCount ==> bands[k] == BandEdges(edges, bandCount, minLat, bandHeight, k)
  {
    hide BandOf;
    bands := seq(bandCount, _ => []);
    for n := 0 to |edges|
      invariant |bands| == bandCount
      invariant forall k :: 0 <= k < bandCount ==> bands[k] == BandEdges(edges[..n], bandCount, minLat, bandHeight, k)
    {
      var e := edges[n];
      var first := BandOf(bandCount, minLat, bandHeight, Min(e.y1, e.y2));
      var last := BandOf(bandCount, minLat, bandHeight, Max(e.y1, e.y2));
      BandOfMonotone(bandCount, minLat, bandHeight, minLat, Min(e.y1, e.y2));
      BandOfMonotone(bandCount, minLat, bandHeight, Min(e.y1, e.y2), Max(e.y1, e.y2));
      var band := first;
      ghost var was := bands;
      assert edges[..n + 1][..n] == edges[..n];
      while band <= last
        invariant |bands| == bandCount
        invariant first <= band <= last + 1
        invariant forall k :: 0 <= k < bandCount ==> bands[k] == if first <= k < band then was[k] + [e] else was[k]
      {
        bands := bands[band := bands[band] + [e]];
        band := band + 1;
      }
    }
    assert edges[..|edges|] == edges;
  }

  // ----- The containment test -----

  predicate OutsideBox(area: CompiledArea, p: Vertex) {
    p.lon < area.minLon || p.lon > area.maxLon || p.lat < area.minLat || p.lat > area.maxLat
  }

  /** The band a point inside the box is tested in. */
  function BandFor(area: CompiledArea, p: Vertex): int
    requires area.bandHeight != 0.0
  {
    BandOf(|area.bands|, area.minLat, area.bandHeight, p.lat)
  }

  predicate ContainsSpec(area: CompiledArea, p: Vertex)
    requires area.bandHeight > 0.0 && |area.bands| > 0
  {
    if OutsideBox(area, p) then false
    else
      BandOfMonotone(|area.bands|, area.minLat, area.bandHeight, area.minLat, p.lat);
      RayCast(area.bands[BandFor(area, p)], p) || p in area.vertices
  }

  method Contains(area: CompiledArea, p: Vertex) returns (r: bool)
    requires area.bandHeight > 0.0 && |area.bands| > 0
    ensures r <==> ContainsSpec(area, p)
  {
    hide Touches, Toggles, BandOf;
    if OutsideBox(area, p) {
      return false;
    }
    BandOfMonotone(|area.bands|, area.minLat, area.bandHeight, area.minLat, p.lat);
    var band := area.bands[BandFor(area, p)];
    var inside := false;
    for i := 0 to |band|
      invariant forall j :: 0 <= j < i ==> !Touches(band[j], p)
      invariant inside <==> Odd(CountIf(band[..i], Toggling(p)))
    {
      var e := band[i];
      assert band[..i + 1][..i] == band[..i];
      if Touches(e, p) {
        return true;
      }
      if Toggles(e, p) {
        inside := !inside;
      }
    }
    assert band[..|band|] == band;
    return inside || p in area.vertices;
  }

  // ----- The band is enough -----

  /** The edge has no say about points at this latitude. */
  predicate Irrelevant(e: Edge, p: Vertex) { !Touches(e, p) && !Toggles(e, p) }

  lemma {:induction false} SkippingIrrelevant(es: seq<Edge>, count: nat, minLat: real, height: real, k: int, p: Vertex)
    requires height != 0.0
    requires forall i :: 0 <= i < |es| ==>
      || BandOf(count, minLat, height, Min(es[i].y1, es[i].y2)) <= k <= BandOf(count, minLat, height, Max(es[i].y1, es[i].y2))
      || Irrelevant(es[i], p)
    ensures
      var kept := BandEdges(es, count, minLat, height, k);
      && CountIf(kept, Toggling(p)) == CountIf(es, Toggling(p))
      && (TouchedIn(kept, p) <==> TouchedIn(es, p))
  {
    hide BandOf, Touches, Toggles;
    if es != [] {
      var init, e := es[..|es| - 1], es[|es| - 1];
      SkippingIrrelevant(init, count, minLat, height, k, p);
      TouchedBySplit(init, e, p);
      assert init + [e] == es;
      var before := BandEdges(init, count, minLat, height, k);
      TouchedBySplit(before, e, p);
      assert (before + [e])[..|before|] == before;
    }
  }

  lemma TouchedBySplit(es: seq<Edge>, e: Edge, p: Vertex)
    ensures
      TouchedIn(es + [e], p) <==> TouchedIn(es, p) || Touches(e, p)
  {
    hide Touches;
    var all := es + [e];
    if Touches(e, p) {
      assert Touches(all[|es|], p);
    }
    if i :| 0 <= i < |es| && Touches(es[i], p) {
      assert Touches(all[i], p);
    }
  }

  /** An edge with a say about latitude y has y in its latitude span. */
  lemma RelevantSpansLatitude(e: Edge, p: Vertex)
    requires !Irrelevant(e, p)
    ensures Min(e.y1, e.y2) <= p.lat <= Max(e.y1, e.y2)
  {
  }

  /** The unbanded reference: the same box, and a ray cast over every edge. */
  predicate ContainsAllEdges(open: seq<Vertex>, p: Vertex)
    requires |open| > 0
  {
    && MinOf(Lons(open)) <= p.lon <= MaxOf(Lons(open))
    && MinOf(Lats(open)) <= p.lat <= MaxOf(Lats(open))
    && (RayCast(Edges(open), p) || p in open)
  }

  /** For every ring that compiles and every point, one band gives the answer of all edges. */
  lemma BandedEqualsUnbanded(open: seq<Vertex>, area: CompiledArea, p: Vertex)
    requires Compilable(open) && Compiles(open, area)
    ensures area.bandHeight > 0.0 && |area.bands| > 0
    ensures ContainsSpec(area, p) <==> ContainsAllEdges(open, p)
  {
    hide BandOf, Touches, Toggles, MinOf, MaxOf, Succ, MakeEdge, BandEdges;
    CompilableHeight(open);
    var count, es := BandCount(open), Edges(open);
    if !OutsideBox(area, p) {
      BandOfMonotone(count, area.minLat, area.bandHeight, area.minLat, p.lat);
      var k := BandFor(area, p);
      forall i | 0 <= i < |es|
        ensures
          || BandOf(count, area.minLat, area.bandHeight, Min(es[i].y1, es[i].y2)) <= k
             <= BandOf(count, area.minLat, area.bandHeight, Max(es[i].y1, es[i].y2))
          || Irrelevant(es[i], p)
      {
        if !Irrelevant(es[i], p) {
          RelevantSpansLatitude(es[i], p);
          EdgeInBox(open, i);
          BandOfMonotone(count, area.minLat, area.bandHeight, Min(es[i].y1, es[i].y2), p.lat);
          BandOfMonotone(count, area.minLat, area.bandHeight, p.lat, Max(es[i].y1, es[i].y2));
        }
      }
      SkippingIrrelevant(es, count, area.minLat, area.bandHeight, k, p);
    }
  }

  // ----- Parity of a closed ring -----

  /** Whether position k of the closed walk, which returns to its start, is above lat. */
  predicate Above(open: seq<Vertex>, k: nat, lat: real)
    requires 0 < |open| && k <= |open|
  {
    open[if k == |open| then 0 else k].lat > lat
  }

  lemma StepStraddles(open: seq<Vertex>, k: nat, lat: real)
    requires k < |open|
    ensures Straddling(lat)(MakeEdge(open[k], Next(open, k))) <==> (Above(open, k, lat) != Above(open, k + 1, lat))
  {
    hide Succ, MakeEdge;
  }

  lemma NoEdges(open: seq<Vertex>, lat: real)
    ensures CountIf(EdgesTo(open, 0), Straddling(lat)) == 0
  {
  }

  lemma {:induction false} StraddleParity(open: seq<Vertex>, k: nat, lat: real)
    requires 0 < |open| && k <= |open|
    ensures Odd(CountIf(EdgesTo(open, k), Straddling(lat))) <==> (Above(open, 0, lat) != Above(open, k, lat))
  {
    hide Succ, MakeEdge, Straddling, Above, EdgesTo, CountIf;
    if k == 0 {
      NoEdges(open, lat);
    } else {
      StraddleParity(open, k - 1, lat);
      EdgesToStep(open, k - 1);
      StepStraddles(open, k - 1, lat);
      CountIfStep(EdgesTo(open, k - 1), MakeEdge(open[k - 1], Next(open, k - 1)), Straddling(lat));
    }
  }

  /** A closed ring crosses every horizontal line an even number of times. */
  lemma ClosedRingStraddlesEvenly(open: seq<Vertex>, lat: real)
    requires open != []
    ensures !Odd(CountIf(Edges(open), Straddling(lat)))
  {
    StraddleParity(open, |open|, lat);
  }

  lemma {:induction false} CountIfAgree(es: seq<Edge>, f: Edge -> bool, g: Edge -> bool)
    requires forall i :: 0 <= i < |es| ==> f(es[i]) == g(es[i])
    ensures CountIf(es, f) == CountIf(es, g)
  {
    if es != [] {
      assert forall i :: 0 <= i < |es| - 1 ==> es[..|es| - 1][i] == es[i];
      CountIfAgree(es[..|es| - 1], f, g);
    }
  }

  lemma {:induction false} CountIfNone(es: seq<Edge>, f: Edge -> bool)
    requires forall i :: 0 <= i < |es| ==> !f(es[i])
    ensures CountIf(es, f) == 0
  {
    if es != [] {
      assert forall i :: 0 <= i < |es| - 1 ==> es[..|es| - 1][i] == es[i];
      CountIfNone(es[..|es| - 1], f);
    }
  }

  /** The crossing of a straddling edge lies between its ends. */
  lemma CrossingWithinEdge(a: Vertex, b: Vertex, lat: real)
    requires Straddles(MakeEdge(a, b), lat)
    ensures Min(a.lon, b.lon) <= CrossingLon(MakeEdge(a, b), lat) <= Max(a.lon, b.lon)
  {
    var e := MakeEdge(a, b);
    RatioBetween(lat - a.lat, b.lat - a.lat);
    var t := (lat - a.lat) / (b.lat - a.lat);
    BetweenScaled(a.lon, b.lon, t);
    SlopeForm(lat - a.lat, b.lon - a.lon, b.lat - a.lat);
  }

  lemma SlopeForm(x: real, w: real, h: real)
    requires h != 0.0
    ensures x * (w / h) == (x / h) * w
  {
    assert h * (x * (w / h)) == x * w;
    assert h * ((x / h) * w) == x * w;
  }

  /** The unboxed answer for a point outside the box: only the tolerance can make it true. */
  lemma OutsideTheBox(open: seq<Vertex>, p: Vertex)
    requires open != []
    requires !(MinOf(Lons(open)) <= p.lon <= MaxOf(Lons(open)) && MinOf(Lats(open)) <= p.lat <= MaxOf(Lats(open)))
    ensures RayCast(Edges(open), p) || p in open <==> TouchedIn(Edges(open), p)
  {
    hide MinOf, MaxOf, Succ;
    var es, lons, lats := Edges(open), Lons(open), Lats(open);
    if p in open {
      VerticesInBox(open, p);
    }
    forall i | 0 <= i < |es| && Straddles(es[i], p.lat)
      ensures MinOf(lons) <= CrossingLon(es[i], p.lat) <= MaxOf(lons)
      ensures MinOf(lats) <= p.lat <= MaxOf(lats)
    {
      CrossingWithinEdge(open[i], Next(open, i), p.lat);
      EdgeInBox(open, i);
    }
    hide CrossingLon;
    if p.lon < MinOf(lons) {
      CountIfAgree(es, Toggling(p), Straddling(p.lat));
      ClosedRingStraddlesEvenly(open, p.lat);
    } else {
      CountIfNone(es, Toggling(p));
    }
  }

  predicate InBox(open: seq<Vertex>, p: Vertex)
    requires open != []
  {
    MinOf(Lons(open)) <= p.lon <= MaxOf(Lons(open)) && MinOf(Lats(open)) <= p.lat <= MaxOf(Lats(open))
  }

  /** The ray cast with no box in front of it. */
  predicate Unboxed(open: seq<Vertex>, p: Vertex) { RayCast(Edges(open), p) || p in open }

  /** The box changes the answer exactly for points outside it that the tolerance of some
      edge reaches. */
  lemma BoxRejectionExact(open: seq<Vertex>, p: Vertex)
    requires open != []
    ensures (ContainsAllEdges(open, p) <==> Unboxed(open, p)) <==> (InBox(open, p) || !TouchedIn(Edges(open), p))
  {
    hide MinOf, MaxOf, Succ, Touches, RayCast;
    if !InBox(open, p) {
      OutsideTheBox(open, p);
    }
  }

  /** More than the tolerance outside the box, no edge reaches the point. */
  lemma FarOutsideIsRejectedAnyway(open: seq<Vertex>, p: Vertex)
    requires open != []
    requires
      || p.lon < MinOf(Lons(open)) - EDGE_TOLERANCE_DEG || p.lon > MaxOf(Lons(open)) + EDGE_TOLERANCE_DEG
      || p.lat < MinOf(Lats(open)) || p.lat > MaxOf(Lats(open))
    ensures !Unboxed(open, p) && !ContainsAllEdges(open, p)
  {
    hide MinOf, MaxOf, Succ;
    forall i | 0 <= i < |open| ensures !Touches(Edges(open)[i], p) {
      EdgeInBox(open, i);
      if Straddles(Edges(open)[i], p.lat) {
        CrossingWithinEdge(open[i], Next(open, i), p.lat);
      }
    }
    OutsideTheBox(open, p);
  }

  /** Within the tolerance the two answers do differ: just west of a triangle's western edge. */
  lemma BoxRejectionDiffersWithinTolerance()
    ensures
      var ring := [Vertex(0.0, 0.0), Vertex(1.0, 0.0), Vertex(0.0, 1.0)];
      var p := Vertex(-0.0000000005, 0.5);
      Unboxed(ring, p) && !ContainsAllEdges(ring, p)
  {
    var ring := [Vertex(0.0, 0.0), Vertex(1.0, 0.0), Vertex(0.0, 1.0)];
    var p := Vertex(-0.0000000005, 0.5);
    assert Next(ring, 2) == ring[0];
    var e := Edges(ring)[2];
    assert e == Edge(0.0, 1.0, 0.0, 0.0, e.slope) && e.slope == 0.0 / -1.0 == 0.0;
    assert Touches(e, p);
    var lons := Lons(ring);
    MinOfIsLeast(lons);
    assert lons == [0.0, 1.0, 0.0];
  }

  // ----- The boundary is inside -----

  lemma OnEdgeTouchesOrIsEnd(a: Vertex, b: Vertex, p: Vertex)
    requires OnSegment(a, b, p)
    ensures Touches(MakeEdge(a, b), p) || p == a || p == b
  {
    var e := MakeEdge(a, b);
    OnSegmentIsCollinearInBox(a, b, p);
    if Straddles(e, p.lat) {
      var x, y, w, h := p.lon - a.lon, p.lat - a.lat, b.lon - a.lon, b.lat - a.lat;
      CrossingIsTheCollinearPoint(x, y, w, h);
    } else if a.lat != b.lat {
      EndOfHeight(a, b, p);
    }
  }

  lemma CrossingIsTheCollinearPoint(x: real, y: real, w: real, h: real)
    requires h != 0.0 && w * y == h * x
    ensures y * (w / h) == x
  {
    assert h * (y * (w / h)) == y * w;
    assert h * (y * (w / h) - x) == 0.0;
  }

  /** A point of a sloping edge that the half-open test skips is the edge's upper end. */
  lemma EndOfHeight(a: Vertex, b: Vertex, p: Vertex)
    requires a.lat != b.lat && OnSegment(a, b, p)
    requires p.lat >= a.lat && p.lat >= b.lat && (p.lat == a.lat || p.lat == b.lat)
    ensures p == a || p == b
  {
    var t :| 0.0 <= t <= 1.0 && p == Along(a, b, t);
    assert a == Along(a, b, 0.0) && b == Along(a, b, 1.0);
    if p.lat == a.lat {
      assert t * (b.lat - a.lat) == 0.0;
    } else {
      assert (1.0 - t) * (b.lat - a.lat) == 0.0;
    }
  }

  /** Every point of every edge, vertices included, is inside. */
  lemma BoundaryIsInside(open: seq<Vertex>, i: nat, p: Vertex)
    requires i < |open| && OnSegment(open[i], Next(open, i), p)
    ensures ContainsAllEdges(open, p)
  {
    hide MinOf, MaxOf, Succ, MakeEdge, Touches, CountIf;
    var a, b := open[i], Next(open, i);
    OnEdgeTouchesOrIsEnd(a, b, p);
    OnSegmentIsCollinearInBox(a, b, p);
    EdgeInBox(open, i);
    assert Edges(open)[i] == MakeEdge(a, b);
    assert MinOf(Lons(open)) <= p.lon <= MaxOf(Lons(open)) && MinOf(Lats(open)) <= p.lat <= MaxOf(Lats(open));
  }

  // ----- Where the ring starts and which way it runs do not matter -----

  lemma {:induction false} CountIfAppend(es: seq<Edge>, fs: seq<Edge>, f: Edge -> bool)
    ensures CountIf(es + fs, f) == CountIf(es, f) + CountIf(fs, f)
  {
    if fs == [] {
      assert es + fs == es;
    } else {
      assert (es + fs)[..|es + fs| - 1] == es + fs[..|fs| - 1];
      CountIfAppend(es, fs[..|fs| - 1], f);
    }
  }

  function Flip(e: Edge): Edge { Edge(e.x2, e.y2, e.x1, e.y1, e.slope) }

  function Backwards(es: seq<Edge>): (r: seq<Edge>)
    ensures |r| == |es| && forall i :: 0 <= i < |es| ==> r[i] == Flip(es[|es| - 1 - i])
  {
    if es == [] then [] else [Flip(es[|es| - 1])] + Backwards(es[..|es| - 1])
  }

  lemma FlippedEdge(a: Vertex, b: Vertex)
    ensures MakeEdge(b, a) == Flip(MakeEdge(a, b))
  {
    if a.lat != b.lat {
      SameQuotient(b.lon - a.lon, b.lat - a.lat);
    }
  }

  lemma SameQuotient(w: real, h: real)
    requires h != 0.0
    ensures (-w) / (-h) == w / h
  {
    assert (w / h) * (-h) == -w;
  }

  lemma FlipKeepsRayCast(a: Vertex, b: Vertex, p: Vertex)
    ensures Touches(Flip(MakeEdge(a, b)), p) <==> Touches(MakeEdge(a, b), p)
    ensures Toggles(Flip(MakeEdge(a, b)), p) <==> Toggles(MakeEdge(a, b), p)
  {
    var e := MakeEdge(a, b);
    if Straddles(e, p.lat) {
      var w, h := b.lon - a.lon, b.lat - a.lat;
      assert (w / h) * h == w;
      assert e.slope * h == w;
      assert (p.lat - a.lat) * e.slope == (p.lat - b.lat) * e.slope + e.slope * h;
      assert CrossingLon(Flip(e), p.lat) == CrossingLon(e, p.lat);
    }
  }

  lemma {:induction false} BackwardsCount(es: seq<Edge>, p: Vertex)
    requires forall i :: 0 <= i < |es| ==> (Toggles(Flip(es[i]), p) <==> Toggles(es[i], p))
    ensures CountIf(Backwards(es), Toggling(p)) == CountIf(es, Toggling(p))
  {
    hide Toggles, Flip;
    if es != [] {
      var init, e := es[..|es| - 1], es[|es| - 1];
      BackwardsCount(init, p);
      CountIfAppend([Flip(e)], Backwards(init), Toggling(p));
      CountIfStep([], Flip(e), Toggling(p));
      assert [] + [Flip(e)] == [Flip(e)];
    }
  }

  function Rotated(open: seq<Vertex>, k: nat): seq<Vertex>
    requires k <= |open|
  {
    open[k..] + open[..k]
  }

  function Reversed(open: seq<Vertex>): seq<Vertex> {
    seq(|open|, i requires 0 <= i < |open| => open[|open| - 1 - i])
  }

  /** Where position i of the rotated ring comes from. */
  function Unrotate(n: nat, k: nat, i: nat): nat
    requires k < n && i < n
  {
    if i < n - k then k + i else i - (n - k)
  }

  lemma RotatedNext(open: seq<Vertex>, k: nat, i: nat)
    requires k < |open| && i < |open|
    ensures Rotated(open, k)[i] == open[Unrotate(|open|, k, i)]
    ensures Next(Rotated(open, k), i) == Next(open, Unrotate(|open|, k, i))
  {
    hide Succ;
  }

  lemma RotatedEdges(open: seq<Vertex>, k: nat)
    requires k < |open|
    ensures Edges(Rotated(open, k)) == Edges(open)[k..] + Edges(open)[..k]
  {
    hide Next, MakeEdge, Rotated;
    var n, es, r := |open|, Edges(open), Rotated(open, k);
    RotatedNext(open, k, 0);
    assert |r| == n by { RotatedLength(open, k); }
    forall i | 0 <= i < n ensures Edges(r)[i] == (es[k..] + es[..k])[i] {
      RotatedNext(open, k, i);
      assert (es[k..] + es[..k])[i] == es[Unrotate(n, k, i)];
    }
  }

  lemma RotatedLength(open: seq<Vertex>, k: nat)
    requires k <= |open|
    ensures |Rotated(open, k)| == |open|
  {
  }

  lemma TouchedInAppend(es: seq<Edge>, fs: seq<Edge>, p: Vertex)
    ensures TouchedIn(es + fs, p) <==> TouchedIn(es, p) || TouchedIn(fs, p)
  {
    hide Touches;
    if i :| 0 <= i < |es| && Touches(es[i], p) {
      assert Touches((es + fs)[i], p);
    }
    if i :| 0 <= i < |fs| && Touches(fs[i], p) {
      assert Touches((es + fs)[|es| + i], p);
    }
  }

  lemma BackwardsTouched(es: seq<Edge>, p: Vertex)
    requires forall i :: 0 <= i < |es| ==> (Touches(Flip(es[i]), p) <==> Touches(es[i], p))
    ensures TouchedIn(Backwards(es), p) <==> TouchedIn(es, p)
  {
    hide Touches, Flip;
    if i :| 0 <= i < |es| && Touches(es[i], p) {
      assert Touches(Backwards(es)[|es| - 1 - i], p);
    }
  }

  lemma EdgeAt(open: seq<Vertex>, i: nat)
    requires i < |open|
    ensures |Edges(open)| == |open| && Edges(open)[i] == MakeEdge(open[i], Next(open, i))
  {
    hide MakeEdge, Next;
  }

  lemma NextAt(open: seq<Vertex>, i: nat)
    requires i < |open|
    ensures Next(open, i) == if i + 1 < |open| then open[i + 1] else open[0]
  {
  }

  lemma ReversedAt(open: seq<Vertex>, i: nat)
    requires i < |open|
    ensures |Reversed(open)| == |open| && Reversed(open)[i] == open[|open| - 1 - i]
  {
  }

  /** The edge at i of the reversed ring is the mirrored one of the ring, flipped. */
  lemma ReversedEdgeAt(open: seq<Vertex>, i: nat)
    requires i < |open|
    ensures |Edges(Reversed(open))| == |open| == |Edges(open)|
    ensures Edges(Reversed(open))[i] == Flip(Edges(open)[if i + 1 < |open| then |open| - 2 - i else |open| - 1])
  {
    hide MakeEdge, Flip, Edges, Reversed, Next, Succ;
    var n, r := |open|, Reversed(open);
    var m := if i + 1 < n then n - 2 - i else n - 1;
    ReversedAt(open, i);
    EdgeAt(r, i);
    NextAt(r, i);
    EdgeAt(open, m);
    NextAt(open, m);
    ReversedAt(open, if i + 1 < n then i + 1 else 0);
    FlippedEdge(open[m], Next(open, m));
  }

  /** Going the other way round, the closing edge comes last again and the others in reverse. */
  lemma ReversedEdges(open: seq<Vertex>)
    requires open != []
    ensures |Edges(open)| == |open|
    ensures
      var n := |open|;
      Edges(Reversed(open)) == Backwards(Edges(open)[..n - 1]) + [Flip(Edges(open)[n - 1])]
  {
    hide Flip, Edges, Reversed, Next, Succ;
    var n, r := |open|, Reversed(open);
    EdgeAt(open, 0);
    ReversedEdgeAt(open, 0);
    var init := Edges(open)[..n - 1];
    var back := Backwards(init);
    forall i | 0 <= i < n ensures Edges(r)[i] == (back + [Flip(Edges(open)[n - 1])])[i] {
      ReversedEdgeAt(open, i);
      assert i < n - 1 ==> init[n - 2 - i] == Edges(open)[n - 2 - i];
    }
    assert |back| == n - 1;
  }

  lemma SameMembersSameBox(s: seq<real>, t: seq<real>)
    requires s != [] && t != []
    requires (forall x :: x in s ==> x in t) && (forall x :: x in t ==> x in s)
    ensures MinOf(s) == MinOf(t) && MaxOf(s) == MaxOf(t)
  {
    hide MinOf, MaxOf;
    MinOfIsLeast(s); MinOfIsLeast(t); MaxOfIsGreatest(s); MaxOfIsGreatest(t);
  }

  lemma SameVerticesSameBox(open: seq<Vertex>, other: seq<Vertex>, p: Vertex)
    requires open != [] && |open| == |other|
    requires (forall v :: v in open ==> v in other) && (forall v :: v in other ==> v in open)
    ensures InBox(open, p) <==> InBox(other, p)
  {
    hide MinOf, MaxOf;
    Coordinates(open, other);
    Coordinates(other, open);
    SameMembersSameBox(Lons(open), Lons(other));
    SameMembersSameBox(Lats(open), Lats(other));
  }

  lemma Coordinates(open: seq<Vertex>, other: seq<Vertex>)
    requires forall v :: v in open ==> v in other
    ensures forall x :: x in Lons(open) ==> x in Lons(other)
    ensures forall y :: y in Lats(open) ==> y in Lats(other)
  {
    forall i | 0 <= i < |open| ensures open[i].lon in Lons(other) && open[i].lat in Lats(other) {
      assert open[i] in other;
      var j :| 0 <= j < |other| && other[j] == open[i];
      assert Lons(other)[j] == open[i].lon && Lats(other)[j] == open[i].lat;
    }
  }

  /** Containment does not depend on the starting vertex. */
  lemma RotationKeepsContainment(open: seq<Vertex>, k: nat, p: Vertex)
    requires k < |open|
    ensures ContainsAllEdges(Rotated(open, k), p) <==> ContainsAllEdges(open, p)
  {
    hide MinOf, MaxOf, Edges, CountIf, TouchedIn;
    var es, r := Edges(open), Rotated(open, k);
    assert |es| == |open| by { EdgesLength(open); }
    RotatedEdges(open, k);
    assert open == open[..k] + open[k..];
    assert forall v :: v in open <==> v in r;
    SameVerticesSameBox(open, r, p);
    var front, back := es[..k], es[k..];
    assert front + back == es;
    CountIfAppend(front, back, Toggling(p));
    CountIfAppend(back, front, Toggling(p));
    TouchedInAppend(front, back, p);
    TouchedInAppend(back, front, p);
  }

  lemma EdgesLength(open: seq<Vertex>)
    ensures |Edges(open)| == |open|
  {
  }

  /** Containment does not depend on the direction the ring is drawn in. */
  lemma ReversalKeepsContainment(open: seq<Vertex>, p: Vertex)
    requires open != []
    ensures ContainsAllEdges(Reversed(open), p) <==> ContainsAllEdges(open, p)
  {
    hide MinOf, MaxOf, Edges, CountIf, TouchedIn, Touches, Toggles, Flip, Next;
    var r, n := Reversed(open), |open|;
    forall i | 0 <= i < n ensures open[i] in r && r[i] in open {
      assert r[n - 1 - i] == open[i];
    }
    SameVerticesSameBox(open, r, p);
    ReversedRayCast(open, p);
  }

  lemma ReversedRayCast(open: seq<Vertex>, p: Vertex)
    requires open != []
    ensures RayCast(Edges(Reversed(open)), p) <==> RayCast(Edges(open), p)
  {
    hide MakeEdge, CountIf, TouchedIn, Touches, Toggles, Flip, Succ;
    var es, n := Edges(open), |open|;
    ReversedEdges(open);
    forall i | 0 <= i < n
      ensures Touches(Flip(es[i]), p) <==> Touches(es[i], p)
      ensures Toggles(Flip(es[i]), p) <==> Toggles(es[i], p)
    {
      FlipKeepsRayCast(open[i], Next(open, i), p);
    }
    var init, e := es[..n - 1], es[n - 1];
    assert init + [e] == es;
    BackwardsCount(init, p);
    BackwardsTouched(init, p);
    CountIfStep(Backwards(init), Flip(e), Toggling(p));
    CountIfStep(init, e, Toggling(p));
    TouchedBySplit(Backwards(init), Flip(e), p);
    TouchedBySplit(init, e, p);
  }

  // ----- The direction of the ray does not matter -----

  function TogglingWest(p: Vertex): Edge -> bool {
    (e: Edge) => Straddles(e, p.lat) && CrossingLon(e, p.lat) < p.lon
  }

  lemma {:induction false} CountIfSplits(es: seq<Edge>, f: Edge -> bool, g: Edge -> bool, h: Edge -> bool)
    requires forall i :: 0 <= i < |es| ==> (f(es[i]) <==> g(es[i]) || h(es[i])) && !(g(es[i]) && h(es[i]))
    ensures CountIf(es, f) == CountIf(es, g) + CountIf(es, h)
  {
    if es != [] {
      assert forall i :: 0 <= i < |es| - 1 ==> es[..|es| - 1][i] == es[i];
      CountIfSplits(es[..|es| - 1], f, g, h);
    }
  }

  /** Away from the edges, a ray towards -longitude would give the same answer. */
  lemma RayDirectionIrrelevant(open: seq<Vertex>, p: Vertex)
    requires open != [] && !TouchedIn(Edges(open), p)
    ensures Odd(CountIf(Edges(open), Toggling(p))) <==> Odd(CountIf(Edges(open), TogglingWest(p)))
  {
    hide Succ, MakeEdge, CrossingLon;
    CountIfSplits(Edges(open), Straddling(p.lat), Toggling(p), TogglingWest(p));
    ClosedRingStraddlesEvenly(open, p.lat);
  }

  // ----- What the answer means -----

  /** One end of the edge is above the latitude, and the other is not. */
  predicate Spans(a: Vertex, b: Vertex, lat: real) { a.lat <= lat < b.lat || b.lat <= lat < a.lat }

  /** At the point's latitude, a point of the edge is no further than the tolerance. */
  ghost predicate Near(a: Vertex, b: Vertex, p: Vertex) {
    exists q :: OnSegment(a, b, q) && q.lat == p.lat && p.lon - EDGE_TOLERANCE_DEG <= q.lon <= p.lon + EDGE_TOLERANCE_DEG
  }

  /** The edge settles the answer: it is near the point, or horizontal and holds it. */
  ghost predicate Settles(a: Vertex, b: Vertex, p: Vertex) {
    if Spans(a, b, p.lat) then Near(a, b, p) else a.lat == b.lat && OnSegment(a, b, p)
  }

  /** At the point's latitude, a point of the edge is further east. */
  ghost predicate EastOf(a: Vertex, b: Vertex, p: Vertex) {
    Spans(a, b, p.lat) && exists q :: OnSegment(a, b, q) && q.lat == p.lat && p.lon < q.lon
  }

  ghost function EdgesEast(open: seq<Vertex>, k: nat, p: Vertex): set<nat>
    requires k <= |open|
  {
    set i | 0 <= i < k && EastOf(open[i], Next(open, i), p)
  }

  /** What a drawn area contains: inside the vertices' box, a vertex, a point some edge settles,
      or a point with an odd number of edges to its east. */
  ghost predicate Encloses(open: seq<Vertex>, p: Vertex) {
    && (exists v :: v in open && v.lon <= p.lon) && (exists v :: v in open && p.lon <= v.lon)
    && (exists v :: v in open && v.lat <= p.lat) && (exists v :: v in open && p.lat <= v.lat)
    && (p in open
        || (exists i :: 0 <= i < |open| && Settles(open[i], Next(open, i), p))
        || Odd(|EdgesEast(open, |open|, p)|))
  }

  lemma CrossingIsOnSegment(a: Vertex, b: Vertex, lat: real)
    requires Spans(a, b, lat)
    ensures OnSegment(a, b, Vertex(CrossingLon(MakeEdge(a, b), lat), lat))
  {
    RatioBetween(lat - a.lat, b.lat - a.lat);
    SlopeForm(lat - a.lat, b.lon - a.lon, b.lat - a.lat);
    var t := (lat - a.lat) / (b.lat - a.lat);
    assert Vertex(CrossingLon(MakeEdge(a, b), lat), lat) == Along(a, b, t);
  }

  lemma CrossingIsTheOnly(a: Vertex, b: Vertex, q: Vertex)
    requires a.lat != b.lat && OnSegment(a, b, q)
    ensures q.lon == CrossingLon(MakeEdge(a, b), q.lat)
  {
    var t :| 0.0 <= t <= 1.0 && q == Along(a, b, t);
    SameParameter(t, b.lon - a.lon, b.lat - a.lat);
  }

  lemma SameParameter(t: real, w: real, h: real)
    requires h != 0.0
    ensures (t * h) * (w / h) == t * w
  {
    assert (t * h) * (w / h) == t * (h * (w / h));
  }

  lemma HorizontalHolds(a: Vertex, b: Vertex, p: Vertex)
    requires a.lat == b.lat
    ensures OnSegment(a, b, p) <==> p.lat == a.lat && Min(a.lon, b.lon) <= p.lon <= Max(a.lon, b.lon)
  {
    if OnSegment(a, b, p) {
      OnSegmentIsCollinearInBox(a, b, p);
    } else if p.lat == a.lat && Min(a.lon, b.lon) <= p.lon <= Max(a.lon, b.lon) {
      CollinearInBoxIsOnSegment(a, b, p);
    }
  }

  /** The source's two tests of one edge decide these questions about its points. */
  lemma EdgeTestsExact(a: Vertex, b: Vertex, p: Vertex)
    ensures Touches(MakeEdge(a, b), p) <==> Settles(a, b, p)
    ensures Toggles(MakeEdge(a, b), p) <==> EastOf(a, b, p)
  {
    if a.lat == b.lat {
      HorizontalHolds(a, b, p);
    }
    if Spans(a, b, p.lat) {
      CrossingIsOnSegment(a, b, p.lat);
      forall q | OnSegment(a, b, q) && q.lat == p.lat ensures q.lon == CrossingLon(MakeEdge(a, b), p.lat) {
        CrossingIsTheOnly(a, b, q);
      }
    }
    hide OnSegment, CrossingLon, MakeEdge;
  }

  lemma OneMoreEast(open: seq<Vertex>, k: nat, p: Vertex)
    requires k < |open|
    ensures |EdgesEast(open, k + 1, p)| == |EdgesEast(open, k, p)| + if EastOf(open[k], Next(open, k), p) then 1 else 0
  {
    hide EastOf, Succ;
    assert EdgesEast(open, k + 1, p) == EdgesEast(open, k, p) + if EastOf(open[k], Next(open, k), p) then {k} else {};
  }

  lemma NothingEast(open: seq<Vertex>, p: Vertex)
    ensures EdgesEast(open, 0, p) == {} && CountIf(EdgesTo(open, 0), Toggling(p)) == 0
  {
  }

  lemma {:induction false} TogglesAreEdgesEast(open: seq<Vertex>, k: nat, p: Vertex)
    requires k <= |open|
    ensures CountIf(EdgesTo(open, k), Toggling(p)) == |EdgesEast(open, k, p)|
  {
    hide MakeEdge, EastOf, Toggles, EdgesEast, EdgesTo, CountIf, Succ;
    if k == 0 {
      NothingEast(open, p);
    } else {
      var n := k - 1;
      TogglesAreEdgesEast(open, n, p);
      EdgesToStep(open, n);
      CountIfStep(EdgesTo(open, n), MakeEdge(open[n], Next(open, n)), Toggling(p));
      EdgeTestsExact(open[n], Next(open, n), p);
      OneMoreEast(open, n, p);
    }
  }

  lemma BoxOfVertices(open: seq<Vertex>, p: Vertex)
    requires open != []
    ensures MinOf(Lons(open)) <= p.lon <==> exists v :: v in open && v.lon <= p.lon
    ensures p.lon <= MaxOf(Lons(open)) <==> exists v :: v in open && p.lon <= v.lon
    ensures MinOf(Lats(open)) <= p.lat <==> exists v :: v in open && v.lat <= p.lat
    ensures p.lat <= MaxOf(Lats(open)) <==> exists v :: v in open && p.lat <= v.lat
  {
    hide MinOf, MaxOf;
    var lons, lats := Lons(open), Lats(open);
    MinOfIsLeast(lons);
    MaxOfIsGreatest(lons);
    MinOfIsLeast(lats);
    MaxOfIsGreatest(lats);
    assert forall i :: 0 <= i < |open| ==> lons[i] == open[i].lon && lats[i] == open[i].lat && open[i] in open;
  }

  /** The unbanded answer, said over the points of the edges. */
  lemma AllEdgesMeans(open: seq<Vertex>, p: Vertex)
    requires open != []
    ensures ContainsAllEdges(open, p) <==> Encloses(open, p)
  {
    hide MinOf, MaxOf, MakeEdge, Touches, Toggles, Settles, EastOf, CountIf, EdgesEast, Lons, Lats, Succ;
    BoxOfVertices(open, p);
    TogglesAreEdgesEast(open, |open|, p);
    forall i | 0 <= i < |open| ensures Touches(Edges(open)[i], p) <==> Settles(open[i], Next(open, i), p) {
      EdgeTestsExact(open[i], Next(open, i), p);
    }
  }

  // ----- From drawing to answer -----

  /** Validate, compile and test: a drawing is rejected with the validator's fault, and the
      compiled answer of an accepted one is whether it encloses the point; compiling never
      divides by zero. */
  method InsideDrawing(points: seq<Vertex>, p: Vertex) returns (outcome: Outcome, inside: bool)
    ensures outcome.Accepted? <==> Acceptable(Opened(points))
    ensures outcome.Accepted? ==> outcome.ring == Closed(Opened(points)) && (inside <==> ContainsAllEdges(Opened(points), p))
    ensures outcome.Accepted? ==> (inside <==> Encloses(Opened(points), p))
    ensures outcome.Rejected? ==> FirstFault(Opened(points), outcome.fault) && !inside
  {
    hide Acceptable, ContainsSpec, ContainsAllEdges, FirstFault, Encloses;
    outcome := NormalizeRing(points);
    match outcome
    case Rejected(_) => inside := false;
    case Accepted(ring) =>
      AcceptedCompiles(Opened(points));
      ReopenClosed(Opened(points));
      var area := FromRing(ring);
      BandedEqualsUnbanded(Opened(points), area, p);
      AllEdgesMeans(Opened(points), p);
      inside := Contains(area, p);
  }

  lemma AcceptedCompiles(open: seq<Vertex>)
    requires Acceptable(open)
    ensures |open| >= 1 && Compilable(open)
  {
    AcceptableHasHeight(open);
  }
}
