/** Segment geometry of the drawn-area condition (alerts/area.py), over exact reals.

    The executable tests are the source's own expressions. What a reader wants to know is
    that they decide a question about points: two closed segments are reported as
    intersecting exactly when some point lies on both. */
module Geometry {
  import opened Numbers


  /** A vertex in GeoJSON axis order. */
  datatype Vertex = Vertex(lon: real, lat: real)

  /** Twice the signed area of triangle abc. */
  function Orientation(a: Vertex, b: Vertex, c: Vertex): real {
    (b.lon - a.lon) * (c.lat - a.lat) - (b.lat - a.lat) * (c.lon - a.lon)
  }

  predicate WithinBox(a: Vertex, b: Vertex, p: Vertex) {
    && Min(a.lon, b.lon) <= p.lon <= Max(a.lon, b.lon)
    && Min(a.lat, b.lat) <= p.lat <= Max(a.lat, b.lat)
  }

  predicate OppositeSigns(x: real, y: real) {
    (x > 0.0 && y < 0.0) || (x < 0.0 && y > 0.0)
  }

  predicate SegmentsIntersect(a: Vertex, b: Vertex, c: Vertex, d: Vertex) {
    var o1 := Orientation(a, b, c);
    var o2 := Orientation(a, b, d);
    var o3 := Orientation(c, d, a);
    var o4 := Orientation(c, d, b);
    || (OppositeSigns(o1, o2) && OppositeSigns(o3, o4))
    || (o1 == 0.0 && WithinBox(a, b, c))
    || (o2 == 0.0 && WithinBox(a, b, d))
    || (o3 == 0.0 && WithinBox(c, d, a))
    || (o4 == 0.0 && WithinBox(c, d, b))
  }

  // ----- What the tests mean -----

  /** The point a fraction t of the way from a to b. */
  function Along(a: Vertex, b: Vertex, t: real): Vertex {
    Vertex(a.lon + t * (b.lon - a.lon), a.lat + t * (b.lat - a.lat))
  }

  ghost predicate OnSegment(a: Vertex, b: Vertex, p: Vertex) {
    exists t: real :: 0.0 <= t <= 1.0 && p == Along(a, b, t)
  }

  ghost predicate SharePoint(a: Vertex, b: Vertex, c: Vertex, d: Vertex) {
    exists p :: OnSegment(a, b, p) && OnSegment(c, d, p)
  }

  // ----- A point on a segment: collinear and inside the box, and conversely -----

  lemma ProductNonNegative(x: real, y: real)
    requires x >= 0.0 && y >= 0.0
    ensures x * y >= 0.0
  {
  }

  lemma FractionOf(w: real, t: real) returns (m: real)
    requires 0.0 <= t <= 1.0 && w >= 0.0
    ensures m == t * w && 0.0 <= m <= w
  {
    m := t * w;
    ProductNonNegative(t, w);
    ProductNonNegative(1.0 - t, w);
  }

  lemma BetweenScaled(x: real, y: real, t: real)
    requires 0.0 <= t <= 1.0
    ensures Min(x, y) <= x + t * (y - x) <= Max(x, y)
  {
    if x <= y {
      var m := FractionOf(y - x, t);
    } else {
      var m := FractionOf(x - y, t);
      assert t * (y - x) == -m;
    }
  }

  lemma OrientationAlong(a: Vertex, b: Vertex, t: real)
    ensures Orientation(a, b, Along(a, b, t)) == 0.0
  {
    var u, v := b.lon - a.lon, b.lat - a.lat;
    assert u * (t * v) == v * (t * u);
  }

  lemma OnSegmentIsCollinearInBox(a: Vertex, b: Vertex, p: Vertex)
    requires OnSegment(a, b, p)
    ensures Orientation(a, b, p) == 0.0 && WithinBox(a, b, p)
  {
    var t :| 0.0 <= t <= 1.0 && p == Along(a, b, t);
    BetweenScaled(a.lon, b.lon, t);
    BetweenScaled(a.lat, b.lat, t);
    OrientationAlong(a, b, t);
    hide Orientation;
  }

  lemma RatioBetween(n: real, d: real)
    requires d != 0.0
    requires 0.0 <= n <= d || d <= n <= 0.0
    ensures 0.0 <= n / d <= 1.0 && (n / d) * d == n
  {
    var q := n / d;
    assert q * d == n;
    assert d > 0.0 && q > 1.0 ==> (q - 1.0) * d > 0.0;
    assert d < 0.0 && q > 1.0 ==> (q - 1.0) * d < 0.0;
  }

  /** On a line through the origin, a coordinate fixes the parameter of the other one. */
  lemma LineParameter(u: real, v: real, x: real, y: real, t: real)
    requires u != 0.0 && u * y == v * x && t * u == x
    ensures t * v == y
  {
    assert u * (t * v) == (t * u) * v;
    assert u * (t * v - y) == 0.0;
  }

  lemma CollinearInBoxIsOnSegment(a: Vertex, b: Vertex, p: Vertex)
    requires Orientation(a, b, p) == 0.0 && WithinBox(a, b, p)
    ensures OnSegment(a, b, p)
  {
    var t := ParameterInBox(b.lon - a.lon, b.lat - a.lat, p.lon - a.lon, p.lat - a.lat);
    assert p == Along(a, b, t);
  }

  /** The point's parameter, from whichever coordinate changes along the segment. */
  lemma ParameterInBox(u: real, v: real, x: real, y: real) returns (t: real)
    requires u * y == v * x
    requires (0.0 <= x <= u || u <= x <= 0.0) && (0.0 <= y <= v || v <= y <= 0.0)
    ensures 0.0 <= t <= 1.0 && t * u == x && t * v == y
  {
    if u != 0.0 {
      t := x / u;
      RatioBetween(x, u);
      LineParameter(u, v, x, y, t);
    } else if v != 0.0 {
      t := y / v;
      RatioBetween(y, v);
      LineParameter(v, u, y, x, t);
    } else {
      t := 0.0;
    }
  }

  // ----- The segment test decides whether a common point exists -----

  /** A point between c and d sees ab with an orientation between those of c and d. */
  lemma OrientationMix(a: Vertex, b: Vertex, c: Vertex, d: Vertex, s: real)
    ensures Orientation(a, b, Along(c, d, s)) == (1.0 - s) * Orientation(a, b, c) + s * Orientation(a, b, d)
  {
    var u, v := b.lon - a.lon, b.lat - a.lat;
    var w, x := d.lat - c.lat, d.lon - c.lon;
    assert u * (s * w) - v * (s * x) == s * (u * w - v * x);
  }

  lemma ZeroMix(x: real, y: real, s: real)
    requires 0.0 <= s <= 1.0 && (1.0 - s) * x + s * y == 0.0
    ensures OppositeSigns(x, y) || (x == 0.0 && y == 0.0) || (x == 0.0 && s == 0.0) || (y == 0.0 && s == 1.0)
  {
    ScaledSign(1.0 - s, x);
    ScaledSign(s, y);
  }

  lemma ScaledSign(k: real, x: real)
    requires k >= 0.0
    ensures x > 0.0 ==> k * x >= 0.0
    ensures x < 0.0 ==> k * x <= 0.0
    ensures k * x == 0.0 ==> k == 0.0 || x == 0.0
    ensures k == 0.0 || x == 0.0 ==> k * x == 0.0
  {
    if x < 0.0 {
      assert k * x == -(k * -x);
    }
  }

  lemma ParameterOf(a: Vertex, b: Vertex, p: Vertex) returns (t: real)
    requires a != b && Orientation(a, b, p) == 0.0
    ensures p == Along(a, b, t)
  {
    var u, v := b.lon - a.lon, b.lat - a.lat;
    var x, y := p.lon - a.lon, p.lat - a.lat;
    if u != 0.0 {
      t := x / u;
      assert t * u == x;
      LineParameter(u, v, x, y, t);
    } else {
      t := y / v;
      assert t * v == y;
      LineParameter(v, u, y, x, t);
    }
  }

  lemma MixOnAxis(o: real, u: real, tc: real, td: real, s: real)
    ensures (o + tc * u) + s * ((o + td * u) - (o + tc * u)) == o + (tc + s * (td - tc)) * u
  {
    calc {
      s * ((o + td * u) - (o + tc * u));
      s * ((td - tc) * u);
      (s * (td - tc)) * u;
    }
  }

  /** The parameter of a point of cd along ab, when both ends lie on line ab. */
  lemma ParameterMix(a: Vertex, b: Vertex, tc: real, td: real, s: real)
    ensures Along(Along(a, b, tc), Along(a, b, td), s) == Along(a, b, tc + s * (td - tc))
  {
    MixOnAxis(a.lon, b.lon - a.lon, tc, td, s);
    MixOnAxis(a.lat, b.lat - a.lat, tc, td, s);
  }

  lemma ParameterUnique(a: Vertex, b: Vertex, t: real, t': real)
    requires a != b && Along(a, b, t) == Along(a, b, t')
    ensures t == t'
  {
    var u, v := b.lon - a.lon, b.lat - a.lat;
    assert (t - t') * u == 0.0 && (t - t') * v == 0.0;
  }

  /** Two intervals of a line with a common point: an end of one lies in the other. */
  lemma OverlapOnLine(tc: real, td: real, s: real)
    requires 0.0 <= s <= 1.0 && 0.0 <= tc + s * (td - tc) <= 1.0
    requires !(0.0 <= tc <= 1.0) && !(0.0 <= td <= 1.0)
    ensures tc != td
    ensures 0.0 <= -tc / (td - tc) <= 1.0 && tc + (-tc / (td - tc)) * (td - tc) == 0.0
  {
    BetweenScaled(tc, td, s);
    RatioBetween(-tc, td - tc);
  }

  /** Overlapping collinear segments: an end of one lies on the other. */
  lemma CollinearOverlap(a: Vertex, b: Vertex, tc: real, td: real, t: real, s: real)
    requires a != b
    requires 0.0 <= t <= 1.0 && 0.0 <= s <= 1.0
    requires Along(a, b, t) == Along(Along(a, b, tc), Along(a, b, td), s)
    ensures
      || OnSegment(a, b, Along(a, b, tc))
      || OnSegment(a, b, Along(a, b, td))
      || OnSegment(Along(a, b, tc), Along(a, b, td), a)
  {
    ParameterMix(a, b, tc, td, s);
    ParameterUnique(a, b, t, tc + s * (td - tc));
    if !(0.0 <= tc <= 1.0) && !(0.0 <= td <= 1.0) {
      OverlapOnLine(tc, td, s);
      var r := -tc / (td - tc);
      ParameterMix(a, b, tc, td, r);
      assert a == Along(a, b, 0.0);
      assert a == Along(Along(a, b, tc), Along(a, b, td), r);
    }
  }

  /** When c and d lie on line ab and the segments share a point, the test reports it. */
  lemma CollinearIsReported(a: Vertex, b: Vertex, c: Vertex, d: Vertex, t: real, s: real)
    requires Orientation(a, b, c) == 0.0 && Orientation(a, b, d) == 0.0
    requires 0.0 <= t <= 1.0 && 0.0 <= s <= 1.0 && Along(a, b, t) == Along(c, d, s)
    ensures OnSegment(a, b, c) || OnSegment(a, b, d) || OnSegment(c, d, a)
  {
    if a == b {
      assert a == Along(a, b, t) == Along(c, d, s);
    } else {
      var tc := ParameterOf(a, b, c);
      var td := ParameterOf(a, b, d);
      CollinearOverlap(a, b, tc, td, t, s);
    }
  }

  /** Neither pair of ends is strictly on opposite sides: one line carries both segments,
      or the shared point is an end. */
  lemma EndsOrCollinear(a: Vertex, b: Vertex, c: Vertex, d: Vertex, t: real, s: real)
    requires 0.0 <= t <= 1.0 && 0.0 <= s <= 1.0 && Along(a, b, t) == Along(c, d, s)
    ensures
      var o1, o2 := Orientation(a, b, c), Orientation(a, b, d);
      OppositeSigns(o1, o2) || (o1 == 0.0 && o2 == 0.0) || (o1 == 0.0 && s == 0.0) || (o2 == 0.0 && s == 1.0)
  {
    OrientationMix(a, b, c, d, s);
    OrientationAlong(a, b, t);
    ZeroMix(Orientation(a, b, c), Orientation(a, b, d), s);
  }

  lemma EndIsReported(a: Vertex, b: Vertex, c: Vertex, d: Vertex, t: real, s: real)
    requires 0.0 <= t <= 1.0 && Along(a, b, t) == Along(c, d, s)
    requires s == 0.0 || s == 1.0
    ensures OnSegment(a, b, c) || OnSegment(a, b, d)
  {
    assert Along(c, d, s) == if s == 0.0 then c else d;
  }

  lemma SharedPointIsReported(a: Vertex, b: Vertex, c: Vertex, d: Vertex)
    requires SharePoint(a, b, c, d)
    ensures SegmentsIntersect(a, b, c, d)
  {
    var p :| OnSegment(a, b, p) && OnSegment(c, d, p);
    var t :| 0.0 <= t <= 1.0 && p == Along(a, b, t);
    var s :| 0.0 <= s <= 1.0 && p == Along(c, d, s);
    EndsOrCollinear(a, b, c, d, t, s);
    EndsOrCollinear(c, d, a, b, s, t);
    var o1, o2 := Orientation(a, b, c), Orientation(a, b, d);
    var o3, o4 := Orientation(c, d, a), Orientation(c, d, b);
    if OppositeSigns(o1, o2) && OppositeSigns(o3, o4) {
    } else if s == 0.0 || s == 1.0 {
      EndIsReported(a, b, c, d, t, s);
      ReportEnds(a, b, c, d);
    } else if t == 0.0 || t == 1.0 {
      EndIsReported(c, d, a, b, s, t);
      ReportEnds(a, b, c, d);
    } else if o1 == 0.0 && o2 == 0.0 {
      CollinearIsReported(a, b, c, d, t, s);
      ReportEnds(a, b, c, d);
    } else {
      CollinearIsReported(c, d, a, b, s, t);
      ReportEnds(a, b, c, d);
    }
  }

  lemma ReportEnds(a: Vertex, b: Vertex, c: Vertex, d: Vertex)
    requires OnSegment(a, b, c) || OnSegment(a, b, d) || OnSegment(c, d, a) || OnSegment(c, d, b)
    ensures SegmentsIntersect(a, b, c, d)
  {
    if OnSegment(a, b, c) { OnSegmentIsCollinearInBox(a, b, c); }
    else if OnSegment(a, b, d) { OnSegmentIsCollinearInBox(a, b, d); }
    else if OnSegment(c, d, a) { OnSegmentIsCollinearInBox(c, d, a); }
    else { OnSegmentIsCollinearInBox(c, d, b); }
  }

  /** One coordinate of the crossing point, written from both segments. With k the common
      denominator, both sides times k agree. */
  lemma CrossingOnAxis(a: real, b: real, c: real, d: real, t: real, s: real, k: real, o1: real, o3: real)
    requires k != 0.0 && t * k == o3 && s * k == -o1
    requires k * (a - c) + o3 * (b - a) + o1 * (d - c) == 0.0
    ensures a + t * (b - a) == c + s * (d - c)
  {
    var gap := (a + t * (b - a)) - (c + s * (d - c));
    assert k * (t * (b - a)) == (t * k) * (b - a);
    assert k * (s * (d - c)) == (s * k) * (d - c);
    assert k * gap == 0.0;
  }

  /** Where the lines of two properly crossing segments meet. */
  lemma CrossingPoint(a: Vertex, b: Vertex, c: Vertex, d: Vertex)
    requires OppositeSigns(Orientation(a, b, c), Orientation(a, b, d))
    requires OppositeSigns(Orientation(c, d, a), Orientation(c, d, b))
    ensures SharePoint(a, b, c, d)
  {
    var o1, o2 := Orientation(a, b, c), Orientation(a, b, d);
    var o3, o4 := Orientation(c, d, a), Orientation(c, d, b);
    assert o3 - o4 == o2 - o1;
    var k := o3 - o4;
    var t, s := o3 / k, o1 / (o1 - o2);
    RatioBetween(o3, k);
    RatioBetween(o1, o1 - o2);
    assert s * k == -o1;
    CrossingIdentity(a, b, c, d);
    CrossingOnAxis(a.lon, b.lon, c.lon, d.lon, t, s, k, o1, o3);
    CrossingOnAxis(a.lat, b.lat, c.lat, d.lat, t, s, k, o1, o3);
    var p := Along(a, b, t);
    assert OnSegment(a, b, p);
    assert p == Along(c, d, s);
    assert OnSegment(c, d, p);
  }

  lemma CrossingIdentity(a: Vertex, b: Vertex, c: Vertex, d: Vertex)
    ensures
      var o1, o3, o4 := Orientation(a, b, c), Orientation(c, d, a), Orientation(c, d, b);
      && (o3 - o4) * (a.lon - c.lon) + o3 * (b.lon - a.lon) + o1 * (d.lon - c.lon) == 0.0
      && (o3 - o4) * (a.lat - c.lat) + o3 * (b.lat - a.lat) + o1 * (d.lat - c.lat) == 0.0
  {
  }

  /** The segment test is exact for every pair of segments, degenerate ones included. */
  lemma SegmentsIntersectExact(a: Vertex, b: Vertex, c: Vertex, d: Vertex)
    ensures SegmentsIntersect(a, b, c, d) <==> SharePoint(a, b, c, d)
  {
    if SharePoint(a, b, c, d) {
      SharedPointIsReported(a, b, c, d);
    }
    if SegmentsIntersect(a, b, c, d) {
      if OppositeSigns(Orientation(a, b, c), Orientation(a, b, d))
         && OppositeSigns(Orientation(c, d, a), Orientation(c, d, b)) {
        CrossingPoint(a, b, c, d);
      } else {
        ShareAnEnd(a, b, c, d);
      }
    }
  }

  lemma ShareAnEnd(a: Vertex, b: Vertex, c: Vertex, d: Vertex)
    requires
      || (Orientation(a, b, c) == 0.0 && WithinBox(a, b, c))
      || (Orientation(a, b, d) == 0.0 && WithinBox(a, b, d))
      || (Orientation(c, d, a) == 0.0 && WithinBox(c, d, a))
      || (Orientation(c, d, b) == 0.0 && WithinBox(c, d, b))
    ensures SharePoint(a, b, c, d)
  {
    assert a == Along(a, b, 0.0) && b == Along(a, b, 1.0);
    assert c == Along(c, d, 0.0) && d == Along(c, d, 1.0);
    if Orientation(a, b, c) == 0.0 && WithinBox(a, b, c) {
      CollinearInBoxIsOnSegment(a, b, c);
    } else if Orientation(a, b, d) == 0.0 && WithinBox(a, b, d) {
      CollinearInBoxIsOnSegment(a, b, d);
    } else if Orientation(c, d, a) == 0.0 && WithinBox(c, d, a) {
      CollinearInBoxIsOnSegment(c, d, a);
    } else {
      CollinearInBoxIsOnSegment(c, d, b);
    }
  }

  // ----- Consecutive edges -----

  function Dot(a: Vertex, b: Vertex, c: Vertex): real {
    (b.lon - a.lon) * (c.lon - b.lon) + (b.lat - a.lat) * (c.lat - b.lat)
  }

  /** The edge after ab runs back along it. */
  predicate FoldsBack(a: Vertex, b: Vertex, c: Vertex) {
    Orientation(a, b, c) == 0.0 && Dot(a, b, c) < 0.0
  }

  lemma TurningBackOnAxis(a: real, b: real, c: real, t: real, s: real)
    requires a + t * (b - a) == b + s * (c - b)
    ensures s * (c - b) == -(1.0 - t) * (b - a)
  {
  }

  lemma SecondCommonPointFolds(a: Vertex, b: Vertex, c: Vertex, p: Vertex)
    requires a != b && p != b && OnSegment(a, b, p) && OnSegment(b, c, p)
    ensures FoldsBack(a, b, c)
  {
    var t :| 0.0 <= t <= 1.0 && p == Along(a, b, t);
    var s :| 0.0 <= s <= 1.0 && p == Along(b, c, s);
    assert Along(a, b, 1.0) == b == Along(b, c, 0.0);
    assert t < 1.0 && s > 0.0;
    ParametersFold(a, b, c, t, s);
  }

  lemma ParametersFold(a: Vertex, b: Vertex, c: Vertex, t: real, s: real)
    requires a != b && t < 1.0 && s > 0.0 && Along(a, b, t) == Along(b, c, s)
    ensures FoldsBack(a, b, c)
  {
    TurningBackOnAxis(a.lon, b.lon, c.lon, t, s);
    TurningBackOnAxis(a.lat, b.lat, c.lat, t, s);
    BackwardsScalars(b.lon - a.lon, b.lat - a.lat, c.lon - b.lon, c.lat - b.lat, 1.0 - t, s);
    OrientationAtCorner(a, b, c);
  }

  lemma OrientationAtCorner(a: Vertex, b: Vertex, c: Vertex)
    ensures Orientation(a, b, c) == (b.lon - a.lon) * (c.lat - b.lat) - (b.lat - a.lat) * (c.lon - b.lon)
  {
  }

  lemma OppositeProduct(u: real, w: real, r: real, s: real)
    requires r > 0.0 && s > 0.0 && s * w == -r * u
    ensures u == 0.0 ==> w == 0.0
    ensures u != 0.0 ==> u * w < 0.0
  {
    if u > 0.0 {
      assert r * u > 0.0;
      assert w < 0.0;
    } else if u < 0.0 {
      assert r * u < 0.0;
      assert w > 0.0;
    } else {
      assert r * u == 0.0;
    }
  }

  lemma BackwardsScalars(u: real, v: real, w: real, x: real, r: real, s: real)
    requires r > 0.0 && s > 0.0 && (u != 0.0 || v != 0.0)
    requires s * w == -r * u && s * x == -r * v
    ensures u * x - v * w == 0.0 && u * w + v * x < 0.0
  {
    OppositeProduct(u, w, r, s);
    OppositeProduct(v, x, r, s);
    assert u == 0.0 ==> u * w == 0.0;
    assert v == 0.0 ==> v * x == 0.0;
    assert s * (u * x - v * w) == u * (s * x) - v * (s * w);
    assert u * (r * v) == v * (r * u);
  }

  lemma FoldHasSecondCommonPoint(a: Vertex, b: Vertex, c: Vertex) returns (p: Vertex)
    requires a != b && b != c && FoldsBack(a, b, c)
    ensures p != b && OnSegment(a, b, p) && OnSegment(b, c, p)
  {
    var tc := ParameterOf(a, b, c);
    assert b == Along(a, b, 1.0) && a == Along(a, b, 0.0);
    FoldParameter(b.lon - a.lon, b.lat - a.lat, tc);
    if tc >= 0.0 {
      p := c;
      assert c == Along(b, c, 1.0);
    } else {
      p := a;
      RatioBetween(-1.0, tc - 1.0);
      var r := -1.0 / (tc - 1.0);
      ParameterMix(a, b, 1.0, tc, r);
      assert a == Along(b, c, r);
    }
  }

  lemma FoldParameter(u: real, v: real, tc: real)
    ensures u * (tc * u - u) + v * (tc * v - v) < 0.0 ==> tc < 1.0
  {
    assert u * (tc * u - u) + v * (tc * v - v) == (tc - 1.0) * (u * u + v * v);
    assert tc >= 1.0 ==> (tc - 1.0) * (u * u + v * v) >= 0.0;
  }

  /** The fold-back test is exact: it fires when the two edges share more than their vertex. */
  lemma FoldsBackExact(a: Vertex, b: Vertex, c: Vertex)
    requires a != b && b != c
    ensures FoldsBack(a, b, c) <==> exists p :: p != b && OnSegment(a, b, p) && OnSegment(b, c, p)
  {
    if FoldsBack(a, b, c) {
      var p := FoldHasSecondCommonPoint(a, b, c);
    }
    forall p | p != b && OnSegment(a, b, p) && OnSegment(b, c, p)
      ensures FoldsBack(a, b, c)
    {
      SecondCommonPointFolds(a, b, c, p);
    }
  }
}
