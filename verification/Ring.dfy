/** Ring validation (alerts/area.py, normalize_ring).

    The loops of the source check pairs of edges in a fixed order and stop at the first
    fault. Proved here: what is accepted is exactly a simple polygon, and what is
    reported is the first fault in the source's order. */
module Ring {
  import opened Geometry
  import opened Sequences

  const MIN_AREA_VERTICES: nat := 3
  const MAX_AREA_VERTICES: nat := 64
  const EDGE_TOLERANCE_DEG: real := 0.000000001

  /** The reasons normalize_ring gives, with the positions its messages name (from zero). */
  datatype Fault =
    | VertexCount(count: nat)
    | BadLongitude(vertex: nat)
    | BadLatitude(vertex: nat)
    | RepeatedVertex
    | CrossesAntimeridian
    | EdgeFoldsBack(edge: nat)
    | EdgesCross(first: nat, second: nat)
    | NoArea

  datatype Outcome = Accepted(ring: seq<Vertex>) | Rejected(fault: Fault)

  // ----- The ring without its closing vertex -----

  function Opened(points: seq<Vertex>): seq<Vertex> {
    if |points| >= 2 && points[0] == points[|points| - 1] then points[..|points| - 1] else points
  }

  function Closed(open: seq<Vertex>): seq<Vertex>
    requires |open| > 0
  {
    open + [open[0]]
  }

  /** The position after i, going round. */
  function Succ(n: nat, i: nat): (k: nat)
    requires i < n
    ensures k == if i + 1 == n then 0 else i + 1
  {
    (i + 1) % n
  }

  function Next(open: seq<Vertex>, i: nat): Vertex
    requires i < |open|
  {
    open[Succ(|open|, i)]
  }

  /** Each vertex is followed by the one after it, and the last by the first. */
  lemma NextGoesRound(open: seq<Vertex>, i: nat)
    requires i < |open|
    ensures Next(open, i) == if i + 1 < |open| then open[i + 1] else open[0]
  {
  }

  predicate GoodLongitude(v: Vertex) { -180.0 <= v.lon <= 180.0 }

  predicate GoodLatitude(v: Vertex) { -90.0 <= v.lat <= 90.0 }

  predicate GoodCount(open: seq<Vertex>) { MIN_AREA_VERTICES <= |open| <= MAX_AREA_VERTICES }

  /** The edge from vertex i spans more than half the world. */
  predicate TooWide(open: seq<Vertex>, i: nat)
    requires i < |open|
  {
    var gap := Next(open, i).lon - open[i].lon;
    gap > 180.0 || gap < -180.0
  }

  predicate Folds(open: seq<Vertex>, i: nat)
    requires i < |open|
  {
    FoldsBack(open[i], Next(open, i), Next(open, Succ(|open|, i)))
  }

  /** Edge j is compared with edge i: later, and not adjacent to it. */
  predicate Compared(n: nat, i: nat, j: nat) { i + 2 <= j < n && !(i == 0 && j == n - 1) }

  predicate Cross(open: seq<Vertex>, i: nat, j: nat)
    requires i < |open| && j < |open|
  {
    SegmentsIntersect(open[i], Next(open, i), open[j], Next(open, j))
  }

  /** Row i of the pairwise check finds nothing among edges before upTo. */
  predicate RowClear(open: seq<Vertex>, i: nat, upTo: nat)
    requires i < |open| && upTo <= |open|
  {
    forall j :: 0 <= j < upTo && Compared(|open|, i, j) ==> !Cross(open, i, j)
  }

  predicate RowsClear(open: seq<Vertex>, rows: nat)
    requires rows <= |open|
  {
    forall i :: 0 <= i < rows ==> !Folds(open, i) && RowClear(open, i, |open|)
  }

  function DoubledAreaTo(open: seq<Vertex>, k: nat): real
    requires k <= |open|
  {
    if k == 0 then 0.0
    else
      var a, b := open[k - 1], Next(open, k - 1);
      DoubledAreaTo(open, k - 1) + (a.lon * b.lat - b.lon * a.lat)
  }

  predicate HasArea(open: seq<Vertex>) {
    var area := DoubledAreaTo(open, |open|);
    area > EDGE_TOLERANCE_DEG * EDGE_TOLERANCE_DEG || -area > EDGE_TOLERANCE_DEG * EDGE_TOLERANCE_DEG
  }

  predicate GoodVerticesTo(open: seq<Vertex>, k: nat)
    requires k <= |open|
  {
    forall i :: 0 <= i < k ==> GoodLongitude(open[i]) && GoodLatitude(open[i])
  }

  predicate GoodVertices(open: seq<Vertex>) { GoodVerticesTo(open, |open|) }

  predicate NoneTooWide(open: seq<Vertex>) {
    forall i :: 0 <= i < |open| ==> !TooWide(open, i)
  }

  predicate Acceptable(open: seq<Vertex>) {
    && GoodCount(open)
    && GoodVertices(open)
    && Distinct(open)
    && NoneTooWide(open)
    && RowsClear(open, |open|)
    && HasArea(open)
  }

  /** The fault is present, and nothing the source checks before it is wrong. */
  predicate FirstFault(open: seq<Vertex>, f: Fault) {
    match f
    case VertexCount(n) => n == |open| && !GoodCount(open)
    case BadLongitude(i) =>
      GoodCount(open) && i < |open| && GoodVerticesTo(open, i) && !GoodLongitude(open[i])
    case BadLatitude(i) =>
      GoodCount(open) && i < |open| && GoodVerticesTo(open, i) && GoodLongitude(open[i]) && !GoodLatitude(open[i])
    case RepeatedVertex => GoodCount(open) && GoodVertices(open) && !Distinct(open)
    case CrossesAntimeridian => GoodCount(open) && GoodVertices(open) && Distinct(open) && !NoneTooWide(open)
    case EdgeFoldsBack(i) =>
      && GoodCount(open) && GoodVertices(open) && Distinct(open) && NoneTooWide(open)
      && i < |open| && RowsClear(open, i) && Folds(open, i)
    case EdgesCross(i, j) =>
      && GoodCount(open) && GoodVertices(open) && Distinct(open) && NoneTooWide(open)
      && Compared(|open|, i, j) && RowsClear(open, i) && !Folds(open, i) && RowClear(open, i, j) && Cross(open, i, j)
    case NoArea =>
      && GoodCount(open) && GoodVertices(open) && Distinct(open) && NoneTooWide(open)
      && RowsClear(open, |open|) && !HasArea(open)
  }

  // ----- The validator -----

  lemma {:induction false} DistinctByCardinality(s: seq<Vertex>)
    ensures |set v | v in s| <= |s|
    ensures |set v | v in s| == |s| <==> Distinct(s)
  {
    if s != [] {
      var init, last := s[..|s| - 1], s[|s| - 1];
      DistinctByCardinality(init);
      var before := set v | v in init;
      assert (set v | v in s) == before + {last};
      if last in before {
        assert before + {last} == before;
      } else {
        forall i, j | 0 <= i < j < |s| && Distinct(init) ensures s[i] != s[j] {
          if j == |s| - 1 { assert s[i] == init[i]; } else { assert s[i] == init[i] && s[j] == init[j]; }
        }
        assert Distinct(s) ==> Distinct(init) by {
          assert forall i :: 0 <= i < |init| ==> init[i] == s[i];
        }
      }
    }
  }

  /** The pairwise pass: every edge against its successor and the later non-adjacent edges. */
  method CheckEdges(ring: seq<Vertex>) returns (clear: bool, fault: Fault)
    requires GoodCount(ring)
    ensures clear <==> RowsClear(ring, |ring|)
    ensures !clear ==>
      match fault
      case EdgeFoldsBack(i) => i < |ring| && RowsClear(ring, i) && Folds(ring, i)
      case EdgesCross(i, j) =>
        Compared(|ring|, i, j) && RowsClear(ring, i) && !Folds(ring, i) && RowClear(ring, i, j) && Cross(ring, i, j)
      case _ => false
  {
    hide SegmentsIntersect, FoldsBack, Succ;
    fault := NoArea;
    var count := |ring|;
    for i := 0 to count
      invariant RowsClear(ring, i)
    {
      if Folds(ring, i) {
        return false, EdgeFoldsBack(i);
      }
      var j := i + 2;
      while j < count
        invariant i + 2 <= j
        invariant RowClear(ring, i, if j <= count then j else count)
      {
        if !(i == 0 && j == count - 1) && Cross(ring, i, j) {
          assert !RowClear(ring, i, count);
          return false, EdgesCross(i, j);
        }
        j := j + 1;
      }
    }
    return true, fault;
  }

  method DoubledArea(ring: seq<Vertex>) returns (area: real)
    ensures area == DoubledAreaTo(ring, |ring|)
  {
    hide Succ;
    area := 0.0;
    for k := 0 to |ring|
      invariant area == DoubledAreaTo(ring, k)
    {
      var a, b := ring[k], Next(ring, k);
      area := area + (a.lon * b.lat - b.lon * a.lat);
    }
  }

  method NormalizeRing(points: seq<Vertex>) returns (r: Outcome)
    ensures r.Accepted? <==> Acceptable(Opened(points))
    ensures r.Accepted? ==> r.ring == Closed(Opened(points))
    ensures r.Accepted? ==> r.ring == if points[0] == points[|points| - 1] then points else points + [points[0]]
    ensures r.Rejected? ==> FirstFault(Opened(points), r.fault)
  {
    hide SegmentsIntersect, FoldsBack, Succ, DoubledAreaTo;
    var ring := points;
    if |ring| >= 2 && ring[0] == ring[|ring| - 1] {
      ring := ring[..|ring| - 1];
    }
    var count := |ring|;
    if !(MIN_AREA_VERTICES <= count <= MAX_AREA_VERTICES) {
      return Rejected(VertexCount(count));
    }
    for index := 0 to count
      invariant GoodVerticesTo(ring, index)
    {
      if !GoodLongitude(ring[index]) {
        return Rejected(BadLongitude(index));
      }
      if !GoodLatitude(ring[index]) {
        return Rejected(BadLatitude(index));
      }
    }
    DistinctByCardinality(ring);
    if |set v | v in ring| != count {
      return Rejected(RepeatedVertex);
    }
    for index := 0 to count
      invariant forall k :: 0 <= k < index ==> !TooWide(ring, k)
    {
      if TooWide(ring, index) {
        return Rejected(CrossesAntimeridian);
      }
    }
    var clear, fault := CheckEdges(ring);
    if !clear {
      return Rejected(fault);
    }
    var doubledArea := DoubledArea(ring);
    if -(EDGE_TOLERANCE_DEG * EDGE_TOLERANCE_DEG) <= doubledArea <= EDGE_TOLERANCE_DEG * EDGE_TOLERANCE_DEG {
      return Rejected(NoArea);
    }
    return Accepted(ring + [ring[0]]);
  }

  /** The reported fault is determined by the ring, and only unacceptable rings have one. */
  lemma FaultIsUnique(open: seq<Vertex>, f: Fault, g: Fault)
    requires FirstFault(open, f) && FirstFault(open, g)
    ensures f == g && !Acceptable(open)
  {
    FaultExcludesAcceptance(open, f);
    FaultExcludesAcceptance(open, g);
    if (f.BadLongitude? || f.BadLatitude?) && (g.BadLongitude? || g.BadLatitude?) {
      VertexFaultIsUnique(open, f, g);
    }
    if (f.EdgeFoldsBack? || f.EdgesCross? || f.NoArea?) && (g.EdgeFoldsBack? || g.EdgesCross? || g.NoArea?) {
      RowFaultIsUnique(open, f, g);
    }
    hide GoodCount, GoodVertices, GoodVerticesTo, Distinct, NoneTooWide, RowsClear, RowClear, Folds, Cross, Compared, HasArea;
  }

  lemma VertexFaultIsUnique(open: seq<Vertex>, f: Fault, g: Fault)
    requires FirstFault(open, f) && FirstFault(open, g)
    requires (f.BadLongitude? || f.BadLatitude?) && (g.BadLongitude? || g.BadLatitude?)
    ensures f == g
  {
    hide GoodLongitude, GoodLatitude, GoodCount;
  }

  lemma RowFaultIsUnique(open: seq<Vertex>, f: Fault, g: Fault)
    requires FirstFault(open, f) && FirstFault(open, g)
    requires (f.EdgeFoldsBack? || f.EdgesCross? || f.NoArea?) && (g.EdgeFoldsBack? || g.EdgesCross? || g.NoArea?)
    ensures f == g
  {
    hide GoodCount, GoodVertices, Distinct, NoneTooWide, Folds, Cross, HasArea;
  }

  lemma FaultExcludesAcceptance(open: seq<Vertex>, f: Fault)
    requires FirstFault(open, f)
    ensures !Acceptable(open)
    ensures f.BadLongitude? || f.BadLatitude? ==> !GoodVertices(open)
    ensures f.EdgesCross? ==> !RowClear(open, f.first, |open|)
  {
    hide SegmentsIntersect, FoldsBack, Succ;
    if f.EdgesCross? {
      assert Cross(open, f.first, f.second);
    }
  }

  // ----- A stored ring is a fixed point -----

  lemma ReopenClosed(open: seq<Vertex>)
    requires |open| >= 1
    ensures Opened(Closed(open)) == open
  {
  }

  /** Validating what was accepted accepts it again, unchanged. */
  method NormalizeTwice(points: seq<Vertex>) returns (once: Outcome, twice: Outcome)
    ensures once.Accepted? ==> twice == once
  {
    once := NormalizeRing(points);
    twice := once;
    if once.Accepted? {
      ReopenClosed(Opened(points));
      twice := NormalizeRing(once.ring);
    }
  }

  // ----- What is accepted: simple polygons -----

  /** Two edges meet at most in the vertex they share. */
  ghost predicate Simple(open: seq<Vertex>) {
    forall i, j, p ::
      0 <= i < j < |open| && OnSegment(open[i], Next(open, i), p) && OnSegment(open[j], Next(open, j), p)
      ==> (j == i + 1 && p == open[j]) || (i == 0 && j == |open| - 1 && p == open[0])
  }

  lemma NoFoldsMeansCornersOnly(open: seq<Vertex>, i: nat)
    requires GoodCount(open) && Distinct(open) && i < |open|
    ensures
      !Folds(open, i) <==>
      forall p ::
        OnSegment(open[i], Next(open, i), p) && OnSegment(Next(open, i), Next(open, Succ(|open|, i)), p)
        ==> p == Next(open, i)
  {
    hide FoldsBack, OnSegment, Succ;
    FoldsBackExact(open[i], Next(open, i), Next(open, Succ(|open|, i)));
  }

  lemma ClearRowsMeanSimple(open: seq<Vertex>)
    requires GoodCount(open) && Distinct(open) && RowsClear(open, |open|)
    ensures Simple(open)
  {
    hide SegmentsIntersect, FoldsBack, OnSegment, Succ;
    forall i, j, p |
      0 <= i < j < |open| && OnSegment(open[i], Next(open, i), p) && OnSegment(open[j], Next(open, j), p)
      ensures (j == i + 1 && p == open[j]) || (i == 0 && j == |open| - 1 && p == open[0])
    {
      NoFoldsMeansCornersOnly(open, i);
      NoFoldsMeansCornersOnly(open, j);
      assert Compared(|open|, i, j) ==> !Cross(open, i, j);
      SegmentsIntersectExact(open[i], Next(open, i), open[j], Next(open, j));
    }
  }

  lemma SimpleMeansClearRows(open: seq<Vertex>)
    requires GoodCount(open) && Distinct(open) && Simple(open)
    ensures RowsClear(open, |open|)
  {
    hide SegmentsIntersect, FoldsBack, OnSegment, Succ;
    forall i | 0 <= i < |open|
      ensures !Folds(open, i) && RowClear(open, i, |open|)
    {
      NoFoldsMeansCornersOnly(open, i);
      forall j: nat | Compared(|open|, i, j) ensures !Cross(open, i, j) {
        SegmentsIntersectExact(open[i], Next(open, i), open[j], Next(open, j));
      }
    }
  }

  /** The pairwise checks decide simplicity, so acceptance is a statement about the polygon. */
  lemma AcceptedExactlySimplePolygons(open: seq<Vertex>)
    ensures
      Acceptable(open) <==>
      GoodCount(open) && GoodVertices(open) && Distinct(open) && NoneTooWide(open) && Simple(open) && HasArea(open)
  {
    hide SegmentsIntersect, FoldsBack, OnSegment, Succ;
    if GoodCount(open) && Distinct(open) {
      if RowsClear(open, |open|) { ClearRowsMeanSimple(open); }
      if Simple(open) { SimpleMeansClearRows(open); }
    }
  }

  /** The doubled areas of the first k triangles that fan out from the first vertex. */
  function FanTo(open: seq<Vertex>, k: nat): real
    requires 0 < |open| && k < |open|
  {
    if k <= 1 then 0.0 else FanTo(open, k - 1) + Orientation(open[0], open[k - 1], open[k])
  }

  function CrossProduct(a: Vertex, b: Vertex): real { a.lon * b.lat - b.lon * a.lat }

  lemma TriangleOfProducts(o: Vertex, a: Vertex, b: Vertex)
    ensures Orientation(o, a, b) == CrossProduct(o, a) + CrossProduct(a, b) - CrossProduct(o, b)
  {
  }

  lemma {:induction false} FanTelescopes(open: seq<Vertex>, k: nat)
    requires 0 < |open| && k < |open|
    ensures DoubledAreaTo(open, k) == FanTo(open, k) + CrossProduct(open[0], open[k])
  {
    hide Succ, Orientation, CrossProduct;
    if k == 0 {
      assert CrossProduct(open[0], open[0]) == 0.0 by { SelfProduct(open[0]); }
    } else {
      FanTelescopes(open, k - 1);
      NextGoesRound(open, k - 1);
      LastProduct(open, k);
      TriangleOfProducts(open[0], open[k - 1], open[k]);
      SelfProduct(open[0]);
    }
  }

  lemma SelfProduct(a: Vertex)
    ensures CrossProduct(a, a) == 0.0
  {
  }

  lemma LastProduct(open: seq<Vertex>, k: nat)
    requires 0 < k <= |open|
    ensures DoubledAreaTo(open, k) == DoubledAreaTo(open, k - 1) + CrossProduct(open[k - 1], Next(open, k - 1))
  {
  }

  /** The area the source sums edge by edge is that of the triangles of the ring. */
  lemma AreaIsTheFan(open: seq<Vertex>)
    requires open != []
    ensures DoubledAreaTo(open, |open|) == FanTo(open, |open| - 1)
  {
    var n := |open| - 1;
    FanTelescopes(open, n);
    LastProduct(open, n + 1);
    NextGoesRound(open, n);
    hide Succ;
    Antisymmetric(open[0], open[n]);
  }

  lemma Antisymmetric(a: Vertex, b: Vertex)
    ensures CrossProduct(a, b) == -CrossProduct(b, a)
  {
  }

  /** What an acceptable ring is, said outright. */
  lemma AcceptableMeans(open: seq<Vertex>)
    ensures
      Acceptable(open) <==>
      && 3 <= |open| <= 64
      && (forall v :: v in open ==> -180.0 <= v.lon <= 180.0 && -90.0 <= v.lat <= 90.0)
      && (forall i, j :: 0 <= i < j < |open| ==> open[i] != open[j])
      && (forall i :: 0 <= i < |open| ==> -180.0 <= open[if i + 1 < |open| then i + 1 else 0].lon - open[i].lon <= 180.0)
      && Simple(open)
      && !(-(EDGE_TOLERANCE_DEG * EDGE_TOLERANCE_DEG) <= FanTo(open, |open| - 1) <= EDGE_TOLERANCE_DEG * EDGE_TOLERANCE_DEG)
  {
    hide Simple, Acceptable, DoubledAreaTo, FanTo, NoneTooWide, HasArea, GoodVertices;
    AcceptedExactlySimplePolygons(open);
    if open != [] {
      AreaIsTheFan(open);
      AreaMeans(open);
      GapsMean(open);
    }
    VerticesMean(open);
  }

  lemma VerticesMean(open: seq<Vertex>)
    ensures GoodVertices(open) <==> forall v :: v in open ==> -180.0 <= v.lon <= 180.0 && -90.0 <= v.lat <= 90.0
  {
    forall v ensures v in open <==> exists i :: 0 <= i < |open| && open[i] == v {
    }
  }

  lemma GapsMean(open: seq<Vertex>)
    ensures NoneTooWide(open) <==>
            forall i :: 0 <= i < |open| ==> -180.0 <= open[if i + 1 < |open| then i + 1 else 0].lon - open[i].lon <= 180.0
  {
    hide Succ;
    forall i | 0 <= i < |open|
      ensures TooWide(open, i) <==> !(-180.0 <= open[if i + 1 < |open| then i + 1 else 0].lon - open[i].lon <= 180.0)
    {
      NextGoesRound(open, i);
    }
  }

  lemma AreaMeans(open: seq<Vertex>)
    ensures HasArea(open) <==>
            !(-(EDGE_TOLERANCE_DEG * EDGE_TOLERANCE_DEG) <= DoubledAreaTo(open, |open|) <= EDGE_TOLERANCE_DEG * EDGE_TOLERANCE_DEG)
  {
    hide DoubledAreaTo;
  }

  // ----- An accepted ring has height -----

  lemma {:induction false} FlatRingTelescopes(open: seq<Vertex>, k: nat)
    requires 0 < |open| && k <= |open|
    requires forall i :: 0 <= i < |open| ==> open[i].lat == open[0].lat
    ensures DoubledAreaTo(open, k) == open[0].lat * (open[0].lon - open[if k == |open| then 0 else k].lon)
  {
    hide Succ;
    if k == 0 {
    } else {
      FlatRingTelescopes(open, k - 1);
      var y, a, b := open[0].lat, open[k - 1].lon, Next(open, k - 1).lon;
      assert a * y - b * y == y * (a - b);
      assert y * (open[0].lon - a) + y * (a - b) == y * (open[0].lon - b);
    }
  }

  /** Rejecting zero area is what keeps the compiled band height away from zero. */
  lemma AcceptableHasHeight(open: seq<Vertex>)
    requires Acceptable(open)
    ensures exists i :: 0 <= i < |open| && open[i].lat != open[0].lat
  {
    if forall i :: 0 <= i < |open| ==> open[i].lat == open[0].lat {
      FlatRingTelescopes(open, |open|);
      assert false;
    }
  }
}
