/** What the ring validator accepts does not depend on where a drawing starts or which way it
    goes round. */
module RingSymmetry {
  import opened Geometry
  import opened Ring
  import opened Area
  import opened Sequences

  /** Two edges meet at most in the vertex they share, said of edges in any order. */
  ghost predicate SimpleAround(open: seq<Vertex>) {
    forall i, j, p ::
      0 <= i < |open| && 0 <= j < |open| && i != j && OnEdge(open, i, p) && OnEdge(open, j, p)
      ==> (j == Succ(|open|, i) && p == open[j]) || (i == Succ(|open|, j) && p == open[i])
  }

  ghost predicate OnEdge(open: seq<Vertex>, i: nat, p: Vertex)
    requires i < |open|
  {
    OnSegment(open[i], Next(open, i), p)
  }

  lemma SimpleIsAround(open: seq<Vertex>)
    requires |open| >= 3
    ensures Simple(open) <==> SimpleAround(open)
  {
    hide OnSegment;
    if SimpleAround(open) {
      forall i, j, p | 0 <= i < j < |open| && OnSegment(open[i], Next(open, i), p) && OnSegment(open[j], Next(open, j), p)
        ensures (j == i + 1 && p == open[j]) || (i == 0 && j == |open| - 1 && p == open[0])
      {
        assert OnEdge(open, i, p) && OnEdge(open, j, p);
      }
    }
    if Simple(open) {
      forall i, j, p | 0 <= i < |open| && 0 <= j < |open| && i != j && OnEdge(open, i, p) && OnEdge(open, j, p)
        ensures (j == Succ(|open|, i) && p == open[j]) || (i == Succ(|open|, j) && p == open[i])
      {
        if i < j {
          assert OnSegment(open[i], Next(open, i), p) && OnSegment(open[j], Next(open, j), p);
        } else {
          assert OnSegment(open[j], Next(open, j), p) && OnSegment(open[i], Next(open, i), p);
        }
      }
    }
  }

  // ----- Another starting vertex -----

  lemma UnrotateRound(n: nat, k: nat, i: nat, j: nat)
    requires k < n && i < n && j < n
    ensures Unrotate(n, k, i) < n && (Unrotate(n, k, i) == Unrotate(n, k, j) <==> i == j)
    ensures Unrotate(n, k, Succ(n, i)) == Succ(n, Unrotate(n, k, i))
  {
  }

  lemma RotatedIsSimple(open: seq<Vertex>, k: nat)
    requires k < |open| && SimpleAround(open)
    ensures SimpleAround(Rotated(open, k))
  {
    var n, r := |open|, Rotated(open, k);
    RotatedLength(open, k);
    hide OnSegment, Rotated;
    forall i, j, p | 0 <= i < n && 0 <= j < n && i != j && OnEdge(r, i, p) && OnEdge(r, j, p)
      ensures (j == Succ(n, i) && p == r[j]) || (i == Succ(n, j) && p == r[i])
    {
      RotatedNext(open, k, i);
      RotatedNext(open, k, j);
      UnrotateRound(n, k, i, j);
      UnrotateRound(n, k, Succ(n, i), j);
      UnrotateRound(n, k, i, Succ(n, j));
      UnrotateRound(n, k, j, i);
      hide Unrotate, Succ, Next;
      assert OnEdge(open, Unrotate(n, k, i), p) && OnEdge(open, Unrotate(n, k, j), p);
    }
  }

  /** What one edge adds to the doubled area. */
  function Term(open: seq<Vertex>, i: nat): real
    requires i < |open|
  {
    open[i].lon * Next(open, i).lat - Next(open, i).lon * open[i].lat
  }

  lemma AreaStep(open: seq<Vertex>, i: nat)
    requires i < |open|
    ensures DoubledAreaTo(open, i + 1) == DoubledAreaTo(open, i) + Term(open, i)
    ensures DoubledAreaTo(open, 0) == 0.0
  {
    hide Next;
  }

  lemma RotatedTerm(open: seq<Vertex>, k: nat, i: nat)
    requires k < |open| && i < |open|
    ensures |Rotated(open, k)| == |open| && Term(Rotated(open, k), i) == Term(open, Unrotate(|open|, k, i))
  {
    RotatedLength(open, k);
    RotatedNext(open, k, i);
    hide Next, Rotated, Unrotate;
  }

  /** The rotated sum starts at edge k and comes round to the edges before it. */
  lemma {:induction false} RotatedAreaTo(open: seq<Vertex>, k: nat, j: nat)
    requires k < |open| && j <= |open|
    ensures |Rotated(open, k)| == |open|
    ensures
      DoubledAreaTo(Rotated(open, k), j)
      == if j <= |open| - k then DoubledAreaTo(open, k + j) - DoubledAreaTo(open, k)
         else DoubledAreaTo(open, |open|) - DoubledAreaTo(open, k) + DoubledAreaTo(open, j - (|open| - k))
  {
    hide DoubledAreaTo, Term, Rotated;
    RotatedLength(open, k);
    if j == 0 {
      AreaStep(Rotated(open, k), 0);
    } else {
      RotatedAreaTo(open, k, j - 1);
      RotatedTerm(open, k, j - 1);
      AreaStep(Rotated(open, k), j - 1);
      AreaStep(open, Unrotate(|open|, k, j - 1));
      AreaStep(open, 0);
    }
  }

  lemma RotatedIsAcceptable(open: seq<Vertex>, k: nat)
    requires k < |open| && Acceptable(open)
    ensures Acceptable(Rotated(open, k))
  {
    var n, r := |open|, Rotated(open, k);
    RotatedLength(open, k);
    AcceptedExactlySimplePolygons(open);
    AcceptedExactlySimplePolygons(r);
    SimpleIsAround(open);
    SimpleIsAround(r);
    RotatedIsSimple(open, k);
    RotatedAreaTo(open, k, n);
    hide Simple, SimpleAround, RowsClear, Rotated, DoubledAreaTo;
    assert Distinct(r) by {
      forall i, j | 0 <= i < j < n ensures r[i] != r[j] {
        RotatedNext(open, k, i);
        RotatedNext(open, k, j);
      }
    }
    forall i | 0 <= i < n ensures GoodLongitude(r[i]) && GoodLatitude(r[i]) && !TooWide(r, i) {
      RotatedNext(open, k, i);
      assert !TooWide(open, Unrotate(n, k, i));
    }
  }

  lemma RotatedBack(open: seq<Vertex>, k: nat)
    requires 0 < k < |open|
    ensures |Rotated(open, k)| == |open| && Rotated(Rotated(open, k), |open| - k) == open
  {
  }

  /** A drawing is accepted from every vertex or from none. */
  lemma AcceptanceIgnoresStart(open: seq<Vertex>, k: nat)
    requires k <= |open|
    ensures Acceptable(Rotated(open, k)) <==> Acceptable(open)
  {
    if k == 0 || k == |open| {
      assert Rotated(open, k) == open;
    } else {
      RotatedBack(open, k);
      if Acceptable(open) {
        RotatedIsAcceptable(open, k);
      }
      if Acceptable(Rotated(open, k)) {
        RotatedIsAcceptable(Rotated(open, k), |open| - k);
      }
    }
  }

  // ----- The other direction -----

  /** The edge that edge i of the reversed ring runs along. */
  function Mirror(n: nat, i: nat): (m: nat)
    requires i < n
    ensures m < n
  {
    if i + 1 < n then n - 2 - i else n - 1
  }

  lemma MirrorRound(n: nat, i: nat, j: nat)
    requires i < n && j < n
    ensures Mirror(n, i) == Mirror(n, j) <==> i == j
    ensures Mirror(n, j) == Succ(n, Mirror(n, i)) <==> i == Succ(n, j)
  {
  }

  lemma ReversedEnds(open: seq<Vertex>, i: nat)
    requires i < |open|
    ensures |Reversed(open)| == |open|
    ensures Reversed(open)[i] == Next(open, Mirror(|open|, i)) && Next(Reversed(open), i) == open[Mirror(|open|, i)]
  {
    var n := |open|;
    ReversedAt(open, i);
    ReversedAt(open, Succ(n, i));
    NextAt(open, Mirror(n, i));
    hide Reversed;
  }

  lemma AlongBackwards(a: Vertex, b: Vertex, t: real)
    ensures Along(b, a, 1.0 - t) == Along(a, b, t)
  {
  }

  lemma SegmentBackwards(a: Vertex, b: Vertex, p: Vertex)
    ensures OnSegment(b, a, p) <==> OnSegment(a, b, p)
  {
    if t :| 0.0 <= t <= 1.0 && p == Along(a, b, t) {
      AlongBackwards(a, b, t);
    }
    if t :| 0.0 <= t <= 1.0 && p == Along(b, a, t) {
      AlongBackwards(b, a, t);
    }
  }

  lemma ReversedIsSimple(open: seq<Vertex>)
    requires SimpleAround(open)
    ensures SimpleAround(Reversed(open))
  {
    var n, r := |open|, Reversed(open);
    hide OnSegment;
    forall i, j, p | 0 <= i < n && 0 <= j < n && i != j && OnEdge(r, i, p) && OnEdge(r, j, p)
      ensures (j == Succ(n, i) && p == r[j]) || (i == Succ(n, j) && p == r[i])
    {
      var u, v := Mirror(n, i), Mirror(n, j);
      ReversedEnds(open, i);
      ReversedEnds(open, j);
      SegmentBackwards(open[u], Next(open, u), p);
      SegmentBackwards(open[v], Next(open, v), p);
      MirrorRound(n, i, j);
      MirrorRound(n, j, i);
      hide Reversed, Mirror, Succ;
      assert OnEdge(open, u, p) && OnEdge(open, v, p);
    }
  }

  lemma ReversedTerm(open: seq<Vertex>, i: nat)
    requires i < |open|
    ensures |Reversed(open)| == |open| && Term(Reversed(open), i) == -Term(open, Mirror(|open|, i))
  {
    ReversedEnds(open, i);
    hide Next, Reversed, Mirror;
  }

  /** Going backwards the edges before the last come in reverse, each with its sign changed. */
  lemma {:induction false} ReversedAreaTo(open: seq<Vertex>, j: nat)
    requires open != [] && j < |open|
    ensures |Reversed(open)| == |open|
    ensures DoubledAreaTo(Reversed(open), j) == DoubledAreaTo(open, |open| - 1 - j) - DoubledAreaTo(open, |open| - 1)
  {
    hide DoubledAreaTo, Term, Reversed;
    ReversedAt(open, 0);
    if j == 0 {
      AreaStep(Reversed(open), 0);
    } else {
      ReversedAreaTo(open, j - 1);
      ReversedTerm(open, j - 1);
      AreaStep(Reversed(open), j - 1);
      AreaStep(open, |open| - 1 - j);
    }
  }

  lemma ReversedArea(open: seq<Vertex>)
    requires open != []
    ensures |Reversed(open)| == |open| && DoubledAreaTo(Reversed(open), |open|) == -DoubledAreaTo(open, |open|)
  {
    var n := |open|;
    ReversedAreaTo(open, n - 1);
    ReversedTerm(open, n - 1);
    AreaStep(Reversed(open), n - 1);
    AreaStep(open, n - 1);
    AreaStep(open, 0);
    hide DoubledAreaTo, Term, Reversed;
  }

  lemma ReversedIsAcceptable(open: seq<Vertex>)
    requires Acceptable(open)
    ensures Acceptable(Reversed(open))
  {
    var n, r := |open|, Reversed(open);
    AcceptedExactlySimplePolygons(open);
    AcceptedExactlySimplePolygons(r);
    SimpleIsAround(open);
    SimpleIsAround(r);
    ReversedIsSimple(open);
    ReversedArea(open);
    hide Simple, SimpleAround, RowsClear, DoubledAreaTo;
    forall i | 0 <= i < n ensures GoodLongitude(r[i]) && GoodLatitude(r[i]) && !TooWide(r, i) {
      ReversedEnds(open, i);
      ReversedAt(open, i);
      assert !TooWide(open, Mirror(n, i));
    }
  }

  /** A drawing is accepted in both directions or in neither. */
  lemma AcceptanceIgnoresDirection(open: seq<Vertex>)
    ensures Acceptable(Reversed(open)) <==> Acceptable(open)
  {
    assert Reversed(Reversed(open)) == open;
    if Acceptable(open) {
      ReversedIsAcceptable(open);
    }
    if Acceptable(Reversed(open)) {
      ReversedIsAcceptable(Reversed(open));
    }
  }
}
