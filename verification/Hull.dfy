/** The convex hulls clusters are outlined by, over exact reals; y grows towards the bottom of the screen. */
module Hull {
  import opened Options

  datatype Point = Point(x: real, y: real)

  /** Positive when b lies to the left of the way from o to a, reading y upwards. */
  function Cross(o: Point, a: Point, b: Point): real {
    (a.x - o.x) * (b.y - o.y) - (a.y - o.y) * (b.x - o.x)
  }

  /** The order the points are swept in, by x and then y; swept backwards when s is -1. */
  predicate Ahead(s: real, a: Point, b: Point) {
    s * (b.x - a.x) > 0.0 || (a.x == b.x && s * (b.y - a.y) >= 0.0)
  }

  predicate Swept(s: real, pts: seq<Point>) {
    forall i, j | 0 <= i < j < |pts| :: Ahead(s, pts[i], pts[j])
  }

  predicate Sense(s: real) {
    s == 1.0 || s == -1.0
  }

  // ---- vectors ----

  function Det(ux: real, uy: real, vx: real, vy: real): real {
    ux * vy - uy * vx
  }

  predicate Forward(ux: real, uy: real) {
    ux > 0.0 || (ux == 0.0 && uy >= 0.0)
  }

  lemma MulNonNeg(a: real, b: real)
    requires a >= 0.0 && b >= 0.0
    ensures a * b >= 0.0
  {
  }

  lemma MulSign(a: real, b: real)
    requires a > 0.0 && a * b >= 0.0
    ensures b >= 0.0
  {
  }

  /** Turning left twice among forward vectors turns left overall. */
  lemma LeftOfLeft(ux: real, uy: real, vx: real, vy: real, wx: real, wy: real)
    requires Forward(ux, uy) && Forward(vx, vy) && Forward(wx, wy)
    requires vx != 0.0 || vy != 0.0
    requires Det(ux, uy, vx, vy) >= 0.0 && Det(vx, vy, wx, wy) >= 0.0
    ensures Det(ux, uy, wx, wy) >= 0.0
  {
    if vx > 0.0 {
      assert vx * Det(ux, uy, wx, wy) == ux * Det(vx, vy, wx, wy) + wx * Det(ux, uy, vx, vy);
      MulNonNeg(ux, Det(vx, vy, wx, wy));
      MulNonNeg(wx, Det(ux, uy, vx, vy));
      MulSign(vx, Det(ux, uy, wx, wy));
    } else {
      assert Det(vx, vy, wx, wy) == vy * (-wx);
      MulSign(vy, -wx);
      MulNonNeg(ux, wy);
    }
  }

  // ---- points ----

  lemma AheadTotal(s: real, a: Point, b: Point)
    requires Sense(s)
    ensures Ahead(s, a, b) || Ahead(s, b, a)
    ensures Ahead(s, a, b) && Ahead(s, b, a) ==> a == b
  {
  }

  lemma AheadTransitive(s: real, a: Point, b: Point, c: Point)
    requires Sense(s) && Ahead(s, a, b) && Ahead(s, b, c)
    ensures Ahead(s, a, c)
  {
  }

  lemma ForwardOf(s: real, a: Point, b: Point)
    requires Sense(s) && Ahead(s, a, b)
    ensures Forward(s * (b.x - a.x), s * (b.y - a.y))
  {
  }

  /** The same two vectors, both turned around, enclose the same area. */
  lemma CrossAs(s: real, o: Point, a: Point, b: Point)
    requires Sense(s)
    ensures Cross(o, a, b) == Det(s * (a.x - o.x), s * (a.y - o.y), s * (b.x - a.x), s * (b.y - a.y))
  {
  }

  lemma CrossSplit(a: Point, b: Point, c: Point, d: Point)
    ensures Cross(a, b, d) == Cross(a, b, c) + Det(b.x - a.x, b.y - a.y, d.x - c.x, d.y - c.y)
    ensures Cross(a, b, d) == -Cross(b, a, d) == -Cross(a, d, b)
  {
  }

  /** An edge that what follows keeps to the left of keeps everything further on to its left. */
  lemma LaterStaysLeft(s: real, a: Point, b: Point, c: Point, d: Point)
    requires Sense(s) && Ahead(s, a, b) && Ahead(s, b, c) && Ahead(s, c, d) && b != c
    requires Cross(a, b, c) >= 0.0 && Cross(b, c, d) >= 0.0
    ensures Cross(a, b, d) >= 0.0
  {
    CrossAs(s, a, b, c);
    CrossAs(s, b, c, d);
    ForwardOf(s, a, b);
    ForwardOf(s, b, c);
    ForwardOf(s, c, d);
    LeftOfLeft(s * (b.x - a.x), s * (b.y - a.y), s * (c.x - b.x), s * (c.y - b.y), s * (d.x - c.x), s * (d.y - c.y));
    CrossSplit(a, b, c, d);
    DetTurned(s, b.x - a.x, b.y - a.y, d.x - c.x, d.y - c.y);
  }

  lemma DetTurned(s: real, ux: real, uy: real, vx: real, vy: real)
    requires Sense(s)
    ensures Det(s * ux, s * uy, s * vx, s * vy) == Det(ux, uy, vx, vy)
  {
  }

  lemma CrossByVectors(a: Point, b: Point, p: Point, q: Point)
    ensures Cross(a, b, p) == Det(b.x - a.x, b.y - a.y, p.x - b.x, p.y - b.y)
    ensures Cross(a, b, q) == Det(b.x - q.x, b.y - q.y, b.x - a.x, b.y - a.y)
    ensures Cross(b, p, q) == Det(b.x - q.x, b.y - q.y, p.x - b.x, p.y - b.y)
  {
  }

  /** Past a left turn at b, the new edge keeps what came before b to its left. */
  lemma EarlierStaysLeft(s: real, a: Point, b: Point, p: Point, q: Point)
    requires Sense(s) && Ahead(s, a, b) && Ahead(s, b, p) && Ahead(s, q, b) && a != b
    requires Cross(a, b, p) >= 0.0 && Cross(a, b, q) >= 0.0
    ensures Cross(b, p, q) >= 0.0
  {
    hide Cross, Det;
    var ux, uy := b.x - a.x, b.y - a.y;
    var vx, vy := p.x - b.x, p.y - b.y;
    var wx, wy := b.x - q.x, b.y - q.y;
    CrossByVectors(a, b, p, q);
    DetTurned(s, ux, uy, vx, vy);
    DetTurned(s, wx, wy, ux, uy);
    DetTurned(s, wx, wy, vx, vy);
    ForwardOf(s, a, b);
    ForwardOf(s, b, p);
    ForwardOf(s, q, b);
    LeftOfLeft(s * wx, s * wy, s * ux, s * uy, s * vx, s * vy);
  }

  lemma Interpolate(a: Point, p: Point, x: Point, y: Point, q: Point)
    ensures (y.x - x.x) * Cross(a, p, q)
         == (y.x - q.x) * Cross(a, p, x) + (q.x - x.x) * Cross(a, p, y) + (p.x - a.x) * Cross(x, y, q)
    ensures x.x == y.x == q.x ==>
      (y.y - x.y) * Cross(a, p, q) == (y.y - q.y) * Cross(a, p, x) + (q.y - x.y) * Cross(a, p, y)
  {
  }

  /** Weights that are not negative, on values that are not negative. */
  lemma WeightedNonNeg(d: real, f: real, w1: real, f1: real, w2: real, f2: real, w3: real, f3: real)
    requires d != 0.0 && d * f == w1 * f1 + w2 * f2 + w3 * f3
    requires (d > 0.0 && w1 >= 0.0 && w2 >= 0.0 && w3 >= 0.0) || (d < 0.0 && w1 <= 0.0 && w2 <= 0.0 && w3 <= 0.0)
    requires f1 >= 0.0 && f2 >= 0.0 && f3 >= 0.0
    ensures f >= 0.0
  {
    if d > 0.0 {
      MulNonNeg(w1, f1);
      MulNonNeg(w2, f2);
      MulNonNeg(w3, f3);
      MulSign(d, f);
    } else {
      MulNonNeg(-w1, f1);
      MulNonNeg(-w2, f2);
      MulNonNeg(-w3, f3);
      MulSign(-d, f);
    }
  }

  /** A point between x and y in the sweep, left of their chord, is left of any edge both of them are left of. */
  lemma OverTheChord(s: real, a: Point, p: Point, x: Point, y: Point, q: Point)
    requires Sense(s) && Ahead(s, a, p) && Ahead(s, x, q) && Ahead(s, q, y)
    requires Cross(x, y, q) >= 0.0 && Cross(a, p, x) >= 0.0 && Cross(a, p, y) >= 0.0
    ensures Cross(a, p, q) >= 0.0
  {
    hide Cross;
    Interpolate(a, p, x, y, q);
    if x.x != y.x {
      WeightedNonNeg(y.x - x.x, Cross(a, p, q), y.x - q.x, Cross(a, p, x), q.x - x.x, Cross(a, p, y), p.x - a.x,
        Cross(x, y, q));
    } else if x.y != y.y {
      WeightedNonNeg(y.y - x.y, Cross(a, p, q), y.y - q.y, Cross(a, p, x), q.y - x.y, Cross(a, p, y), 0.0, 0.0);
    } else {
      assert q == x;
    }
  }

  // ---- one side of the hull ----

  predicate Strict(ring: seq<Point>, i: nat)
    requires i + 2 < |ring|
  {
    Cross(ring[i], ring[i + 1], ring[i + 2]) > 0.0
  }

  /** Edge i keeps q to its left. */
  predicate Covers(ring: seq<Point>, i: nat, q: Point)
    requires i + 1 < |ring|
  {
    Cross(ring[i], ring[i + 1], q) >= 0.0
  }

  /** A chain over the points swept so far: it starts and ends where they do, turns strictly left,
      and keeps every one of them to the left of every edge. */
  ghost predicate Chain(s: real, pts: seq<Point>, stack: seq<Point>) {
    && |pts| > 0 && |stack| > 0
    && stack[0] == pts[0] && stack[|stack| - 1] == pts[|pts| - 1]
    && (|pts| > 1 ==> |stack| > 1)
    && (forall v | v in stack :: v in pts)
    && Swept(s, stack)
    && (forall i | 0 <= i < |stack| - 2 :: Strict(stack, i))
    && (forall i, q | 0 <= i < |stack| - 1 && q in pts :: Covers(stack, i, q))
  }

  /** Everything swept from top on lies left of the edge from top to p. */
  ghost predicate Clear(s: real, pts: seq<Point>, top: Point, p: Point) {
    forall q | q in pts && Ahead(s, top, q) :: Cross(top, p, q) >= 0.0
  }

  lemma LastIsClear(s: real, pts: seq<Point>, p: Point)
    requires Sense(s) && Swept(s, pts) && pts != []
    ensures Clear(s, pts, pts[|pts| - 1], p)
  {
    var last := pts[|pts| - 1];
    forall q | q in pts && Ahead(s, last, q)
      ensures q == last
    {
      var j :| 0 <= j < |pts| && pts[j] == q;
      if j < |pts| - 1 {
        AheadTotal(s, q, last);
      }
    }
  }

  /** Popping b, which p does not leave strictly to the left, keeps what is swept clear of the longer edge. */
  lemma PopKeepsClear(s: real, pts: seq<Point>, a: Point, b: Point, p: Point)
    requires Sense(s) && Ahead(s, a, b) && Ahead(s, b, p) && Cross(a, b, p) <= 0.0
    requires forall q | q in pts :: Ahead(s, q, p) && Cross(a, b, q) >= 0.0
    requires Clear(s, pts, b, p)
    ensures Clear(s, pts, a, p)
  {
    hide Cross, Ahead;
    AheadTransitive(s, a, b, p);
    CrossSplit(a, b, p, p);
    CrossZero(a, p);
    CrossZero(p, a);
    forall q | q in pts && Ahead(s, a, q)
      ensures Cross(a, p, q) >= 0.0
    {
      if Ahead(s, b, q) {
        OverTheChord(s, a, p, b, p, q);
      } else {
        AheadTotal(s, b, q);
        OverTheChord(s, a, p, a, b, q);
      }
    }
  }

  lemma CrossZero(a: Point, b: Point)
    ensures Cross(a, b, b) == 0.0 && Cross(a, b, a) == 0.0 && Cross(a, a, b) == 0.0
  {
  }

  /** Once the last edge leaves p to its left, every edge does. */
  lemma {:induction false} EdgesCoverNext(s: real, stack: seq<Point>, p: Point, i: nat)
    requires Sense(s) && Swept(s, stack) && (forall v | v in stack :: Ahead(s, v, p))
    requires forall j | 0 <= j < |stack| - 2 :: Strict(stack, j)
    requires |stack| >= 2 && Covers(stack, |stack| - 2, p) && i <= |stack| - 2
    ensures Covers(stack, i, p)
    decreases |stack| - i
  {
    hide Cross, Ahead;
    if i < |stack| - 2 {
      EdgesCoverNext(s, stack, p, i + 1);
      assert Strict(stack, i);
      assert stack[i + 2] in stack;
      CrossZero(stack[i], stack[i + 1]);
      LaterStaysLeft(s, stack[i], stack[i + 1], stack[i + 2], p);
    }
  }

  /** Pushing p on a stack whose last turn leaves it strictly left makes a chain over the points and p. */
  lemma PushKeepsChain(s: real, pts: seq<Point>, before: seq<Point>, n: nat, p: Point)
    requires Sense(s) && Chain(s, pts, before) && (forall q | q in pts :: Ahead(s, q, p))
    requires 1 <= n <= |before| && Clear(s, pts, before[n - 1], p)
    requires n >= 2 ==> Cross(before[n - 2], before[n - 1], p) > 0.0
    requires Swept(s, pts)
    ensures Chain(s, pts + [p], before[..n] + [p])
  {
    hide Cross, Ahead;
    var stack := before[..n];
    var stack' := stack + [p];
    assert forall v | v in stack :: v in before;
    forall i, j | 0 <= i < j < |stack'|
      ensures Ahead(s, stack'[i], stack'[j])
    {
      assert stack'[i] == before[i] && before[i] in before;
    }
    forall i | 0 <= i < |stack'| - 2
      ensures Strict(stack', i)
    {
      assert i < n - 2 ==> Strict(before, i);
    }
    forall i, q | 0 <= i < |stack'| - 1 && q in pts + [p]
      ensures Covers(stack', i, q)
    {
      if i < n - 1 {
        if q in pts {
          assert Covers(before, i, q);
        } else {
          OldEdgeCovers(s, before, n, p, i);
        }
      } else if q in pts {
        NewEdgeCovers(s, pts, before, n, p, q);
      } else {
        CrossZero(stack[n - 1], p);
      }
    }
  }

  lemma OldEdgeCovers(s: real, before: seq<Point>, n: nat, p: Point, i: nat)
    requires Sense(s) && Swept(s, before) && (forall v | v in before :: Ahead(s, v, p))
    requires forall j | 0 <= j < |before| - 2 :: Strict(before, j)
    requires 2 <= n <= |before| && Cross(before[n - 2], before[n - 1], p) > 0.0 && i < n - 1
    ensures Covers(before, i, p)
  {
    hide Cross, Ahead;
    var stack := before[..n];
    assert forall v | v in stack :: v in before;
    forall j | 0 <= j < |stack| - 2
      ensures Strict(stack, j)
    {
      assert Strict(before, j);
    }
    EdgesCoverNext(s, stack, p, i);
    assert Covers(stack, i, p);
  }

  lemma NewEdgeCovers(s: real, pts: seq<Point>, before: seq<Point>, n: nat, p: Point, q: Point)
    requires Sense(s) && Chain(s, pts, before) && Swept(s, pts) && q in pts
    requires 1 <= n <= |before| && Clear(s, pts, before[n - 1], p) && Ahead(s, before[n - 1], p)
    requires n >= 2 ==> Cross(before[n - 2], before[n - 1], p) > 0.0
    ensures Cross(before[n - 1], p, q) >= 0.0
  {
    hide Cross, Ahead;
    var top := before[n - 1];
    AheadTotal(s, top, q);
    if n == 1 {
      var j :| 0 <= j < |pts| && pts[j] == q;
      assert j > 0 ==> Ahead(s, pts[0], pts[j]);
      CrossZero(top, p);
    } else if !Ahead(s, top, q) {
      assert Covers(before, n - 2, q);
      CrossZero(top, p);
      EarlierStaysLeft(s, before[n - 2], top, p, q);
    }
  }

  /** One side of the hull of points already in sweep order. */
  method HalfHull(s: real, pts: seq<Point>) returns (stack: seq<Point>)
    requires Sense(s) && Swept(s, pts)
    ensures pts == [] ==> stack == []
    ensures pts != [] ==> Chain(s, pts, stack)
  {
    hide Cross, Ahead;
    stack := [];
    for k := 0 to |pts|
      invariant k == 0 ==> stack == []
      invariant k > 0 ==> Chain(s, pts[..k], stack)
    {
      var p := pts[k];
      ghost var before, done := stack, pts[..k];
      assert pts[..k + 1] == done + [p];
      if k > 0 {
        LastIsClear(s, done, p);
      }
      while |stack| >= 2 && Cross(stack[|stack| - 2], stack[|stack| - 1], p) <= 0.0
        invariant |stack| <= |before| && stack == before[..|stack|]
        invariant k > 0 ==> |stack| > 0 && Clear(s, done, stack[|stack| - 1], p)
        invariant k == 0 ==> stack == []
        decreases |stack|
      {
        var n := |stack|;
        assert forall q | q in done :: Covers(before, n - 2, q);
        assert before[n - 1] in before;
        PopKeepsClear(s, done, stack[n - 2], stack[n - 1], p);
        stack := stack[..n - 1];
      }
      if k > 0 {
        PushKeepsChain(s, done, before, |stack|, p);
      }
      stack := stack + [p];
    }
    assert pts[..|pts|] == pts;
  }

  // ---- sorting ----

  function Inserted(pts: seq<Point>, p: Point): seq<Point> {
    if pts == [] || Ahead(1.0, p, pts[0]) then [p] + pts else [pts[0]] + Inserted(pts[1..], p)
  }

  lemma {:induction false} InsertedAdds(pts: seq<Point>, p: Point)
    ensures multiset(Inserted(pts, p)) == multiset(pts) + multiset{p}
  {
    hide Ahead;
    if pts != [] && !Ahead(1.0, p, pts[0]) {
      InsertedAdds(pts[1..], p);
      assert pts == [pts[0]] + pts[1..];
    }
  }

  lemma {:induction false} InsertedIsSwept(pts: seq<Point>, p: Point)
    requires Swept(1.0, pts)
    ensures Swept(1.0, Inserted(pts, p)) && multiset(Inserted(pts, p)) == multiset(pts) + multiset{p}
  {
    hide Ahead;
    InsertedAdds(pts, p);
    if pts != [] && !Ahead(1.0, p, pts[0]) {
      var rest := Inserted(pts[1..], p);
      InsertedIsSwept(pts[1..], p);
      AheadTotal(1.0, p, pts[0]);
      assert Inserted(pts, p) == [pts[0]] + rest;
      InsertedAdds(pts[1..], p);
      forall j | 0 <= j < |rest|
        ensures Ahead(1.0, pts[0], rest[j])
      {
        assert rest[j] in multiset(rest);
      }
    } else if pts != [] {
      forall j | 0 <= j < |pts|
        ensures Ahead(1.0, p, pts[j])
      {
        if j > 0 {
          AheadTransitive(1.0, p, pts[0], pts[j]);
        }
      }
    }
  }

  method SortPoints(points: seq<Point>) returns (pts: seq<Point>)
    ensures Swept(1.0, pts) && multiset(pts) == multiset(points)
  {
    pts := [];
    for i := 0 to |points|
      invariant Swept(1.0, pts) && multiset(pts) == multiset(points[..i])
    {
      InsertedIsSwept(pts, points[i]);
      assert points[..i + 1] == points[..i] + [points[i]];
      pts := Inserted(pts, points[i]);
    }
    assert points[..|points|] == points;
  }

  function Reversed(pts: seq<Point>): (r: seq<Point>)
    ensures |r| == |pts| && forall i | 0 <= i < |pts| :: r[i] == pts[|pts| - 1 - i]
  {
    seq(|pts|, i requires 0 <= i < |pts| => pts[|pts| - 1 - i])
  }

  lemma ReversedIsSwept(pts: seq<Point>)
    requires Swept(1.0, pts)
    ensures Swept(-1.0, Reversed(pts))
    ensures forall p :: p in Reversed(pts) <==> p in pts
  {
    forall i, j | 0 <= i < j < |pts|
      ensures Ahead(-1.0, Reversed(pts)[i], Reversed(pts)[j])
    {
      assert Ahead(1.0, pts[|pts| - 1 - j], pts[|pts| - 1 - i]);
    }
    forall p | p in pts
      ensures p in Reversed(pts)
    {
      var i :| 0 <= i < |pts| && pts[i] == p;
      assert Reversed(pts)[|pts| - 1 - i] == p;
    }
  }

  // ---- the ring ----

  function At(ring: seq<Point>, i: nat): (p: Point)
    requires ring != []
    ensures i < |ring| ==> p == ring[i]
    ensures |ring| <= i < 2 * |ring| ==> p == ring[i - |ring|]
  {
    assert |ring| <= i < 2 * |ring| ==> i % |ring| == i - |ring|;
    ring[i % |ring|]
  }

  predicate KeepsLeft(ring: seq<Point>, i: nat, p: Point)
    requires i < |ring|
  {
    Cross(ring[i], At(ring, i + 1), p) >= 0.0
  }

  predicate TurnsLeft(ring: seq<Point>, i: nat)
    requires i < |ring|
  {
    Cross(ring[i], At(ring, i + 1), At(ring, i + 2)) > 0.0
  }

  /** Every edge of the ring, the closing one too, keeps every point to its left. */
  ghost predicate Encloses(ring: seq<Point>, points: seq<Point>) {
    forall i, p | 0 <= i < |ring| && p in points :: KeepsLeft(ring, i, p)
  }

  /** Every turn of the ring is strictly to the left. */
  ghost predicate StrictlyConvex(ring: seq<Point>) {
    |ring| >= 3 && forall i | 0 <= i < |ring| :: TurnsLeft(ring, i)
  }

  ghost predicate Collinear(points: seq<Point>) {
    forall p, q, r | p in points && q in points && r in points :: Cross(p, q, r) == 0.0
  }

  /** The two sides joined, each without its last point. */
  function Joined(lower: seq<Point>, upper: seq<Point>): seq<Point>
    requires lower != [] && upper != []
  {
    lower[..|lower| - 1] + upper[..|upper| - 1]
  }

  ghost predicate Sides(pts: seq<Point>, lower: seq<Point>, upper: seq<Point>) {
    |pts| > 1 && Swept(1.0, pts) && Chain(1.0, pts, lower) && Chain(-1.0, Reversed(pts), upper)
  }

  /** An edge of the ring is an edge of one side. */
  lemma RingEdge(pts: seq<Point>, lower: seq<Point>, upper: seq<Point>, i: nat)
    requires Sides(pts, lower, upper)
    ensures |lower| >= 2 && |upper| >= 2
    ensures var ring, k := Joined(lower, upper), |lower| - 1;
      && |ring| == k + |upper| - 1
      && (i < k ==> ring[i] == lower[i] && At(ring, i + 1) == lower[i + 1])
      && (k <= i < |ring| ==> ring[i] == upper[i - k] && At(ring, i + 1) == upper[i - k + 1])
  {
    hide Cross, Ahead, Swept, Strict, Covers, At;
    var first, last := pts[0], pts[|pts| - 1];
    assert lower[0] == upper[|upper| - 1] == first && lower[|lower| - 1] == upper[0] == last;
  }

  lemma RingEncloses(pts: seq<Point>, lower: seq<Point>, upper: seq<Point>)
    requires Sides(pts, lower, upper)
    ensures Encloses(Joined(lower, upper), pts)
    ensures forall v | v in Joined(lower, upper) :: v in pts
  {
    hide Cross, Ahead, Swept;
    var ring, k := Joined(lower, upper), |lower| - 1;
    ReversedIsSwept(pts);
    forall i, p | 0 <= i < |ring| && p in pts
      ensures KeepsLeft(ring, i, p)
    {
      RingEdge(pts, lower, upper, i);
      if i < k {
        assert Covers(lower, i, p);
      } else {
        assert Covers(upper, i - k, p);
      }
    }
    assert forall v | v in ring :: v in lower || v in upper;
  }

  // ---- where the sides meet ----

  lemma ThreeOnLine(a: Point, m: Point, p: Point, q: Point, r: Point)
    requires a != m && Cross(a, m, p) == 0.0 && Cross(a, m, q) == 0.0 && Cross(a, m, r) == 0.0
    ensures Cross(p, q, r) == 0.0
  {
    var dx, dy := m.x - a.x, m.y - a.y;
    assert dx * Cross(p, q, r)
      == (q.x - p.x) * (Cross(a, m, r) - Cross(a, m, p)) - (r.x - p.x) * (Cross(a, m, q) - Cross(a, m, p));
    assert dy * Cross(p, q, r)
      == (q.y - p.y) * (Cross(a, m, r) - Cross(a, m, p)) - (r.y - p.y) * (Cross(a, m, q) - Cross(a, m, p));
  }

  lemma PinchVectors(ux: real, uy: real, vx: real, vy: real, qx: real, qy: real)
    requires Forward(ux, uy) && Forward(vx, vy) && (ux != 0.0 || uy != 0.0) && (vx != 0.0 || vy != 0.0)
    requires Det(ux, uy, vx, vy) == 0.0
    requires Det(ux, uy, qx, qy) >= 0.0 && Det(vx, vy, qx, qy) <= 0.0
    ensures Det(ux, uy, qx, qy) == 0.0
  {
    assert ux * Det(vx, vy, qx, qy) == vx * Det(ux, uy, qx, qy) - qx * Det(ux, uy, vx, vy);
    assert uy * Det(vx, vy, qx, qy) == vy * Det(ux, uy, qx, qy) - qy * Det(ux, uy, vx, vy);
    assert Det(ux, uy, vx, vy) == ux * vy - uy * vx;
    if ux > 0.0 {
      MulNonNeg(ux, -Det(vx, vy, qx, qy));
      MulNonNeg(vx, Det(ux, uy, qx, qy));
    } else {
      assert Det(ux, uy, vx, vy) == -(uy * vx);
      MulNonNeg(uy, -Det(vx, vy, qx, qy));
      MulNonNeg(vy, Det(ux, uy, qx, qy));
    }
  }

  /** Where both sides reach m along one line, every point is on that line. */
  lemma Pinched(s: real, a: Point, m: Point, b: Point, q: Point)
    requires Sense(s) && Ahead(s, a, m) && Ahead(s, b, m) && a != m && b != m
    requires Cross(a, m, b) == 0.0 && Cross(a, m, q) >= 0.0 && Cross(m, b, q) >= 0.0
    ensures Cross(a, m, q) == 0.0
  {
    var ux, uy, vx, vy, qx, qy :=
      s * (m.x - a.x), s * (m.y - a.y), s * (m.x - b.x), s * (m.y - b.y), s * (q.x - m.x), s * (q.y - m.y);
    assert Cross(a, m, q) == Det(ux, uy, qx, qy);
    assert Cross(m, b, q) == -Det(vx, vy, qx, qy);
    assert Cross(a, m, b) == -Det(ux, uy, vx, vy);
    PinchVectors(ux, uy, vx, vy, qx, qy);
  }

  lemma JunctionIsStrict(s: real, pts: seq<Point>, a: Point, m: Point, b: Point)
    requires Sense(s) && Ahead(s, a, m) && Ahead(s, b, m) && a != m && b != m && b in pts
    requires forall q | q in pts :: Cross(a, m, q) >= 0.0 && Cross(m, b, q) >= 0.0
    requires !Collinear(pts)
    ensures Cross(a, m, b) > 0.0
  {
    hide Cross, Ahead;
    if Cross(a, m, b) == 0.0 {
      forall q | q in pts
        ensures Cross(a, m, q) == 0.0
      {
        Pinched(s, a, m, b, q);
      }
      OnOneLine(a, m, pts);
    }
  }

  lemma OnOneLine(a: Point, m: Point, pts: seq<Point>)
    requires a != m && forall q | q in pts :: Cross(a, m, q) == 0.0
    ensures Collinear(pts)
  {
    hide Cross;
    forall p, q, r | p in pts && q in pts && r in pts
      ensures Cross(p, q, r) == 0.0
    {
      ThreeOnLine(a, m, p, q, r);
    }
  }

  /** The points swept first and last differ unless all are one point. */
  lemma EndsDiffer(pts: seq<Point>)
    requires Swept(1.0, pts) && pts != [] && !Collinear(pts)
    ensures pts[0] != pts[|pts| - 1]
  {
    hide Cross, Ahead;
    if pts[0] == pts[|pts| - 1] {
      forall q | q in pts
        ensures q == pts[0]
      {
        var j :| 0 <= j < |pts| && pts[j] == q;
        if 0 < j < |pts| - 1 {
          AheadTotal(1.0, pts[0], q);
        }
      }
      OnePointIsCollinear(pts);
    }
  }

  lemma OnePointIsCollinear(pts: seq<Point>)
    requires pts != [] && forall q | q in pts :: q == pts[0]
    ensures Collinear(pts)
  {
    CrossZero(pts[0], pts[0]);
  }

  lemma EdgesDiffer(s: real, pts: seq<Point>, chain: seq<Point>, i: nat)
    requires Chain(s, pts, chain) && pts[0] != pts[|pts| - 1] && i + 1 < |chain|
    ensures chain[i] != chain[i + 1]
  {
    hide Cross, Ahead;
    if |chain| >= 3 {
      if i + 2 < |chain| {
        assert Strict(chain, i);
        CrossZero(chain[i], chain[i + 2]);
      } else {
        assert Strict(chain, i - 1);
        CrossZero(chain[i - 1], chain[i]);
      }
    }
  }

  lemma Flip(a: Point, b: Point)
    ensures Ahead(-1.0, a, b) <==> Ahead(1.0, b, a)
  {
  }

  lemma TopJunction(pts: seq<Point>, lower: seq<Point>, upper: seq<Point>)
    requires Sides(pts, lower, upper) && !Collinear(pts)
    ensures |lower| >= 2 && |upper| >= 2 && lower[|lower| - 1] == upper[0]
    ensures Cross(lower[|lower| - 2], upper[0], upper[1]) > 0.0
  {
    hide Cross, Ahead;
    EndsDiffer(pts);
    ReversedIsSwept(pts);
    var a, m, b := lower[|lower| - 2], upper[0], upper[1];
    EdgesDiffer(1.0, pts, lower, |lower| - 2);
    EdgesDiffer(-1.0, Reversed(pts), upper, 0);
    Flip(m, b);
    assert forall q | q in pts :: Covers(lower, |lower| - 2, q) && Covers(upper, 0, q);
    assert b in upper;
    JunctionIsStrict(1.0, pts, a, m, b);
  }

  lemma BottomJunction(pts: seq<Point>, lower: seq<Point>, upper: seq<Point>)
    requires Sides(pts, lower, upper) && !Collinear(pts)
    ensures |lower| >= 2 && |upper| >= 2 && upper[|upper| - 1] == lower[0]
    ensures Cross(upper[|upper| - 2], lower[0], lower[1]) > 0.0
  {
    hide Cross, Ahead;
    EndsDiffer(pts);
    ReversedIsSwept(pts);
    var a, m, b := upper[|upper| - 2], lower[0], lower[1];
    EdgesDiffer(-1.0, Reversed(pts), upper, |upper| - 2);
    EdgesDiffer(1.0, pts, lower, 0);
    Flip(b, m);
    assert forall q | q in pts :: Covers(upper, |upper| - 2, q) && Covers(lower, 0, q);
    assert b in lower;
    JunctionIsStrict(-1.0, pts, a, m, b);
  }

  /** Two sides that are one edge each leave no room off their line. */
  lemma ThreeCorners(pts: seq<Point>, lower: seq<Point>, upper: seq<Point>)
    requires Sides(pts, lower, upper) && !Collinear(pts)
    ensures |lower| >= 2 && |upper| >= 2 && |Joined(lower, upper)| >= 3
  {
    hide Cross, Ahead;
    EndsDiffer(pts);
    ReversedIsSwept(pts);
    if |lower| == 2 && |upper| == 2 {
      forall q | q in pts
        ensures Cross(lower[0], lower[1], q) == 0.0
      {
        assert Covers(lower, 0, q) && Covers(upper, 0, q);
        CrossSplit(lower[0], lower[1], q, q);
      }
      OnOneLine(lower[0], lower[1], pts);
    }
  }

  /** With three points off one line, every turn of the ring is strict. */
  lemma RingIsStrict(pts: seq<Point>, lower: seq<Point>, upper: seq<Point>)
    requires Sides(pts, lower, upper) && !Collinear(pts)
    ensures StrictlyConvex(Joined(lower, upper))
  {
    hide Cross, Ahead, Swept, Covers, At, Collinear;
    var ring, k := Joined(lower, upper), |lower| - 1;
    var n := |ring|;
    ThreeCorners(pts, lower, upper);
    TopJunction(pts, lower, upper);
    BottomJunction(pts, lower, upper);
    forall i | 0 <= i < n
      ensures TurnsLeft(ring, i)
    {
      RingEdge(pts, lower, upper, i);
      RingEdge(pts, lower, upper, if i + 1 < n then i + 1 else 0);
      if i + 1 < k {
        assert Strict(lower, i);
      } else if k <= i && i + 1 < n {
        assert Strict(upper, i - k);
      } else if i + 1 == n {
        assert At(ring, i + 2) == ring[1] == At(ring, 1);
      }
    }
  }

  // ---- area ----

  function Shoelace(p: Point, q: Point): real {
    p.x * q.y - q.x * p.y
  }

  function AreaUpTo(ring: seq<Point>, k: nat): real
    requires k <= |ring|
  {
    if k == 0 then 0.0 else AreaUpTo(ring, k - 1) + Shoelace(ring[k - 1], At(ring, k))
  }

  /** Adds up the shoelace terms of every edge, the closing one too. */
  method SignedArea(ring: seq<Point>) returns (sum: real)
    ensures sum == AreaUpTo(ring, |ring|)
  {
    sum := 0.0;
    for i := 0 to |ring|
      invariant sum == AreaUpTo(ring, i)
    {
      var p, q := ring[i], At(ring, i + 1);
      sum := sum + (p.x * q.y - q.x * p.y);
    }
  }

  lemma ShoelaceFrom(o: Point, p: Point, q: Point)
    ensures Shoelace(p, q) == Cross(p, q, o) + Shoelace(p, o) - Shoelace(q, o)
  {
  }

  /** A fan of left turns from the first vertex adds up to an area that is not negative. */
  lemma {:induction false} FanArea(ring: seq<Point>, k: nat)
    requires ring != [] && k <= |ring| && Encloses(ring, ring)
    ensures AreaUpTo(ring, k) + Shoelace(At(ring, k), ring[0]) >= 0.0
  {
    hide Cross, Shoelace;
    if k == 0 {
      assert Shoelace(ring[0], ring[0]) == 0.0 by {
        SelfShoelace(ring[0]);
      }
    } else {
      FanArea(ring, k - 1);
      ShoelaceFrom(ring[0], ring[k - 1], At(ring, k));
      assert ring[0] in ring && KeepsLeft(ring, k - 1, ring[0]);
    }
  }

  /** The triangles from the first vertex to each edge, twice their areas, with their signs. */
  function Fan(ring: seq<Point>, k: nat): real
    requires k <= |ring|
  {
    if k == 0 then 0.0 else Fan(ring, k - 1) + Cross(ring[0], ring[k - 1], At(ring, k))
  }

  lemma {:induction false} AreaIsFan(ring: seq<Point>, k: nat)
    requires ring != [] && k <= |ring|
    ensures AreaUpTo(ring, k) + Shoelace(At(ring, k), ring[0]) == Fan(ring, k)
  {
    if k == 0 {
      SelfShoelace(ring[0]);
    } else {
      AreaIsFan(ring, k - 1);
      ShoelaceFrom(ring[0], ring[k - 1], At(ring, k));
      CrossTurns(ring[0], ring[k - 1], At(ring, k));
    }
  }

  lemma CrossTurns(a: Point, b: Point, c: Point)
    ensures Cross(a, b, c) == Cross(b, c, a)
  {
  }

  /** The signed area is twice that of the triangles a ring falls into from its first vertex; a triangle's is its
      base times its height, and changes sign when it is gone round the other way. */
  lemma AreaOfRing(ring: seq<Point>, o: Point, base: real, across: real, height: real)
    requires ring != []
    ensures AreaUpTo(ring, |ring|) == Fan(ring, |ring|)
    ensures var a, b, c := o, Point(o.x + base, o.y), Point(o.x + across, o.y + height);
      AreaUpTo([a, b, c], 3) == base * height && AreaUpTo([a, c, b], 3) == -(base * height)
  {
    hide Cross, Shoelace, AreaUpTo;
    AreaIsFan(ring, |ring|);
    SelfShoelace(ring[0]);
    TriangleArea(o, base, across, height);
  }

  lemma TriangleArea(o: Point, base: real, across: real, height: real)
    ensures var a, b, c := o, Point(o.x + base, o.y), Point(o.x + across, o.y + height);
      AreaUpTo([a, b, c], 3) == base * height && AreaUpTo([a, c, b], 3) == -(base * height)
  {
    var a, b, c := o, Point(o.x + base, o.y), Point(o.x + across, o.y + height);
    ThreeTerms(a, b, c);
    ThreeTerms(a, c, b);
    hide AreaUpTo, Shoelace;
    ShoelaceFrom(a, b, c);
    ShoelaceFrom(a, c, b);
    assert Shoelace(c, a) == -Shoelace(a, c) && Shoelace(b, a) == -Shoelace(a, b) by {
      TurnedShoelace(a, b);
      TurnedShoelace(a, c);
    }
    assert Cross(b, c, a) == base * height && Cross(c, b, a) == -(base * height);
  }

  lemma TurnedShoelace(p: Point, q: Point)
    ensures Shoelace(q, p) == -Shoelace(p, q)
  {
  }

  lemma ThreeTerms(a: Point, b: Point, c: Point)
    ensures AreaUpTo([a, b, c], 3) == Shoelace(a, b) + Shoelace(b, c) + Shoelace(c, a)
  {
    hide Shoelace;
    var ring := [a, b, c];
    assert AreaUpTo(ring, 1) == 0.0 + Shoelace(a, b) && AreaUpTo(ring, 2) == AreaUpTo(ring, 1) + Shoelace(b, c);
  }

  lemma SelfShoelace(p: Point)
    ensures Shoelace(p, p) == 0.0
  {
  }

  lemma AreaIsNotNegative(ring: seq<Point>)
    requires Encloses(ring, ring)
    ensures AreaUpTo(ring, |ring|) >= 0.0
  {
    if ring != [] {
      FanArea(ring, |ring|);
      SelfShoelace(ring[0]);
    }
  }

  lemma SmallRingEncloses(points: seq<Point>)
    requires |points| <= 2
    ensures Encloses(points, points)
  {
    hide Cross, At;
    forall i, p | 0 <= i < |points| && p in points
      ensures KeepsLeft(points, i, p)
    {
      CrossZero(points[i], At(points, i + 1));
      assert p == points[i] || p == At(points, i + 1);
    }
  }

  /** A chain from the leftmost point to the rightmost, part of the ring, that keeps every point above it. */
  ghost predicate Floor(points: seq<Point>, ring: seq<Point>) {
    exists pts, lower, upper :: Sides(pts, lower, upper) && multiset(pts) == multiset(points)
      && ring == Joined(lower, upper)
  }

  /** Both sides of the hull, swept one way and back, joined into a ring. */
  method ConvexHull(points: seq<Point>) returns (ring: seq<Point>)
    ensures |points| <= 2 ==> ring == points
    ensures forall v | v in ring :: v in points
    ensures Encloses(ring, points)
    ensures |points| > 2 && !Collinear(points) ==> StrictlyConvex(ring)
    ensures AreaUpTo(ring, |ring|) >= 0.0
    ensures |points| > 2 ==> Floor(points, ring)
  {
    hide Encloses, StrictlyConvex, Collinear, Chain, Swept, AreaUpTo;
    if |points| <= 2 {
      SmallRingEncloses(points);
      AreaIsNotNegative(points);
      return points;
    }
    var pts := SortPoints(points);
    SamePoints(pts, points);
    var lower := HalfHull(1.0, pts);
    ReversedIsSwept(pts);
    var upper := HalfHull(-1.0, Reversed(pts));
    RingEdge(pts, lower, upper, 0);
    RingEncloses(pts, lower, upper);
    if !Collinear(pts) {
      RingIsStrict(pts, lower, upper);
    }
    lower, upper := lower[..|lower| - 1], upper[..|upper| - 1];
    ring := lower + upper;
    RingInside(ring, pts, points);
    var area := SignedArea(ring);
    if |ring| > 2 && area < 0.0 {
      ring := Reversed(ring);
    }
  }

  lemma SamePoints(pts: seq<Point>, points: seq<Point>)
    requires multiset(pts) == multiset(points)
    ensures |pts| == |points|
    ensures forall p :: p in pts <==> p in points
    ensures Collinear(pts) <==> Collinear(points)
  {
    hide Cross;
    assert |multiset(pts)| == |pts| && |multiset(points)| == |points|;
    assert forall p :: p in pts <==> p in multiset(pts);
    assert forall p :: p in points <==> p in multiset(points);
  }

  lemma RingInside(ring: seq<Point>, pts: seq<Point>, points: seq<Point>)
    requires Encloses(ring, pts) && (forall v | v in ring :: v in pts) && (forall p :: p in pts <==> p in points)
    ensures Encloses(ring, points) && AreaUpTo(ring, |ring|) >= 0.0
  {
    hide Cross;
    assert Encloses(ring, ring);
    AreaIsNotNegative(ring);
  }

  // ---- reading a ring ----

  datatype Bounds = Bounds(x1: real, y1: real, x2: real, y2: real)

  /** The least box round the points; every side of it is reached. */
  ghost predicate Bounding(ring: seq<Point>, b: Bounds) {
    && (forall p | p in ring :: b.x1 <= p.x <= b.x2 && b.y1 <= p.y <= b.y2)
    && (exists p :: p in ring && p.x == b.x1) && (exists p :: p in ring && p.y == b.y1)
    && (exists p :: p in ring && p.x == b.x2) && (exists p :: p in ring && p.y == b.y2)
  }

  /** None stands for the infinite bounds of an empty ring. */
  method RingBounds(ring: seq<Point>) returns (bounds: Option<Bounds>)
    ensures ring == [] <==> bounds.None?
    ensures ring != [] ==> Bounding(ring, bounds.value)
  {
    bounds := None;
    for i := 0 to |ring|
      invariant i == 0 <==> bounds.None?
      invariant i > 0 ==> Bounding(ring[..i], bounds.value)
    {
      var p := ring[i];
      var b := if bounds.Some? then bounds.value else Bounds(p.x, p.y, p.x, p.y);
      assert ring[..i + 1] == ring[..i] + [p];
      assert p in ring[..i + 1] && forall q | q in ring[..i] :: q in ring[..i + 1];
      bounds := Some(Bounds(
        if p.x < b.x1 then p.x else b.x1, if p.y < b.y1 then p.y else b.y1,
        if p.x > b.x2 then p.x else b.x2, if p.y > b.y2 then p.y else b.y2));
    }
    assert ring[..|ring|] == ring;
  }

  function Min(a: real, b: real): real {
    if a < b then a else b
  }

  /** x lies within the edge's reach. */
  predicate Spans(p: Point, q: Point, x: real) {
    (p.x <= x <= q.x) || (q.x <= x <= p.x)
  }

  /** Where an edge that spans x passes it, topmost when the edge is upright. */
  function EdgeTop(p: Point, q: Point, x: real): real
    requires Spans(p, q, x)
  {
    if p.x == q.x then Min(p.y, q.y) else p.y + ((x - p.x) / (q.x - p.x)) * (q.y - p.y)
  }

  /** The place an edge passes x at is on the edge: on its line and no higher or lower than its ends; on an upright
      edge it is the upper end. */
  lemma EdgeTopIsOnEdge(p: Point, q: Point, x: real)
    requires Spans(p, q, x)
    ensures var y := EdgeTop(p, q, x);
      && (p.x != q.x ==> Cross(p, q, Point(x, y)) == 0.0)
      && (p.x == q.x ==> y == p.y || y == q.y)
      && (p.x == q.x ==> y <= p.y && y <= q.y)
  {
    if p.x != q.x {
      var dx, t := q.x - p.x, (x - p.x) / (q.x - p.x);
      assert t * dx == x - p.x;
      assert EdgeTop(p, q, x) - p.y == t * (q.y - p.y);
      assert dx * (t * (q.y - p.y)) == (x - p.x) * (q.y - p.y);
    }
  }

  predicate EdgeSpans(ring: seq<Point>, i: nat, x: real)
    requires i < |ring|
  {
    Spans(ring[i], At(ring, i + 1), x)
  }

  function RingEdgeTop(ring: seq<Point>, i: nat, x: real): real
    requires i < |ring| && EdgeSpans(ring, i, x)
  {
    EdgeTop(ring[i], At(ring, i + 1), x)
  }

  /** top is the least y among the first n edges that span x, or there is none. */
  ghost predicate Topmost(ring: seq<Point>, n: nat, x: real, top: Option<real>)
    requires n <= |ring|
  {
    && (forall i | 0 <= i < n && EdgeSpans(ring, i, x) :: top.Some? && top.value <= RingEdgeTop(ring, i, x))
    && (top.Some? ==> exists i :: 0 <= i < n && EdgeSpans(ring, i, x) && RingEdgeTop(ring, i, x) == top.value)
  }

  ghost predicate IsTop(ring: seq<Point>, x: real, y: real) {
    if ring == [] then y == 0.0
    else if |ring| == 1 then y == ring[0].y
    else
      || Topmost(ring, |ring|, x, Some(y))
      || (Topmost(ring, |ring|, x, None) && (exists p :: p in ring && p.y == y) && forall p | p in ring :: y <= p.y)
  }

  /** The least y at which an edge of the ring passes x, as y points down; the top of its box when none does. */
  method RingTopAt(ring: seq<Point>, x: real) returns (y: real)
    ensures IsTop(ring, x, y)
  {
    if |ring| == 0 {
      return 0.0;
    }
    if |ring| == 1 {
      return ring[0].y;
    }
    hide At, EdgeTop;
    var top: Option<real> := None;
    for i := 0 to |ring|
      invariant Topmost(ring, i, x, top)
    {
      var p, q := ring[i], At(ring, i + 1);
      ghost var before := top;
      if EdgeSpans(ring, i, x) {
        var at := EdgeTop(p, q, x);
        assert at == RingEdgeTop(ring, i, x);
        if top.None? || at < top.value {
          top := Some(at);
        }
      }
    }
    var bounds := RingBounds(ring);
    y := if top.Some? then top.value else bounds.value.y1;
  }

  lemma LineIsBelow(a: Point, b: Point, p: Point)
    requires a.x < b.x && Cross(a, b, p) >= 0.0
    ensures a.y + ((p.x - a.x) / (b.x - a.x)) * (b.y - a.y) <= p.y
  {
    var dx := b.x - a.x;
    var t := (p.x - a.x) / dx;
    assert t * dx == p.x - a.x;
    assert Cross(a, b, p) == dx * (p.y - (a.y + t * (b.y - a.y)));
    MulSign(dx, p.y - (a.y + t * (b.y - a.y)));
  }

  /** The edge of a chain that passes p's x, the first of them if p is at its very start. */
  lemma ChainSpans(chain: seq<Point>, x: real) returns (j: nat)
    requires |chain| >= 2 && chain[0].x <= x <= chain[|chain| - 1].x
    ensures j + 1 < |chain| && chain[j].x <= x <= chain[j + 1].x && (j == 0 || chain[j].x < x)
  {
    j := 0;
    while chain[j + 1].x < x
      invariant j + 1 < |chain| && chain[j].x <= x && (j == 0 || chain[j].x < x)
      decreases |chain| - j
    {
      j := j + 1;
    }
  }

  lemma FloorPasses(pts: seq<Point>, lower: seq<Point>, upper: seq<Point>, p: Point) returns (j: nat)
    requires Sides(pts, lower, upper) && p in pts
    ensures var ring := Joined(lower, upper);
      j < |ring| && EdgeSpans(ring, j, p.x) && RingEdgeTop(ring, j, p.x) <= p.y
  {
    hide Cross, At, Strict;
    var at :| 0 <= at < |pts| && pts[at] == p;
    assert Ahead(1.0, pts[0], p) by {
      assert at > 0 ==> Ahead(1.0, pts[0], pts[at]);
    }
    assert Ahead(1.0, p, pts[|pts| - 1]) by {
      assert at < |pts| - 1 ==> Ahead(1.0, pts[at], pts[|pts| - 1]);
    }
    j := ChainSpans(lower, p.x);
    RingEdge(pts, lower, upper, j);
    assert Covers(lower, j, p);
    if lower[j].x < lower[j + 1].x {
      LineIsBelow(lower[j], lower[j + 1], p);
    }
  }

  /** No input point lies above the top of its own hull. */
  lemma HullTopIsAbove(points: seq<Point>, ring: seq<Point>, p: Point, y: real)
    requires p in points && IsTop(ring, p.x, y)
    requires if |points| <= 2 then ring == points else Floor(points, ring)
    ensures y <= p.y
  {
    hide Cross, At, Strict, Covers;
    if |points| == 2 {
      assert At(ring, 1) == ring[1];
      assert EdgeSpans(ring, 0, p.x);
      assert RingEdgeTop(ring, 0, p.x) <= p.y by {
        EndsOnLine(ring[0], ring[1]);
      }
    } else if |points| > 2 {
      var pts, lower, upper :| Sides(pts, lower, upper) && multiset(pts) == multiset(points)
        && ring == Joined(lower, upper);
      SamePoints(pts, points);
      RingEdge(pts, lower, upper, 0);
      var j := FloorPasses(pts, lower, upper, p);
    }
  }

  lemma OverItself(d: real)
    requires d != 0.0
    ensures d / d == 1.0 && 0.0 / d == 0.0
  {
    assert d / d * d == d;
    assert 0.0 / d * d == 0.0;
  }

  lemma EndsOnLine(a: Point, b: Point)
    ensures EdgeTop(a, b, a.x) <= a.y && EdgeTop(a, b, b.x) <= b.y
  {
    if a.x != b.x {
      var dx, dy := b.x - a.x, b.y - a.y;
      OverItself(dx);
      var start, end := (a.x - a.x) / dx, (b.x - a.x) / dx;
      assert start == 0.0 && end == 1.0;
      assert start * dy == 0.0 && end * dy == dy;
    }
  }
}
