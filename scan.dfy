/** The visibility scan of FieldOfViewComp.cpp stated on values: the angles of
    the ray fan, the discontinuity test, the bisection of FindEdge, the vertex
    list one tick builds, and the triangle fan over it. The component's methods
    are proved equal to these functions; the lemmas say what they promise. */
module Scan {
  import opened ViewCast

  /** The engine line trace from the tick's start location, out to viewDistance,
      as a function of the trace angle. */
  type Oracle = real -> HitResult

  /** UFieldOfViewComp::Trace towards the given angle: one query of the oracle. */
  function Trace(trace: Oracle, angle: real): HitResult
  {
    trace(angle)
  }

  /** Casting one ray: the hit record assigned into an FViewCastRes, then its
      trace angle set to the angle of the cast. */
  function CastRay(trace: Oracle, angle: real): RayCast
  {
    var h := Trace(trace, angle);
    RayCast(h.blockingHit, h.distance, HitPoint(h), angle)
  }

  // ---------------------------------------------------------------------------
  // The ray fan

  /** What one tick reads from the component's settings and its owner. */
  datatype Sweep = Sweep(
    start: Vector,       // owner location + locationOffset
    baseAngle: real,     // viewAngle / 2 + owner yaw + rotationYawOffset
    step: real,          // angleBetweenTraces
    traces: nat,         // amountOfTraces
    resolution: nat,     // resolutionOfEdgeDetection
    threshold: real)     // edgeDistThreshold

  function TraceAngle(p: Sweep, i: nat): real
  {
    p.baseAngle - p.step * (i as real)
  }

  /** With a non-negative step the fan is swept in non-increasing angle order. */
  lemma TraceAnglesNonIncreasing(p: Sweep, i: nat, j: nat)
    requires p.step >= 0.0 && i <= j
    ensures TraceAngle(p, j) <= TraceAngle(p, i)
  {
    assert TraceAngle(p, i) - TraceAngle(p, j) == p.step * ((j - i) as real);
  }

  /** When angleBetweenTraces is viewAngle / (amountOfTraces - 1), the first ray
      is cast at heading + viewAngle / 2 and the last at heading - viewAngle / 2,
      so consecutive rays are one step apart and the fan spans exactly viewAngle. */
  lemma SweepSpansViewAngle(p: Sweep, viewAngle: real, heading: real, i: nat)
    requires p.traces >= 2 && i + 1 < p.traces
    requires p.step == viewAngle / ((p.traces - 1) as real)
    requires p.baseAngle == viewAngle / 2.0 + heading
    ensures TraceAngle(p, 0) == heading + viewAngle / 2.0
    ensures TraceAngle(p, p.traces - 1) == heading - viewAngle / 2.0
    ensures TraceAngle(p, i) - TraceAngle(p, i + 1) == p.step
  {
    var m := (p.traces - 1) as real;
    assert p.step * m == viewAngle;
    assert TraceAngle(p, i) - TraceAngle(p, i + 1) == p.step * ((i + 1) as real) - p.step * (i as real);
  }

  // ---------------------------------------------------------------------------
  // The discontinuity test between consecutive rays

  /** Edge refinement is requested when the blocked flags differ, or when both
      rays are blocked and their distances differ by more than the threshold. */
  predicate Fires(prev: RayCast, cur: RayCast, threshold: real)
  {
    prev.blocked != cur.blocked || (prev.blocked && cur.blocked && Abs(prev.dist - cur.dist) > threshold)
  }

  /** The test FindEdge applies to each sample: same blocked flag as the near
      ray, and a distance not further than the threshold from it. */
  predicate SameSide(near: RayCast, sample: RayCast, threshold: real)
  {
    sample.blocked == near.blocked && !(Abs(near.dist - sample.dist) > threshold)
  }

  /** Two unblocked rays never request refinement; two blocked rays request it
      exactly when their distances are too far apart; and whenever refinement
      is requested, the two rays lie on different sides of FindEdge's test, so
      the bisection starts from a genuine bracket. */
  lemma FiresCharacterised(prev: RayCast, cur: RayCast, threshold: real)
    requires threshold >= 0.0
    ensures !prev.blocked && !cur.blocked ==> !Fires(prev, cur, threshold)
    ensures prev.blocked && cur.blocked ==> (Fires(prev, cur, threshold) <==> Abs(prev.dist - cur.dist) > threshold)
    ensures prev.blocked != cur.blocked ==> Fires(prev, cur, threshold)
    ensures Fires(prev, cur, threshold) ==> SameSide(prev, prev, threshold) && !SameSide(prev, cur, threshold)
  {
  }

  // ---------------------------------------------------------------------------
  // FindEdge: bisection over the angle interval between two rays

  /** The loop state of FindEdge. */
  datatype Bracket = Bracket(minAngle: real, maxAngle: real, minPoint: Vector, maxPoint: Vector)

  function Mid(b: Bracket): real
  {
    (b.minAngle + b.maxAngle) / 2.0
  }

  /** One iteration: sample the midpoint and move the side the sample belongs to. */
  function BisectStep(trace: Oracle, near: RayCast, threshold: real, b: Bracket): Bracket
  {
    var angle := Mid(b);
    var sample := CastRay(trace, angle);
    if SameSide(near, sample, threshold) then b.(minAngle := angle, minPoint := sample.point)
    else b.(maxAngle := angle, maxPoint := sample.point)
  }

  /** Each iteration moves exactly one side to the midpoint, with the sample's
      point, and leaves the other side as it was. */
  lemma BisectStepMovesOneSide(trace: Oracle, near: RayCast, threshold: real, b: Bracket)
    ensures var r := BisectStep(trace, near, threshold, b);
            var sample := CastRay(trace, Mid(b));
            || (r.minAngle == Mid(b) && r.minPoint == sample.point && r.maxAngle == b.maxAngle && r.maxPoint == b.maxPoint)
            || (r.maxAngle == Mid(b) && r.maxPoint == sample.point && r.minAngle == b.minAngle && r.minPoint == b.minPoint)
  {
  }

  /** The bracket after k iterations. */
  function Bisect(trace: Oracle, near: RayCast, threshold: real, b0: Bracket, k: nat): Bracket
  {
    if k == 0 then b0 else BisectStep(trace, near, threshold, Bisect(trace, near, threshold, b0, k - 1))
  }

  /** The bracket FindEdge starts from: the two rays' angles, no points yet. */
  function InitialBracket(minRay: RayCast, maxRay: RayCast): Bracket
  {
    Bracket(minRay.angle, maxRay.angle, Zero, Zero)
  }

  /** What FindEdge(minRay, maxRay) computes with `resolution` iterations. */
  function FindEdgeResult(trace: Oracle, minRay: RayCast, maxRay: RayCast, threshold: real, resolution: nat): Bracket
  {
    Bisect(trace, minRay, threshold, InitialBracket(minRay, maxRay), resolution)
  }

  function Pow2(k: nat): (r: real)
    ensures r >= 1.0
  {
    if k == 0 then 1.0 else 2.0 * Pow2(k - 1)
  }

  /** The signed width of the bracket halves with every iteration. */
  lemma {:induction false} BisectWidth(trace: Oracle, near: RayCast, threshold: real, b0: Bracket, k: nat)
    ensures var b := Bisect(trace, near, threshold, b0, k);
            b.maxAngle - b.minAngle == (b0.maxAngle - b0.minAngle) / Pow2(k)
  {
    if k > 0 {
      BisectWidth(trace, near, threshold, b0, k - 1);
      var b := Bisect(trace, near, threshold, b0, k - 1);
      var w0 := b0.maxAngle - b0.minAngle;
      assert b.maxAngle - b.minAngle == w0 / Pow2(k - 1);
      assert (b.maxAngle - b.minAngle) / 2.0 == w0 / Pow2(k);
    }
  }

  /** `x` lies in the closed interval between `a` and `b`, in either order. */
  predicate Between(x: real, a: real, b: real)
  {
    (a <= x <= b) || (b <= x <= a)
  }

  /** Both bracket ends stay within the original interval. */
  lemma {:induction false} BisectWithin(trace: Oracle, near: RayCast, threshold: real, b0: Bracket, k: nat)
    ensures var b := Bisect(trace, near, threshold, b0, k);
            Between(b.minAngle, b0.minAngle, b0.maxAngle) && Between(b.maxAngle, b0.minAngle, b0.maxAngle)
  {
    if k > 0 {
      BisectWithin(trace, near, threshold, b0, k - 1);
    }
  }

  /** Each side is either untouched since the start (original angle, original
      point) or was last moved to an angle whose sample falls on that side,
      holding that sample's point: the min side only ever takes samples that
      pass FindEdge's test, the max side only ever takes samples that fail it. */
  lemma {:induction false} BisectLabels(trace: Oracle, near: RayCast, threshold: real, b0: Bracket, k: nat)
    ensures var b := Bisect(trace, near, threshold, b0, k);
            && ((b.minAngle == b0.minAngle && b.minPoint == b0.minPoint) ||
                (SameSide(near, CastRay(trace, b.minAngle), threshold) && b.minPoint == CastRay(trace, b.minAngle).point))
            && ((b.maxAngle == b0.maxAngle && b.maxPoint == b0.maxPoint) ||
                (!SameSide(near, CastRay(trace, b.maxAngle), threshold) && b.maxPoint == CastRay(trace, b.maxAngle).point))
  {
    if k > 0 {
      BisectLabels(trace, near, threshold, b0, k - 1);
    }
  }

  /** A point between two ends is no further from either end than they are
      from each other. */
  lemma BetweenWithinWidth(e: real, x: real, y: real)
    requires Between(e, x, y)
    ensures Abs(e - x) <= Abs(y - x) && Abs(e - y) <= Abs(y - x)
  {
  }

  /** Scaling down by a positive factor commutes with taking the magnitude. */
  lemma AbsDiv(x: real, d: real)
    requires d > 0.0
    ensures Abs(x / d) == Abs(x) / d
  {
    if x < 0.0 {
      assert x / d == -((-x) / d);
    }
  }

  /** The premise of convergence: on the original interval, the samples that
      pass FindEdge's test are exactly those between the min end and `edge`. */
  ghost predicate SingleEdge(trace: Oracle, near: RayCast, threshold: real, b0: Bracket, edge: real)
  {
    && Between(edge, b0.minAngle, b0.maxAngle)
    && forall a :: Between(a, b0.minAngle, b0.maxAngle) ==>
         (SameSide(near, CastRay(trace, a), threshold) <==> Between(a, b0.minAngle, edge))
  }

  /** On a single edge the bracket never loses the edge. */
  lemma BisectKeepsEdge(trace: Oracle, near: RayCast, threshold: real, b0: Bracket, k: nat, edge: real)
    requires SingleEdge(trace, near, threshold, b0, edge)
    ensures var b := Bisect(trace, near, threshold, b0, k);
            Between(edge, b.minAngle, b.maxAngle)
  {
    var b := Bisect(trace, near, threshold, b0, k);
    var lo, hi := b0.minAngle, b0.maxAngle;
    BisectWithin(trace, near, threshold, b0, k);
    BisectLabels(trace, near, threshold, b0, k);
    // The min end lies between lo and the edge: it is lo, or a passing sample.
    if b.minAngle != lo {
      assert SameSide(near, CastRay(trace, b.minAngle), threshold);
    }
    assert Between(b.minAngle, lo, edge);
    // The max end is hi, or a failing sample, which lies beyond the edge.
    if b.maxAngle != hi {
      assert !SameSide(near, CastRay(trace, b.maxAngle), threshold);
      assert !Between(b.maxAngle, lo, edge);
    }
    if lo <= hi {
      assert lo <= b.minAngle <= edge <= b.maxAngle;
    } else {
      assert b.maxAngle <= edge <= b.minAngle;
    }
  }

  /** Convergence on a single edge: the edge stays inside the bracket, so
      each end is within |original width| / 2^k of it. */
  lemma BisectConverges(trace: Oracle, near: RayCast, threshold: real, b0: Bracket, k: nat, edge: real)
    requires SingleEdge(trace, near, threshold, b0, edge)
    ensures var b := Bisect(trace, near, threshold, b0, k);
            && Between(edge, b.minAngle, b.maxAngle)
            && Abs(edge - b.minAngle) <= Abs(b0.maxAngle - b0.minAngle) / Pow2(k)
            && Abs(edge - b.maxAngle) <= Abs(b0.maxAngle - b0.minAngle) / Pow2(k)
  {
    var b := Bisect(trace, near, threshold, b0, k);
    BisectKeepsEdge(trace, near, threshold, b0, k, edge);
    BisectWidth(trace, near, threshold, b0, k);
    AbsDiv(b0.maxAngle - b0.minAngle, Pow2(k));
    BetweenWithinWidth(edge, b.minAngle, b.maxAngle);
  }

  /** The refined points the tick keeps: the non-zero ones, min before max. */
  function KeptEdgePoints(b: Bracket): seq<Vector>
  {
    (if b.minPoint != Zero then [b.minPoint] else []) + (if b.maxPoint != Zero then [b.maxPoint] else [])
  }

  /** At most two points are kept, never the zero vector; a point is kept
      exactly when it is not zero; the min-side point comes first and the
      max-side point last, and nothing else is added. */
  lemma KeptEdgePointsOrdered(b: Bracket)
    ensures var r := KeptEdgePoints(b);
            && |r| <= 2 && Zero !in r
            && (b.minPoint in r <==> b.minPoint != Zero)
            && (b.maxPoint in r <==> b.maxPoint != Zero)
            && (b.minPoint != Zero ==> r[0] == b.minPoint)
            && (b.maxPoint != Zero ==> r[|r| - 1] == b.maxPoint)
            && (forall v :: v in r ==> v == b.minPoint || v == b.maxPoint)
  {
  }

  /** With no iterations FindEdge produces nothing the tick keeps. */
  lemma NoRefinementKeepsNothing(trace: Oracle, minRay: RayCast, maxRay: RayCast, threshold: real)
    ensures KeptEdgePoints(FindEdgeResult(trace, minRay, maxRay, threshold, 0)) == []
  {
  }

  // ---------------------------------------------------------------------------
  // One tick

  /** The component's vertex list and its oldRay field. */
  datatype ScanState = ScanState(vertices: seq<Vector>, last: RayCast)

  /** The vertex list after the refined points of bracket `b` are appended:
      the min-side point, then the max-side point, each only when it is not
      the zero vector. */
  function AppendEdgePoints(v: seq<Vector>, b: Bracket): seq<Vector>
  {
    var v1 := if b.minPoint != Zero then v + [b.minPoint] else v;
    if b.maxPoint != Zero then v1 + [b.maxPoint] else v1
  }

  /** Appending the refined points appends exactly the kept points. */
  lemma AppendEdgePointsKept(v: seq<Vector>, b: Bracket)
    ensures AppendEdgePoints(v, b) == v + KeptEdgePoints(b)
  {
    if b.minPoint != Zero && b.maxPoint != Zero {
      assert v + [b.minPoint] + [b.maxPoint] == v + ([b.minPoint] + [b.maxPoint]);
    }
  }

  /** The vertex list after loop iteration i, given the list before it, the
      previous ray and this one. */
  function StepVertices(p: Sweep, trace: Oracle, i: nat, v: seq<Vector>, prev: RayCast, cur: RayCast): seq<Vector>
  {
    var v1 := if i > 0 && Fires(prev, cur, p.threshold)
              then AppendEdgePoints(v, FindEdgeResult(trace, prev, cur, p.threshold, p.resolution))
              else v;
    v1 + [cur.point]
  }

  /** The points one loop iteration appends. */
  function StepPoints(p: Sweep, trace: Oracle, i: nat, prev: RayCast, cur: RayCast): seq<Vector>
  {
    (if i > 0 && Fires(prev, cur, p.threshold)
     then KeptEdgePoints(FindEdgeResult(trace, prev, cur, p.threshold, p.resolution))
     else [])
    + [cur.point]
  }

  /** An iteration keeps the list it found and appends its step points. */
  lemma StepVerticesAppends(p: Sweep, trace: Oracle, i: nat, v: seq<Vector>, prev: RayCast, cur: RayCast)
    ensures StepVertices(p, trace, i, v, prev, cur) == v + StepPoints(p, trace, i, prev, cur)
  {
    if i > 0 && Fires(prev, cur, p.threshold) {
      var b := FindEdgeResult(trace, prev, cur, p.threshold, p.resolution);
      AppendEdgePointsKept(v, b);
      assert v + KeptEdgePoints(b) + [cur.point] == v + (KeptEdgePoints(b) + [cur.point]);
    }
  }

  /** The points of one iteration: at most two kept refined points, only
      when refinement was requested, then the ray's own point. */
  lemma StepPointsShape(p: Sweep, trace: Oracle, i: nat, prev: RayCast, cur: RayCast)
    ensures var pts := StepPoints(p, trace, i, prev, cur);
            var extra := pts[..|pts| - 1];
            && 1 <= |pts| <= 3 && pts[|pts| - 1] == cur.point && Zero !in extra
            && (!(i > 0 && Fires(prev, cur, p.threshold)) ==> extra == [])
            && (i > 0 && Fires(prev, cur, p.threshold) ==>
                  extra == KeptEdgePoints(FindEdgeResult(trace, prev, cur, p.threshold, p.resolution)))
  {
    var pts := StepPoints(p, trace, i, prev, cur);
    var kept := if i > 0 && Fires(prev, cur, p.threshold)
                then KeptEdgePoints(FindEdgeResult(trace, prev, cur, p.threshold, p.resolution))
                else [];
    KeptEdgePointsOrdered(FindEdgeResult(trace, prev, cur, p.threshold, p.resolution));
    assert pts == kept + [cur.point];
    assert pts[..|pts| - 1] == kept;
  }

  /** A sequence extended by a non-empty tail splits back into the two. */
  lemma AppendSplit<T>(a: seq<T>, b: seq<T>)
    requires |b| >= 1
    ensures (a + b)[..|a|] == a
    ensures (a + b)[|a|..|a + b| - 1] == b[..|b| - 1]
    ensures (a + b)[|a + b| - 1] == b[|b| - 1]
  {
    assert (a + b)[|a|..] == b;
  }

  /** The state after the first n loop iterations of a tick that found oldRay
      equal to `old0`: the vertex list was emptied and the start location added
      before the loop. */
  function ScanAfter(p: Sweep, trace: Oracle, old0: RayCast, n: nat): ScanState
  {
    if n == 0 then ScanState([p.start], old0)
    else
      var s := ScanAfter(p, trace, old0, n - 1);
      var cur := CastRay(trace, TraceAngle(p, n - 1));
      ScanState(StepVertices(p, trace, n - 1, s.vertices, s.last, cur), cur)
  }

  /** One more iteration, spelled out. */
  lemma ScanAfterNext(p: Sweep, trace: Oracle, old0: RayCast, n: nat)
    ensures var s := ScanAfter(p, trace, old0, n);
            var cur := CastRay(trace, TraceAngle(p, n));
            ScanAfter(p, trace, old0, n + 1) == ScanState(StepVertices(p, trace, n, s.vertices, s.last, cur), cur)
  {
  }

  /** The whole tick. */
  function Tick(p: Sweep, trace: Oracle, old0: RayCast): ScanState
  {
    ScanAfter(p, trace, old0, p.traces)
  }

  /** After at least one iteration, oldRay holds the ray of the latest iteration. */
  lemma {:induction false} ScanLast(p: Sweep, trace: Oracle, old0: RayCast, n: nat)
    requires n > 0
    ensures ScanAfter(p, trace, old0, n).last == CastRay(trace, TraceAngle(p, n - 1))
  {
  }

  /** The first vertex is the start location, and the list only grows. */
  lemma {:induction false} ScanStartsAtOrigin(p: Sweep, trace: Oracle, old0: RayCast, n: nat)
    ensures |ScanAfter(p, trace, old0, n).vertices| >= 1
    ensures ScanAfter(p, trace, old0, n).vertices[0] == p.start
  {
    if n > 0 {
      ScanStartsAtOrigin(p, trace, old0, n - 1);
    }
  }

  /** Nothing of the previous tick survives: the vertex list and the final
      oldRay do not depend on the oldRay the tick started with, because the
      first ray is never compared with it. */
  lemma {:induction false} ScanIgnoresOldRay(p: Sweep, trace: Oracle, old1: RayCast, old2: RayCast, n: nat)
    requires n > 0
    ensures ScanAfter(p, trace, old1, n) == ScanAfter(p, trace, old2, n)
  {
    if n > 1 {
      ScanIgnoresOldRay(p, trace, old1, old2, n - 1);
    }
  }

  /** Whether iteration i (i > 0) requests edge refinement. */
  predicate FiresAt(p: Sweep, trace: Oracle, i: nat)
  {
    i > 0 && Fires(CastRay(trace, TraceAngle(p, i - 1)), CastRay(trace, TraceAngle(p, i)), p.threshold)
  }

  /** The number of discontinuities among the first n rays. */
  function Discontinuities(p: Sweep, trace: Oracle, n: nat): nat
  {
    if n == 0 then 0 else Discontinuities(p, trace, n - 1) + (if FiresAt(p, trace, n - 1) then 1 else 0)
  }

  /** Iteration n keeps the vertex list it found and appends its step points. */
  lemma ScanAppends(p: Sweep, trace: Oracle, old0: RayCast, n: nat)
    ensures var s := ScanAfter(p, trace, old0, n);
            ScanAfter(p, trace, old0, n + 1).vertices
              == s.vertices + StepPoints(p, trace, n, s.last, CastRay(trace, TraceAngle(p, n)))
  {
    var s := ScanAfter(p, trace, old0, n);
    StepVerticesAppends(p, trace, n, s.vertices, s.last, CastRay(trace, TraceAngle(p, n)));
  }

  /** Each iteration appends its own ray point and, when it detected a
      discontinuity, at most two refined points before it. */
  lemma {:induction false} ScanStep(p: Sweep, trace: Oracle, old0: RayCast, n: nat)
    ensures var before := ScanAfter(p, trace, old0, n).vertices;
            var after := ScanAfter(p, trace, old0, n + 1).vertices;
            var extra := after[|before|..|after| - 1];
            && |before| < |after| <= |before| + 3
            && after[..|before|] == before
            && after[|after| - 1] == HitPoint(Trace(trace, TraceAngle(p, n)))
            && Zero !in extra
            && (!FiresAt(p, trace, n) ==> extra == [])
            && (FiresAt(p, trace, n) ==>
                  extra == KeptEdgePoints(FindEdgeResult(trace, CastRay(trace, TraceAngle(p, n - 1)),
                                                         CastRay(trace, TraceAngle(p, n)), p.threshold, p.resolution)))
  {
    var s := ScanAfter(p, trace, old0, n);
    var cur := CastRay(trace, TraceAngle(p, n));
    var pts := StepPoints(p, trace, n, s.last, cur);
    var after := ScanAfter(p, trace, old0, n + 1).vertices;
    ScanAppends(p, trace, old0, n);
    StepPointsShape(p, trace, n, s.last, cur);
    AppendSplit(s.vertices, pts);
    if n > 0 {
      ScanLast(p, trace, old0, n);
      assert FiresAt(p, trace, n) == Fires(s.last, cur, p.threshold);
    }
    assert FiresAt(p, trace, n) == (n > 0 && Fires(s.last, cur, p.threshold));
    assert after[|s.vertices|..|after| - 1] == pts[..|pts| - 1];
  }

  /** Iteration n adds one point, plus at most two when it refines an edge. */
  lemma ScanStepCount(p: Sweep, trace: Oracle, old0: RayCast, n: nat)
    ensures var before := |ScanAfter(p, trace, old0, n).vertices|;
            var after := |ScanAfter(p, trace, old0, n + 1).vertices|;
            before + 1 <= after <= before + 1 + (if FiresAt(p, trace, n) then 2 else 0)
  {
    var s := ScanAfter(p, trace, old0, n);
    var cur := CastRay(trace, TraceAngle(p, n));
    ScanAppends(p, trace, old0, n);
    StepPointsShape(p, trace, n, s.last, cur);
    if n > 0 {
      ScanLast(p, trace, old0, n);
    }
  }

  /** The vertex count: one start vertex, one point per ray, and at most two
      refined points per discontinuity. */
  lemma {:induction false} ScanVertexCount(p: Sweep, trace: Oracle, old0: RayCast, n: nat)
    ensures 1 + n <= |ScanAfter(p, trace, old0, n).vertices| <= 1 + n + 2 * Discontinuities(p, trace, n)
  {
    if n > 0 {
      ScanVertexCount(p, trace, old0, n - 1);
      ScanStepCount(p, trace, old0, n - 1);
    }
  }

  /** With resolutionOfEdgeDetection = 0 there is exactly one vertex per ray
      after the start vertex, whatever the scene. */
  lemma {:induction false} ScanVertexCountWithoutRefinement(p: Sweep, trace: Oracle, old0: RayCast, n: nat)
    requires p.resolution == 0
    ensures |ScanAfter(p, trace, old0, n).vertices| == 1 + n
  {
    if n > 0 {
      ScanVertexCountWithoutRefinement(p, trace, old0, n - 1);
      var s := ScanAfter(p, trace, old0, n - 1);
      var cur := CastRay(trace, TraceAngle(p, n - 1));
      StepVerticesAppends(p, trace, n - 1, s.vertices, s.last, cur);
      NoRefinementKeepsNothing(trace, s.last, cur, p.threshold);
    }
  }

  // ---------------------------------------------------------------------------
  // CreateMesh: the triangle fan anchored at vertex 0

  /** Triangle i of an index list: its three entries. */
  function Triangle(t: seq<int>, i: nat): seq<int>
    requires 3 * i + 3 <= |t|
  {
    t[3 * i..3 * i + 3]
  }

  /** `t` is the fan over `count` vertices: triangle i is (0, i + 1, i + 2). */
  predicate IsFan(t: seq<int>, count: int)
  {
    && count >= 2
    && |t| == 3 * (count - 2)
    && forall i: nat :: i < count - 2 ==> Triangle(t, i) == [0, i + 1, i + 2]
  }

  /** Triangle i and triangle i - 1 have the edge (0, i + 1) in common: the
      first corner of both is vertex 0, and the second corner of triangle i is
      the third corner of triangle i - 1. */
  predicate SharesEdgeWithPrevious(t: seq<int>, i: nat)
    requires 0 < i && 3 * i + 3 <= |t|
  {
    Triangle(t, i)[0] == Triangle(t, i - 1)[0] == 0 && Triangle(t, i)[1] == Triangle(t, i - 1)[2] == i + 1
  }

  /** Every index of the fan names one of its vertices, every triangle has
      vertex 0 as a corner, and triangle i shares the edge (0, i + 1) with
      triangle i - 1. */
  lemma FanWellFormed(t: seq<int>, count: int)
    requires IsFan(t, count)
    ensures forall k :: 0 <= k < |t| ==> 0 <= t[k] < count
    ensures forall k :: 0 <= k < |t| && k % 3 == 0 ==> t[k] == 0
    ensures forall i: nat :: 0 < i < count - 2 ==> SharesEdgeWithPrevious(t, i)
  {
    forall k | 0 <= k < |t|
      ensures 0 <= t[k] < count && (k % 3 == 0 ==> t[k] == 0)
    {
      var i: nat := k / 3;
      assert 3 * i <= k < 3 * i + 3;
      assert Triangle(t, i) == [0, i + 1, i + 2];
      assert t[k] == Triangle(t, i)[k - 3 * i];
    }
  }
}
