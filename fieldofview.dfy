/** UFieldOfViewComp: the component that, on every tick, rebuilds the
    visibility polygon of its owner by casting a fan of rays, refining the
    boundary between rays that disagree, and triangulating the result as a fan. */
module FieldOfView {
  import opened ViewCast
  import opened Scan

  class FieldOfViewComp {
    // Settings, with the ranges the editor clamps them to.
    var viewAngle: real                 // [0, 360]
    var amountOfTraces: int             // >= 2
    var angleBetweenTraces: real        // derived by CalculateData
    var viewDistance: real              // >= 0
    var locationOffset: Vector
    var rotationYawOffset: real         // [0, 360]
    var resolutionOfEdgeDetection: int  // >= 0
    var edgeDistThreshold: real         // >= 0

    /** The ray of the previous loop iteration. The struct is a member of the
        component, so the object is fixed; its fields are overwritten. */
    const oldRay: ViewCastRes

    /** The polygon of the latest tick: the start location, then the boundary
        points in sweep order. */
    var vertices: seq<Vector>

    /** The editor's clamp ranges of the settings. */
    predicate ClampRanges()
      reads this`viewAngle, this`amountOfTraces, this`viewDistance, this`rotationYawOffset,
            this`resolutionOfEdgeDetection, this`edgeDistThreshold
    {
      && 0.0 <= viewAngle <= 360.0
      && amountOfTraces >= 2
      && viewDistance >= 0.0
      && 0.0 <= rotationYawOffset <= 360.0
      && resolutionOfEdgeDetection >= 0
      && edgeDistThreshold >= 0.0
    }

    /** The clamp ranges, and the step that CalculateData derives from them,
        the only writer of the protected field angleBetweenTraces. */
    predicate Valid()
      reads this`viewAngle, this`amountOfTraces, this`viewDistance, this`rotationYawOffset,
            this`resolutionOfEdgeDetection, this`edgeDistThreshold, this`angleBetweenTraces
    {
      ClampRanges() && angleBetweenTraces >= 0.0
    }

    /** The parameters one tick reads, for an owner at `ownerLocation` with yaw `ownerYaw`. */
    function SweepOf(ownerLocation: Vector, ownerYaw: real): Sweep
      requires Valid()
      reads this`viewAngle, this`amountOfTraces, this`viewDistance, this`rotationYawOffset,
            this`resolutionOfEdgeDetection, this`edgeDistThreshold, this`locationOffset, this`angleBetweenTraces
    {
      Sweep(Add(ownerLocation, locationOffset), viewAngle / 2.0 + ownerYaw + rotationYawOffset,
            angleBetweenTraces, amountOfTraces, resolutionOfEdgeDetection, edgeDistThreshold)
    }

    /** The constructor's defaults, followed by CalculateData. */
    constructor ()
      ensures Valid()
      ensures viewAngle == 120.0 && amountOfTraces == 120 && viewDistance == 1000.0
      ensures resolutionOfEdgeDetection == 5 && edgeDistThreshold == 100.0
      ensures locationOffset == Zero && rotationYawOffset == 0.0
      ensures angleBetweenTraces == 120.0 / 119.0
      ensures oldRay.Value() == RayCast(false, 0.0, Zero, 0.0) && vertices == []
    {
      viewAngle := 120.0;
      amountOfTraces := 120;
      viewDistance := 1000.0;
      resolutionOfEdgeDetection := 5;
      edgeDistThreshold := 100.0;
      locationOffset := Zero;
      rotationYawOffset := 0.0;
      oldRay := new ViewCastRes();
      vertices := [];
      new;
      CalculateData();
    }

    /** The angle between consecutive rays: the view angle divided by the
        number of gaps between amountOfTraces rays. */
    method CalculateData()
      requires ClampRanges()
      modifies this`angleBetweenTraces
      ensures Valid()
      ensures angleBetweenTraces == viewAngle / ((amountOfTraces - 1) as real)
      ensures angleBetweenTraces * ((amountOfTraces - 1) as real) == viewAngle
      ensures 0.0 <= angleBetweenTraces <= viewAngle
    {
      angleBetweenTraces := viewAngle / ((amountOfTraces - 1) as real);
    }

    /** In every tick of a valid component, ray j is cast at an angle no
        larger than ray i for i <= j: the fan is swept in decreasing angle order. */
    lemma TickAnglesNonIncreasing(ownerLocation: Vector, ownerYaw: real, i: nat, j: nat)
      requires Valid() && i <= j
      ensures TraceAngle(SweepOf(ownerLocation, ownerYaw), j) <= TraceAngle(SweepOf(ownerLocation, ownerYaw), i)
    {
      TraceAnglesNonIncreasing(SweepOf(ownerLocation, ownerYaw), i, j);
    }

    /** Bisection between the angles of `minRay` and `maxRay`: a fixed number
        of samples, each moving the side it agrees with to the midpoint. A
        side never moved keeps the zero vector as its point. `probes` lists
        the angle of every line trace, in order. */
    method FindEdge(minRay: ViewCastRes, maxRay: ViewCastRes, trace: Oracle)
      returns (outMinPoint: Vector, outMaxPoint: Vector, ghost probes: seq<real>)
      requires Valid()
      ensures var b := FindEdgeResult(trace, minRay.Value(), maxRay.Value(), edgeDistThreshold, resolutionOfEdgeDetection);
              outMinPoint == b.minPoint && outMaxPoint == b.maxPoint
      ensures |probes| == resolutionOfEdgeDetection
      ensures forall j {:trigger probes[j]} :: 0 <= j < |probes| ==>
                probes[j] == Mid(Bisect(trace, minRay.Value(), edgeDistThreshold, InitialBracket(minRay.Value(), maxRay.Value()), j))
    {
      ghost var near := minRay.Value();
      ghost var b0 := InitialBracket(near, maxRay.Value());
      var minAngle := minRay.traceAngle;
      var maxAngle := maxRay.traceAngle;
      var minPoint := Zero;
      var maxPoint := Zero;
      probes := [];
      var i := 0;
      while i < resolutionOfEdgeDetection
        invariant 0 <= i <= resolutionOfEdgeDetection
        invariant minRay.Value() == near
        invariant Bracket(minAngle, maxAngle, minPoint, maxPoint) == Bisect(trace, near, edgeDistThreshold, b0, i)
        invariant |probes| == i
        invariant forall j {:trigger probes[j]} :: 0 <= j < i ==> probes[j] == Mid(Bisect(trace, near, edgeDistThreshold, b0, j))
      {
        ghost var b := Bracket(minAngle, maxAngle, minPoint, maxPoint);
        var angle := (minAngle + maxAngle) / 2.0;
        var newViewCast := new ViewCastRes();
        var hit := Trace(trace, angle);
        probes := probes + [angle];
        newViewCast.AssignHit(hit);
        ghost var sample := CastRay(trace, angle);
        assert newViewCast.bBlockSomething == sample.blocked && newViewCast.dist == sample.dist;
        assert newViewCast.point == sample.point;
        var edgeDistThresholdSuccess := Abs(minRay.dist - newViewCast.dist) > edgeDistThreshold;
        if newViewCast.bBlockSomething == minRay.bBlockSomething && !edgeDistThresholdSuccess {
          assert SameSide(near, sample, edgeDistThreshold);
          minAngle := angle;
          minPoint := newViewCast.point;
        } else {
          assert !SameSide(near, sample, edgeDistThreshold);
          maxAngle := angle;
          maxPoint := newViewCast.point;
        }
        assert Bracket(minAngle, maxAngle, minPoint, maxPoint) == BisectStep(trace, near, edgeDistThreshold, b);
        i := i + 1;
      }
      outMinPoint := minPoint;
      outMaxPoint := maxPoint;
    }

    /** The triangle index list of the fan over the vertices, anchored at vertex 0. */
    method CreateMesh() returns (triangles: seq<int>)
      requires |vertices| >= 2
      ensures IsFan(triangles, |vertices|)
    {
      var n := |vertices| - 2;
      var tri := new int[n * 3];
      var i := 0;
      while i < n
        invariant 0 <= i <= n
        invariant forall k :: 0 <= k < 3 * i ==> tri[k] == if k % 3 == 0 then 0 else k / 3 + k % 3
      {
        tri[i * 3] := 0;
        tri[i * 3 + 1] := i + 1;
        tri[i * 3 + 2] := i + 2;
        i := i + 1;
      }
      forall j: nat | j < n
        ensures Triangle(tri[..], j) == [0, j + 1, j + 2]
      {
        assert tri[3 * j] == 0 && tri[3 * j + 1] == j + 1 && tri[3 * j + 2] == j + 2;
      }
      triangles := tri[..];
    }

    /** One iteration of the tick's loop, for ray i: trace it, record it as
        `hit`, refine the edge between oldRay and `hit` when they disagree,
        add the ray's own point and make `hit` the new oldRay. Given the
        state after i iterations, it leaves the state after i + 1. */
    method ScanRay(ownerYaw: real, trace: Oracle, ghost p: Sweep, i: nat)
      requires Valid()
      requires p.baseAngle == viewAngle / 2.0 + ownerYaw + rotationYawOffset && p.step == angleBetweenTraces
      requires p.threshold == edgeDistThreshold && p.resolution == resolutionOfEdgeDetection
      modifies this`vertices, oldRay
      ensures var cur := CastRay(trace, TraceAngle(p, i));
              vertices == StepVertices(p, trace, i, old(vertices), old(oldRay.Value()), cur) && oldRay.Value() == cur
    {
      var angleOfTrace := viewAngle / 2.0 + ownerYaw + rotationYawOffset - angleBetweenTraces * (i as real);
      assert angleOfTrace == TraceAngle(p, i);
      ghost var before := ScanState(vertices, oldRay.Value());
      ghost var cur := CastRay(trace, angleOfTrace);
      ghost var refined := i > 0 && Fires(before.last, cur, p.threshold);
      var Hit := Trace(trace, angleOfTrace);
      var hit := new ViewCastRes();
      hit.AssignHit(Hit);
      hit.traceAngle := angleOfTrace;
      assert hit.Value() == cur;
      if i > 0 {
        var edgeDistThresholdSuccess := Abs(oldRay.dist - hit.dist) > edgeDistThreshold;
        if oldRay.bBlockSomething != Hit.blockingHit || (oldRay.bBlockSomething && Hit.blockingHit && edgeDistThresholdSuccess) {
          var maxPoint, minPoint;
          ghost var probes;
          minPoint, maxPoint, probes := FindEdge(oldRay, hit, trace);
          if minPoint != Zero {
            vertices := vertices + [minPoint];
          }
          if maxPoint != Zero {
            vertices := vertices + [maxPoint];
          }
          assert vertices == AppendEdgePoints(before.vertices, FindEdgeResult(trace, before.last, cur, p.threshold, p.resolution));
          assert refined;
        } else {
          assert !refined;
        }
      }
      assert vertices == if refined then AppendEdgePoints(before.vertices, FindEdgeResult(trace, before.last, cur, p.threshold, p.resolution)) else before.vertices;
      if Hit.blockingHit {
        vertices := vertices + [Hit.impactPoint];
      } else {
        vertices := vertices + [Hit.traceEnd];
      }
      assert vertices == StepVertices(p, trace, i, before.vertices, before.last, cur);
      oldRay.AssignCopy(hit);
    }

    /** One tick: empty the vertex list, add the start location, then for each
        ray add the refined edge points (when it disagrees with the previous
        ray) and its own point, and triangulate. `trace` is the engine's line
        trace from the start location as a function of the angle. */
    method TickComponent(ownerLocation: Vector, ownerYaw: real, trace: Oracle) returns (triangles: seq<int>)
      requires Valid()
      modifies this`vertices, oldRay
      ensures Valid()
      ensures var s := Tick(SweepOf(ownerLocation, ownerYaw), trace, old(oldRay.Value()));
              vertices == s.vertices && oldRay.Value() == s.last
      ensures vertices[0] == Add(ownerLocation, locationOffset)
      ensures var p := SweepOf(ownerLocation, ownerYaw);
              1 + amountOfTraces <= |vertices| <= 1 + amountOfTraces + 2 * Discontinuities(p, trace, amountOfTraces)
      ensures resolutionOfEdgeDetection == 0 ==> |vertices| == 1 + amountOfTraces
      ensures IsFan(triangles, |vertices|)
    {
      ghost var p := SweepOf(ownerLocation, ownerYaw);
      ghost var old0 := oldRay.Value();
      vertices := [];
      var startLocation := Add(ownerLocation, locationOffset);
      vertices := vertices + [startLocation];
      var i := 0;
      while i < amountOfTraces
        invariant 0 <= i <= amountOfTraces
        invariant vertices == ScanAfter(p, trace, old0, i).vertices
        invariant oldRay.Value() == ScanAfter(p, trace, old0, i).last
      {
        ScanRay(ownerYaw, trace, p, i);
        ScanAfterNext(p, trace, old0, i);
        i := i + 1;
      }
      assert p == SweepOf(ownerLocation, ownerYaw) && p.traces == amountOfTraces;
      assert vertices == Tick(p, trace, old0).vertices && oldRay.Value() == Tick(p, trace, old0).last;
      assert old(oldRay.Value()) == old0;
      ScanStartsAtOrigin(p, trace, old0, amountOfTraces);
      ScanVertexCount(p, trace, old0, amountOfTraces);
      if resolutionOfEdgeDetection == 0 {
        ScanVertexCountWithoutRefinement(p, trace, old0, amountOfTraces);
      }
      triangles := CreateMesh();
    }
  }
}
