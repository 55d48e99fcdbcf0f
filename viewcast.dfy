/** The value types of FieldOfViewComp.h: the engine's vector and hit record,
    and FViewCastRes, the per-ray record the scan keeps. */
module ViewCast {

  /** An FVector: three real coordinates (floating-point rounding is not modelled). */
  datatype Vector = Vector(x: real, y: real, z: real)

  /** FVector::ZeroVector, which the scan also uses as "no point produced". */
  const Zero: Vector := Vector(0.0, 0.0, 0.0)

  function Add(a: Vector, b: Vector): Vector
  {
    Vector(a.x + b.x, a.y + b.y, a.z + b.z)
  }

  function Abs(x: real): real
  {
    if x < 0.0 then -x else x
  }

  /** The fields of the engine's FHitResult that the component reads. */
  datatype HitResult = HitResult(blockingHit: bool, distance: real, impactPoint: Vector, traceEnd: Vector)

  /** The point a hit record stands for: where the ray was stopped, or where it ended. */
  function HitPoint(h: HitResult): Vector
  {
    if h.blockingHit then h.impactPoint else h.traceEnd
  }

  /** The four fields of an FViewCastRes, as a value. */
  datatype RayCast = RayCast(blocked: bool, dist: real, point: Vector, angle: real)

  /** FViewCastRes. A struct with value semantics whose assignment operators
      overwrite its fields one by one. */
  class ViewCastRes {
    var bBlockSomething: bool
    var dist: real
    var point: Vector
    var traceAngle: real

    function Value(): RayCast
      reads this
    {
      RayCast(bBlockSomething, dist, point, traceAngle)
    }

    /** The constructor with its default arguments: unblocked, at distance 0,
        angle 0, at the zero vector. */
    constructor (bBlockSomething: bool := false, dist: real := 0.0, traceAngle: real := 0.0, point: Vector := Zero)
      ensures this.bBlockSomething == bBlockSomething && this.dist == dist
      ensures this.traceAngle == traceAngle && this.point == point
    {
      this.bBlockSomething := bBlockSomething;
      this.dist := dist;
      this.traceAngle := traceAngle;
      this.point := point;
    }

    /** Copy assignment: all four fields are taken from `other`. */
    method AssignCopy(other: ViewCastRes)
      modifies this
      ensures Value() == old(other.Value())
    {
      bBlockSomething := other.bBlockSomething;
      dist := other.dist;
      point := other.point;
      traceAngle := other.traceAngle;
    }

    /** Assignment from a hit record: blocked flag, distance and point come
        from the hit; the trace angle is left as it was. */
    method AssignHit(other: HitResult)
      modifies this
      ensures bBlockSomething == other.blockingHit && dist == other.distance
      ensures other.blockingHit ==> point == other.impactPoint
      ensures !other.blockingHit ==> point == other.traceEnd
      ensures traceAngle == old(traceAngle)
    {
      bBlockSomething := other.blockingHit;
      if bBlockSomething {
        point := other.impactPoint;
      } else {
        point := other.traceEnd;
      }
      dist := other.distance;
    }
  }
}
