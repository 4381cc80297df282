/** Line-intersection geometry used to cut a ramp where it crosses a rate. */
module IntersectionMath {
  import opened Wrappers
  import opened Numbers
  import opened Phases

  datatype Point = Point(x: real, y: real)

  const ParallelLines: string := "Parallel lines never intersect, detect and avoid this case"

  /** Where the ramp, drawn as the line from (0, arrivalRate) to
      (duration, rampTo), meets the horizontal line y = target. A flat
      ramp never meets it (or lies on it): that is a caller error. */
  function Intersection(p: Phase, target: real): (r: Result<Point, string>)
    requires p.Ramp?
    ensures r.Failure? <==> p.arrivalRate == p.rampTo
    ensures r.Failure? ==> r.error == ParallelLines
    ensures r.Success? ==>
              && r.value.y == target
              && (target - p.arrivalRate) * p.duration == (p.rampTo - p.arrivalRate) * r.value.x
    ensures r.Success? && p.duration > 0.0
            && Min(p.arrivalRate, p.rampTo) < target < Max(p.arrivalRate, p.rampTo)
            ==> 0.0 < r.value.x < p.duration
  {
    var d, a, z := p.duration, p.arrivalRate, p.rampTo;
    if a == z then Failure(ParallelLines)
    else
      var f := (target - a) / (z - a);
      assert (z - a) * (d * f) == (target - a) * d;
      CrossingInside(d, a, z, target);
      Success(Point(d * f, target))
  }

  /** A target strictly between the endpoints is crossed strictly inside
      the ramp's duration. */
  lemma CrossingInside(d: real, a: real, z: real, target: real)
    requires a != z
    ensures d > 0.0 && Min(a, z) < target < Max(a, z) ==> 0.0 < d * ((target - a) / (z - a)) < d
  {
    if d > 0.0 && Min(a, z) < target < Max(a, z) {
      if a < z {
        FractionInside(target - a, z - a);
      } else {
        FractionInside(a - target, a - z);
        assert (target - a) / (z - a) == (a - target) / (a - z);
      }
      ScaleStrictlyWithin(d, (target - a) / (z - a));
    }
  }
}
