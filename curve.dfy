// The `Bezier` class of Bezier.h: one control-point store and the degree
// derived from it, the point edits, the vertices `draw` hands to OpenGL for
// the curve, and `randomizeAndInterpolate` with its random draws and the
// successive clock readings given as inputs.

module Curve {
  import opened Points
  import opened Bernstein

  /** `NUM_LINE_STRIPS`: the curve is drawn as this many segments. */
  const NumLineStrips: nat := 100

  /** The parameter of vertex i of the drawn curve, i / NUM_LINE_STRIPS. */
  function SampleParameter(i: nat): real
  {
    i as real / NumLineStrips as real
  }

  /** Every vertex parameter lies in [0, 1], from 0 at the first vertex to 1 at the last. */
  lemma SampleParameters(i: nat)
    requires i <= NumLineStrips
    ensures 0.0 <= SampleParameter(i) <= 1.0
    ensures i == 0 ==> SampleParameter(i) == 0.0
    ensures i == NumLineStrips ==> SampleParameter(i) == 1.0
  {
  }

  /** The point of the curve at parameter t, one blend per axis. */
  function CurvePoint(xs: seq<real>, ys: seq<real>, zs: seq<real>, t: real): Point3
  {
    Point3(BezierAt(t, xs), BezierAt(t, ys), BezierAt(t, zs))
  }

  /** The NUM_LINE_STRIPS + 1 vertices of the curve's line strip. */
  function CurveVertices(xs: seq<real>, ys: seq<real>, zs: seq<real>): (vs: seq<Point3>)
    ensures |vs| == NumLineStrips + 1
  {
    seq(NumLineStrips + 1, i requires 0 <= i => CurvePoint(xs, ys, zs, SampleParameter(i)))
  }

  /** The line strip starts at the first control point and ends at the last. */
  lemma CurveEnds(xs: seq<real>, ys: seq<real>, zs: seq<real>)
    requires |xs| == |ys| == |zs| >= 1
    ensures CurveVertices(xs, ys, zs)[0] == Point3(xs[0], ys[0], zs[0])
    ensures CurveVertices(xs, ys, zs)[NumLineStrips] == Point3(xs[|xs| - 1], ys[|ys| - 1], zs[|zs| - 1])
  {
    SampleParameters(0);
    SampleParameters(NumLineStrips);
    StartPoint(xs);
    StartPoint(ys);
    StartPoint(zs);
    EndPoint(xs);
    EndPoint(ys);
    EndPoint(zs);
  }

  /**
   * The drawn curve stays in the cube [-r, r]^3 that holds its control
   * points, the cube `randomizePoints` draws them from.
   */
  lemma CurveInCube(xs: seq<real>, ys: seq<real>, zs: seq<real>, r: real)
    requires |xs| == |ys| == |zs| >= 1
    requires InRange(Zip3(xs, ys, zs), r)
    ensures InRange(CurveVertices(xs, ys, zs), r)
  {
    forall i | 0 <= i <= NumLineStrips
      ensures -r <= CurveVertices(xs, ys, zs)[i].x <= r
      ensures -r <= CurveVertices(xs, ys, zs)[i].y <= r
      ensures -r <= CurveVertices(xs, ys, zs)[i].z <= r
    {
      var t := SampleParameter(i);
      assert forall k :: 0 <= k < |xs| ==> -r <= xs[k] <= r && -r <= ys[k] <= r && -r <= zs[k] <= r by {
        forall k | 0 <= k < |xs|
          ensures -r <= xs[k] <= r && -r <= ys[k] <= r && -r <= zs[k] <= r
        {
          assert Zip3(xs, ys, zs)[k] == Point3(xs[k], ys[k], zs[k]);
        }
      }
      ConvexHull(xs, t, -r, r);
      ConvexHull(ys, t, -r, r);
      ConvexHull(zs, t, -r, r);
    }
  }

  /** A curve of one control point is drawn as that point, NUM_LINE_STRIPS + 1 times. */
  lemma OnePointCurve(x: real, y: real, z: real)
    ensures CurveVertices([x], [y], [z]) == seq(NumLineStrips + 1, i => Point3(x, y, z))
  {
    forall t: real
      ensures CurvePoint([x], [y], [z], t) == Point3(x, y, z)
    {
      SinglePoint([x], t);
      SinglePoint([y], t);
      SinglePoint([z], t);
    }
  }

  /** The loops of `draw` over the control points: one vertex per index, in order. */
  method ControlVertices(xs: seq<real>, ys: seq<real>, zs: seq<real>) returns (vs: seq<Point3>)
    requires |xs| == |ys| == |zs|
    ensures vs == Zip3(xs, ys, zs)
  {
    vs := [];
    for i := 0 to |xs|
      invariant vs == Zip3(xs, ys, zs)[..i]
    {
      var x, y, z := xs[i], ys[i], zs[i];
      vs := vs + [Point3(x, y, z)];
    }
  }

  /** The displacement from p to q, the direction vector `dv` of `randomizeAndInterpolate`. */
  function Displacement(p: Point3, q: Point3): Point3
  {
    Point3(q.x - p.x, q.y - p.y, q.z - p.z)
  }

  /** The point reached from p after the fraction t of its displacement to q. */
  function Lerp(p: Point3, q: Point3, t: real): Point3
  {
    var d := Displacement(p, q);
    Point3(p.x + t * d.x, p.y + t * d.y, p.z + t * d.z)
  }

  /** The point is the start at t = 0 and the target at t = 1. */
  lemma LerpEnds(p: Point3, q: Point3)
    ensures Lerp(p, q, 0.0) == p && Lerp(p, q, 1.0) == q
  {
  }

  /** The control points shown at fraction t of the way from `start` to `target`. */
  function Interpolate(start: seq<Point3>, target: seq<Point3>, t: real): (r: seq<Point3>)
    requires |start| == |target|
    ensures |r| == |start|
  {
    seq(|start|, i requires 0 <= i < |start| => Lerp(start[i], target[i], t))
  }

  /** The interpolation shows the current set at t = 0 and the target set at t = 1. */
  lemma InterpolateEnds(start: seq<Point3>, target: seq<Point3>)
    requires |start| == |target|
    ensures Interpolate(start, target, 0.0) == start
    ensures Interpolate(start, target, 1.0) == target
  {
    forall i | 0 <= i < |start|
      ensures Interpolate(start, target, 0.0)[i] == start[i]
      ensures Interpolate(start, target, 1.0)[i] == target[i]
    {
      LerpEnds(start[i], target[i]);
    }
  }

  /** The direction vectors `dvs`: target minus current point, as three-element lists. */
  function Directions(xs: seq<real>, ys: seq<real>, zs: seq<real>, target: seq<Point3>): seq<seq<real>>
    requires |xs| == |ys| == |zs| == |target|
  {
    seq(|target|, k requires 0 <= k < |target| => [target[k].x - xs[k], target[k].y - ys[k], target[k].z - zs[k]])
  }

  /**
   * The first loop of `randomizeAndInterpolate`: a fresh store `nextCps`
   * holding one random point per current point, drawn x, y, z in turn with
   * `randfInRange(range)`, and the direction vector from each current point
   * to its target.
   */
  method Targets(xs: seq<real>, ys: seq<real>, zs: seq<real>, rands: seq<int>, randMax: int, range: real)
    returns (nextCps: ControlPoints, dvs: seq<seq<real>>)
    requires |xs| == |ys| == |zs| && |rands| == 3 * |xs| && randMax > 0 && range != 0.0
    ensures fresh(nextCps) && nextCps.Valid()
    ensures nextCps.Points() == RandomPoints(rands, |xs|, randMax, range) && nextCps.count == |xs|
    ensures dvs == Directions(xs, ys, zs, RandomPoints(rands, |xs|, randMax, range))
  {
    ghost var draws := RandomPoints(rands, |xs|, randMax, range);
    nextCps := new ControlPoints();
    dvs := [];
    for i := 0 to |xs|
      invariant nextCps.Valid() && nextCps.count == i
      invariant nextCps.Points() == draws[..i]
      invariant dvs == Directions(xs, ys, zs, draws)[..i]
    {
      var x := RandfInRange(rands[3 * i], randMax, range);
      var y := RandfInRange(rands[3 * i + 1], randMax, range);
      var z := RandfInRange(rands[3 * i + 2], randMax, range);
      nextCps.Add(x, y, z);
      assert draws[..i + 1] == draws[..i] + [Point3(x, y, z)];
      dvs := dvs + [[x - xs[i], y - ys[i], z - zs[i]]];
      assert dvs == Directions(xs, ys, zs, draws)[..i + 1];
    }
    assert draws[..|xs|] == draws;
    assert Directions(xs, ys, zs, draws)[..|xs|] == Directions(xs, ys, zs, draws);
  }

  /**
   * One frame of `randomizeAndInterpolate`: fill the empty store `iCps`
   * with each start point moved the fraction t along its direction vector.
   */
  method Frame(iCps: ControlPoints, xs: seq<real>, ys: seq<real>, zs: seq<real>, dvs: seq<seq<real>>, t: real,
               ghost start: seq<Point3>, ghost target: seq<Point3>)
    requires iCps.Valid() && iCps.count == 0
    requires |xs| == |ys| == |zs| == |target| && start == Zip3(xs, ys, zs)
    requires dvs == Directions(xs, ys, zs, target)
    modifies iCps
    ensures iCps.Valid() && iCps.count == |xs| && iCps.range == old(iCps.range)
    ensures iCps.Points() == Interpolate(start, target, t)
  {
    ghost var frame := Interpolate(start, target, t);
    for i := 0 to |xs|
      invariant iCps.Valid() && iCps.count == i && iCps.range == old(iCps.range)
      invariant iCps.Points() == frame[..i]
    {
      var dv := dvs[i];
      var x, y, z := xs[i] + t * dv[0], ys[i] + t * dv[1], zs[i] + t * dv[2];
      assert Point3(x, y, z) == frame[i];
      iCps.Add(x, y, z);
      assert frame[..i + 1] == frame[..i] + [frame[i]];
    }
    assert frame[..|xs|] == frame;
  }

  /**
   * The interpolation parameter a clock reading gives: the milliseconds
   * elapsed since the first reading over the duration in milliseconds.
   */
  function ClockParameter(clock: seq<int>, f: nat, durationSeconds: real): real
    requires f < |clock| && durationSeconds != 0.0
  {
    (clock[f] - clock[0]) as real / (durationSeconds * 1000.0)
  }

  /** The first reading, the start of the animation, gives t = 0. */
  lemma ClockStartsAtZero(clock: seq<int>, durationSeconds: real)
    requires |clock| > 0 && durationSeconds != 0.0
    ensures ClockParameter(clock, 0, durationSeconds) == 0.0
  {
  }

  /**
   * The clock loop of `randomizeAndInterpolate`. `clock` holds the values
   * `glutGet(GLUT_ELAPSED_TIME)` returns: the start reading, then one after
   * each frame. Frame k builds the set interpolated at the parameter of
   * reading k in the scratch store `iCps`, installs it in `cps` (the set
   * `draw` then shows), clears the scratch store and reads the clock. The
   * loop stops after the first frame whose parameter reaches 1; `shown`
   * lists the installed sets in order.
   */
  method Play(cps: ControlPoints, xs: seq<real>, ys: seq<real>, zs: seq<real>, dvs: seq<seq<real>>,
              durationSeconds: real, clock: seq<int>, ghost start: seq<Point3>, ghost target: seq<Point3>)
    returns (shown: seq<seq<Point3>>)
    requires cps.Valid() && cps.count == |xs|
    requires |xs| == |ys| == |zs| == |target| && start == Zip3(xs, ys, zs)
    requires dvs == Directions(xs, ys, zs, target)
    requires durationSeconds != 0.0 && |clock| >= 2 && ClockParameter(clock, |clock| - 2, durationSeconds) >= 1.0
    modifies cps
    ensures cps.Valid() && cps.count == |xs|
    ensures 0 < |shown| < |clock|
    ensures forall k :: 0 <= k < |shown| ==> shown[k] == Interpolate(start, target, ClockParameter(clock, k, durationSeconds))
    ensures forall k :: 0 <= k < |shown| - 1 ==> ClockParameter(clock, k, durationSeconds) < 1.0
    ensures ClockParameter(clock, |shown| - 1, durationSeconds) >= 1.0
    ensures cps.Points() == shown[|shown| - 1]
  {
    var iCps := new ControlPoints();
    var t := 0.0;
    var msStart := clock[0];
    var msNow := msStart;
    var f := 0;
    shown := [];
    while t < 1.0
      invariant 0 <= f < |clock| && msNow == clock[f] && |shown| == f
      invariant iCps.Valid() && iCps.count == 0
      invariant cps.Valid() && cps.count == |xs|
      invariant f == 0 ==> t == 0.0
      invariant f > 0 ==> t == ClockParameter(clock, f - 1, durationSeconds) && cps.Points() == shown[f - 1]
      invariant t < 1.0 ==> f < |clock| - 1
      invariant forall k :: 0 <= k < f ==> shown[k] == Interpolate(start, target, ClockParameter(clock, k, durationSeconds))
      invariant forall k :: 0 <= k < f - 1 ==> ClockParameter(clock, k, durationSeconds) < 1.0
      decreases |clock| - f
    {
      t := (msNow - msStart) as real / (durationSeconds * 1000.0);
      Frame(iCps, xs, ys, zs, dvs, t, start, target);
      cps.CopyFrom(iCps);
      shown := shown + [cps.Points()];
      iCps.Clear();
      f := f + 1;
      msNow := clock[f];
    }
  }

  /** A `Bezier`: its control-point store, its degree and the two display flags. */
  class Bezier {
    const controlPoints: ControlPoints
    var degree: int
    var doControlLines: bool
    var doControlPoints: bool

    /**
     * The store is valid and the degree is one less than the number of
     * points, except for the empty store, where it is the constructor's 0.
     */
    predicate Valid()
      reads this, controlPoints
    {
      controlPoints.Valid() && degree == (if controlPoints.count == 0 then 0 else controlPoints.count - 1)
    }

    /** The default constructor: an empty store, degree 0 (which is not count - 1) and both flags off. */
    constructor ()
      ensures Valid() && fresh(controlPoints)
      ensures controlPoints.Points() == [] && controlPoints.count == 0 && controlPoints.range == 10.0
      ensures degree == 0 && degree != controlPoints.count - 1
      ensures !doControlLines && !doControlPoints
    {
      controlPoints := new ControlPoints();
      degree := 0;
      doControlLines, doControlPoints := false, false;
    }

    /** `showControlLines(b)`. */
    method ShowControlLines(b: bool)
      modifies this
      ensures doControlLines == b && doControlPoints == old(doControlPoints) && degree == old(degree)
    {
      doControlLines := b;
    }

    /** `showControlPoints(b)`. */
    method ShowControlPoints(b: bool)
      modifies this
      ensures doControlPoints == b && doControlLines == old(doControlLines) && degree == old(degree)
    {
      doControlPoints := b;
    }

    /** `addPoint(x, y, z)`: append the point and set the degree to count - 1. */
    method AddPoint(x: real, y: real, z: real)
      requires Valid()
      modifies this, controlPoints
      ensures Valid()
      ensures controlPoints.Points() == old(controlPoints.Points()) + [Point3(x, y, z)]
      ensures controlPoints.count == old(controlPoints.count) + 1 && controlPoints.range == old(controlPoints.range)
      ensures degree == controlPoints.count - 1
      ensures doControlLines == old(doControlLines) && doControlPoints == old(doControlPoints)
    {
      controlPoints.Add(x, y, z);
      var c := controlPoints.GetCount();
      degree := c - 1;
    }

    /** `modifyPoint(index, x, y, z)`: overwrite point `index` on all three axes. */
    method ModifyPoint(index: int, x: real, y: real, z: real)
      requires Valid() && 0 <= index < controlPoints.count
      modifies controlPoints
      ensures Valid()
      ensures controlPoints.xs == old(controlPoints.xs)[index := x]
      ensures controlPoints.ys == old(controlPoints.ys)[index := y]
      ensures controlPoints.zs == old(controlPoints.zs)[index := z]
      ensures controlPoints.count == old(controlPoints.count) && controlPoints.range == old(controlPoints.range)
      ensures controlPoints.Points() == old(controlPoints.Points())[index := Point3(x, y, z)]
    {
      controlPoints.xs := controlPoints.xs[index := x];
      controlPoints.ys := controlPoints.ys[index := y];
      controlPoints.zs := controlPoints.zs[index := z];
    }

    /** `modifyPointZ(index, z)`: overwrite the z-coordinate of point `index` only. */
    method ModifyPointZ(index: int, z: real)
      requires Valid() && 0 <= index < controlPoints.count
      modifies controlPoints
      ensures Valid()
      ensures controlPoints.zs == old(controlPoints.zs)[index := z]
      ensures controlPoints.xs == old(controlPoints.xs) && controlPoints.ys == old(controlPoints.ys)
      ensures controlPoints.count == old(controlPoints.count) && controlPoints.range == old(controlPoints.range)
      ensures controlPoints.Points() == old(controlPoints.Points())[index := old(controlPoints.Points())[index].(z := z)]
    {
      controlPoints.zs := controlPoints.zs[index := z];
    }

    /** `randomize()`: every point takes the next three random values; the count and the degree stay. */
    method Randomize(rands: seq<int>, randMax: int)
      requires Valid() && |rands| == 3 * controlPoints.count && randMax > 0
      modifies controlPoints
      ensures Valid() && controlPoints.Valid()
      ensures controlPoints.count == old(controlPoints.count)
      ensures controlPoints.Points() == RandomPoints(rands, controlPoints.count, randMax, controlPoints.range)
      ensures (forall k :: 0 <= k < |rands| ==> 0 <= rands[k] <= randMax) ==> InRange(controlPoints.Points(), 10.0)
    {
      controlPoints.RandomizePoints(rands, randMax);
      if forall k :: 0 <= k < |rands| ==> 0 <= rands[k] <= randMax {
        RandomPointsInRange(rands, controlPoints.count, randMax, 10.0);
      }
    }

    /** `getDegree()`: count - 1 once a point has been added, 0 for the empty curve. */
    method GetDegree() returns (d: int)
      requires Valid()
      ensures d == degree
      ensures controlPoints.count > 0 ==> d == controlPoints.count - 1
      ensures controlPoints.count == 0 ==> d == 0
    {
      d := degree;
    }

    /** `getControlPoints()`: a copy of the store. */
    method GetControlPoints() returns (r: ControlPoints)
      requires Valid()
      ensures fresh(r) && r.Valid()
      ensures r.Points() == controlPoints.Points() && r.count == controlPoints.count && r.range == controlPoints.range
    {
      r := new ControlPoints();
      r.CopyFrom(controlPoints);
    }

    /**
     * `draw()`, as the geometry it emits: `curve`, the vertices of the curve's
     * line strip, one `calcBezierAtT` per axis at t = i / NUM_LINE_STRIPS for
     * i from 0 to NUM_LINE_STRIPS inclusive; `lines`, the vertices of the
     * control polygon, drawn only when control lines are on; `spheres`, the
     * centres of the control-point spheres, drawn only when control points
     * are on.
     */
    method Draw() returns (curve: seq<Point3>, lines: seq<Point3>, spheres: seq<Point3>)
      requires Valid()
      ensures curve == CurveVertices(controlPoints.xs, controlPoints.ys, controlPoints.zs)
      ensures lines == (if doControlLines then controlPoints.Points() else [])
      ensures spheres == (if doControlPoints then controlPoints.Points() else [])
    {
      var count := controlPoints.GetCount();
      var curvexs := controlPoints.GetXs();
      var curveys := controlPoints.GetYs();
      var curvezs := controlPoints.GetZs();
      curve := [];
      for i := 0 to NumLineStrips + 1
        invariant curve == CurveVertices(curvexs, curveys, curvezs)[..i]
      {
        var t := i as real / NumLineStrips as real;
        var bxt := CalcBezierAtT(t, curvexs);
        var byt := CalcBezierAtT(t, curveys);
        var bzt := CalcBezierAtT(t, curvezs);
        curve := curve + [Point3(bxt, byt, bzt)];
      }
      lines := [];
      if doControlLines {
        lines := ControlVertices(curvexs, curveys, curvezs);
      }
      spheres := [];
      if doControlPoints {
        spheres := ControlVertices(curvexs, curveys, curvezs);
      }
    }

    /**
     * `randomizeAndInterpolate(durationSeconds)`. `rands` are the values
     * `rand()` returns for the targets and `clock` the values the clock
     * returns, the last reading taken once t has reached 1. `shown` are the
     * sets the animation installs and draws, each the interpolation from the
     * old points to the targets at its clock parameter, the first at t = 0.
     * At the end the store holds exactly the targets.
     */
    method RandomizeAndInterpolate(rands: seq<int>, randMax: int, durationSeconds: real, clock: seq<int>)
      returns (shown: seq<seq<Point3>>)
      requires Valid() && |rands| == 3 * controlPoints.count && randMax > 0
      requires durationSeconds != 0.0 && |clock| >= 2 && ClockParameter(clock, |clock| - 2, durationSeconds) >= 1.0
      modifies controlPoints
      ensures Valid()
      ensures controlPoints.Points() == RandomPoints(rands, old(controlPoints.count), randMax, old(controlPoints.range))
      ensures controlPoints.count == old(controlPoints.count)
      ensures (forall k :: 0 <= k < |rands| ==> 0 <= rands[k] <= randMax) ==> InRange(controlPoints.Points(), 10.0)
      ensures 0 < |shown| < |clock| && shown[0] == old(controlPoints.Points())
      ensures forall k :: 0 <= k < |shown| ==>
        shown[k] == Interpolate(old(controlPoints.Points()), controlPoints.Points(), ClockParameter(clock, k, durationSeconds))
      ensures forall k :: 0 <= k < |shown| - 1 ==> ClockParameter(clock, k, durationSeconds) < 1.0
      ensures ClockParameter(clock, |shown| - 1, durationSeconds) >= 1.0
    {
      // The copy `cps` and its per-axis lists.
      var count := controlPoints.count;
      var range := controlPoints.range;
      var xs, ys, zs := controlPoints.xs, controlPoints.ys, controlPoints.zs;
      ghost var start := controlPoints.Points();

      // The targets and the direction vectors.
      var nextCps, dvs := Targets(xs, ys, zs, rands, randMax, range);

      // One frame per clock reading, until t reaches 1.
      shown := Play(controlPoints, xs, ys, zs, dvs, durationSeconds, clock, start, nextCps.Points());
      ClockStartsAtZero(clock, durationSeconds);
      InterpolateEnds(start, nextCps.Points());

      // The new control points.
      controlPoints.CopyFrom(nextCps);
      if forall k :: 0 <= k < |rands| ==> 0 <= rands[k] <= randMax {
        RandomPointsInRange(rands, count, randMax, 10.0);
      }
    }
  }
}
