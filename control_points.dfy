// The control-point store `ControlPoints` of Bezier.h: three parallel per-axis
// lists and a count, updated in place by `add`, `clear` and `randomizePoints`.
// The random draws `randomizePoints` takes from `randfInRange` are an input.

module Points {

  /** A point in space, one value per axis. */
  datatype Point3 = Point3(x: real, y: real, z: real)

  /** The points whose coordinates the three per-axis lists hold at the same index. */
  function Zip3(xs: seq<real>, ys: seq<real>, zs: seq<real>): (r: seq<Point3>)
    requires |xs| == |ys| == |zs|
  {
    seq(|xs|, i requires 0 <= i < |xs| => Point3(xs[i], ys[i], zs[i]))
  }

  /** The x-coordinates of a list of points. */
  function Xs(ps: seq<Point3>): seq<real>
  {
    seq(|ps|, i requires 0 <= i < |ps| => ps[i].x)
  }

  /** The y-coordinates of a list of points. */
  function Ys(ps: seq<Point3>): seq<real>
  {
    seq(|ps|, i requires 0 <= i < |ps| => ps[i].y)
  }

  /** The z-coordinates of a list of points. */
  function Zs(ps: seq<Point3>): seq<real>
  {
    seq(|ps|, i requires 0 <= i < |ps| => ps[i].z)
  }

  /**
   * `randfInRange(r)` for the value `raw` that `rand()` returned:
   * raw / (RAND_MAX / (2 r)) - r.
   */
  function RandfInRange(raw: int, randMax: int, r: real): real
    requires randMax > 0 && r != 0.0
  {
    raw as real / (randMax as real / (r * 2.0)) - r
  }

  /** For a positive r every value `rand()` can return maps into [-r, r], its ends onto the ends. */
  lemma RandfInRangeBounds(raw: int, randMax: int, r: real)
    requires 0 <= raw <= randMax && randMax > 0 && r > 0.0
    ensures -r <= RandfInRange(raw, randMax, r) <= r
    ensures raw == 0 ==> RandfInRange(raw, randMax, r) == -r
    ensures raw == randMax ==> RandfInRange(raw, randMax, r) == r
  {
    var m, d := randMax as real, randMax as real / (r * 2.0);
    assert d > 0.0;
    assert d * (r * 2.0) == m;
    var q := raw as real / d;
    assert q * d == raw as real;
    assert 0.0 <= q <= r * 2.0;
    assert raw == randMax ==> q == r * 2.0;
  }

  /** The point slot i receives: the draws 3i, 3i+1 and 3i+2, for x, y and z in that order. */
  function RandomPoint(rands: seq<int>, i: nat, randMax: int, r: real): Point3
    requires 3 * i + 2 < |rands| && randMax > 0 && r != 0.0
  {
    Point3(RandfInRange(rands[3 * i], randMax, r), RandfInRange(rands[3 * i + 1], randMax, r), RandfInRange(rands[3 * i + 2], randMax, r))
  }

  /** The n points a run of 3n calls of `rand()` yields. */
  function RandomPoints(rands: seq<int>, n: nat, randMax: int, r: real): (ps: seq<Point3>)
    requires |rands| == 3 * n && randMax > 0 && r != 0.0
    ensures |ps| == n
  {
    seq(n, i requires 0 <= i < n => RandomPoint(rands, i, randMax, r))
  }

  /** Whether every coordinate of every point lies in [-r, r]. */
  predicate InRange(ps: seq<Point3>, r: real)
  {
    forall i :: 0 <= i < |ps| ==> -r <= ps[i].x <= r && -r <= ps[i].y <= r && -r <= ps[i].z <= r
  }

  /** Random points lie in [-r, r] on every axis. */
  lemma RandomPointsInRange(rands: seq<int>, n: nat, randMax: int, r: real)
    requires |rands| == 3 * n && randMax > 0 && r > 0.0
    requires forall k :: 0 <= k < |rands| ==> 0 <= rands[k] <= randMax
    ensures InRange(RandomPoints(rands, n, randMax, r), r)
  {
    forall i | 0 <= i < n
      ensures -r <= RandomPoint(rands, i, randMax, r).x <= r
      ensures -r <= RandomPoint(rands, i, randMax, r).y <= r
      ensures -r <= RandomPoint(rands, i, randMax, r).z <= r
    {
      RandfInRangeBounds(rands[3 * i], randMax, r);
      RandfInRangeBounds(rands[3 * i + 1], randMax, r);
      RandfInRangeBounds(rands[3 * i + 2], randMax, r);
    }
  }

  /** Splitting points into axis lists and zipping them again gives the points back. */
  lemma ZipOfSplit(ps: seq<Point3>)
    ensures Zip3(Xs(ps), Ys(ps), Zs(ps)) == ps
  {
    var r := Zip3(Xs(ps), Ys(ps), Zs(ps));
    assert |r| == |ps|;
    forall i | 0 <= i < |ps|
      ensures r[i] == ps[i]
    {
    }
  }

  /** Zipping axis lists and splitting the points again gives the lists back. */
  lemma SplitOfZip(xs: seq<real>, ys: seq<real>, zs: seq<real>)
    requires |xs| == |ys| == |zs|
    ensures Xs(Zip3(xs, ys, zs)) == xs && Ys(Zip3(xs, ys, zs)) == ys && Zs(Zip3(xs, ys, zs)) == zs
  {
  }

  /** Appending one coordinate to each list appends one point. */
  lemma Zip3Append(xs: seq<real>, ys: seq<real>, zs: seq<real>, x: real, y: real, z: real)
    requires |xs| == |ys| == |zs|
    ensures Zip3(xs + [x], ys + [y], zs + [z]) == Zip3(xs, ys, zs) + [Point3(x, y, z)]
  {
    assert (xs + [x])[..|xs|] == xs;
    assert (ys + [y])[..|ys|] == ys;
    assert (zs + [z])[..|zs|] == zs;
  }

  /** `ControlPoints`: the per-axis lists, the number of points and the range for random points. */
  class ControlPoints {
    var count: int
    var range: real
    var xs: seq<real>
    var ys: seq<real>
    var zs: seq<real>

    /**
     * The three lists have equal length, and that length is `count`; the
     * range is the constructor's 10, as nothing else assigns it.
     */
    predicate Valid()
      reads this
    {
      0 <= count && |xs| == count && |ys| == count && |zs| == count && range == 10.0
    }

    /** The stored points, in insertion order. */
    function Points(): (r: seq<Point3>)
      reads this
      requires Valid()
      ensures |r| == count
    {
      Zip3(xs, ys, zs)
    }

    /** The default constructor: no points and range 10. */
    constructor ()
      ensures Valid()
      ensures xs == [] && ys == [] && zs == [] && count == 0 && range == 10.0
    {
      xs, ys, zs := [], [], [];
      count := 0;
      range := 10.0;
    }

    /** `add(x, y, z)`: push one coordinate onto each list and count the new point. */
    method Add(x: real, y: real, z: real)
      requires Valid()
      modifies this
      ensures Valid()
      ensures xs == old(xs) + [x] && ys == old(ys) + [y] && zs == old(zs) + [z]
      ensures count == old(count) + 1 && range == old(range)
      ensures Points() == old(Points()) + [Point3(x, y, z)]
    {
      xs := xs + [x];
      ys := ys + [y];
      zs := zs + [z];
      count := count + 1;
      Zip3Append(old(xs), old(ys), old(zs), x, y, z);
    }

    /** `clear()`: empty the three lists and reset the count; the range stays. */
    method Clear()
      requires Valid()
      modifies this
      ensures Valid()
      ensures xs == [] && ys == [] && zs == [] && count == 0 && range == old(range)
      ensures Points() == []
    {
      xs, ys, zs := [], [], [];
      count := 0;
    }

    /**
     * `randomizePoints()`: overwrite every slot, index by index, with the next
     * three values of `randfInRange(range)` (x, then y, then z); `rands` are the
     * 3 * count values `rand()` returns, in order.
     */
    method RandomizePoints(rands: seq<int>, randMax: int)
      requires Valid() && |rands| == 3 * count && randMax > 0
      modifies this
      ensures Valid()
      ensures count == old(count) && range == old(range)
      ensures Points() == RandomPoints(rands, count, randMax, range)
    {
      for i := 0 to count
        invariant Valid() && count == old(count)
        invariant forall k :: 0 <= k < i ==> Point3(xs[k], ys[k], zs[k]) == RandomPoint(rands, k, randMax, range)
      {
        xs := xs[i := RandfInRange(rands[3 * i], randMax, range)];
        ys := ys[i := RandfInRange(rands[3 * i + 1], randMax, range)];
        zs := zs[i := RandfInRange(rands[3 * i + 2], randMax, range)];
      }
    }

    /** `this = other` in C++: every field takes the other store's value. */
    method CopyFrom(other: ControlPoints)
      requires other.Valid()
      modifies this
      ensures Valid()
      ensures xs == other.xs && ys == other.ys && zs == other.zs
      ensures count == other.count && range == other.range
      ensures Points() == other.Points()
    {
      xs, ys, zs := other.xs, other.ys, other.zs;
      count, range := other.count, other.range;
    }

    /** `getCount()`. */
    method GetCount() returns (c: int)
      requires Valid()
      ensures c == count && c == |Points()|
    {
      c := count;
    }

    /** `getRange()`. */
    method GetRange() returns (r: real)
      ensures r == range
    {
      r := range;
    }

    /** `getXs()`: a copy of the x-list, the x-coordinates of the stored points. */
    method GetXs() returns (r: seq<real>)
      requires Valid()
      ensures r == xs && r == Xs(Points())
    {
      r := xs;
      SplitOfZip(xs, ys, zs);
    }

    /** `getYs()`: a copy of the y-list, the y-coordinates of the stored points. */
    method GetYs() returns (r: seq<real>)
      requires Valid()
      ensures r == ys && r == Ys(Points())
    {
      r := ys;
      SplitOfZip(xs, ys, zs);
    }

    /** `getZs()`: a copy of the z-list, the z-coordinates of the stored points. */
    method GetZs() returns (r: seq<real>)
      requires Valid()
      ensures r == zs && r == Zs(Points())
    {
      r := zs;
      SplitOfZip(xs, ys, zs);
    }
  }
}
