# Bézier curves of arbitrary degree, in Dafny

This project models `Bezier.h`, a header that evaluates and renders 3D Bézier
curves of any degree. It is written in Dafny. The model has four parts:

- **combinatorics.dfy** (module `Combinatorics`): `factorial` and `binomial`.
  - Both are over unbounded integers. `binomial` uses integer division, as in the source.
  - Pascal's triangle is an independent reference definition. The factorial
    formula is proved exact against it.
  - A 32-bit version of both functions shows where the source's `int`
    overflows (see Findings).
- **bernstein.dfy** (module `Bernstein`): the blend `calcBezierAtT` along one axis.
  - Reals stand in for `float`. A recursive power stands in for `pow`, with `0^0 = 1`.
  - `BezierAt` is the specification: the clamped parameter and the sum of
    Bernstein weights times control values.
  - The loop method `CalcBezierAtT` is proved equal to `BezierAt`.
  - Proved about `BezierAt`:
    - clamping;
    - endpoint interpolation;
    - the constant and linear cases;
    - Pascal's rule for the weights;
    - the partition of unity (the weights sum to 1);
    - the convex-hull bound.
- **control_points.dfy** (module `Points`): the `ControlPoints` class.
  - Its fields are three per-axis `seq<real>` lists, `count` and `range`.
  - Methods update them in place.
  - `randfInRange` is modelled on the value `rand()` returned, with the
    proof that it lands in `[-r, r]`.
- **curve.dfy** (module `Curve`): the `Bezier` class.
  - It holds the store, the degree and the two display flags.
  - Point edits.
  - The geometry `draw` emits: 101 curve vertices, the control polygon and
    the sphere centres.
  - `randomizeAndInterpolate`, with the random values and the clock readings
    as inputs. Every set it shows is proved to be the linear interpolation
    from the old points to the targets at that reading's parameter. At the
    end the store holds exactly the targets.
  - The last set shown is the interpolation at the first parameter that
    reaches 1. That parameter can exceed 1, so that frame can lie beyond
    the targets before the final assignment.

Where the code and the usual description of the curve disagree, the model
follows the code:
- An empty list of control points evaluates to 0. No error is raised.
- A new curve has degree 0 with no points. After the first `addPoint` the
  degree is `count - 1`.

## Model

| member | source | states |
|---|---|---|
| Combinatorics.Factorial | Bezier.h:241-244 | `factorial` over unbounded integers: n * (n-1)! for n > 1 and 1 otherwise (negative n included); its properties are the lemmas below |
| Combinatorics.Binomial | Bezier.h:247-249 | `binomial` as n! / (k! (n-k)!) with integer division; `BinomialExact` and `BinomialIsPascal` state that the division is exact and gives Pascal's entry |
| Combinatorics.FactorialPositive | Bezier.h:241-244 | n! is at least 1 for every n, negative n included, so `binomial`'s divisor is never zero |
| Combinatorics.FactorialMonotone | Bezier.h:241-244 | from 0 upwards the factorial never decreases |
| Combinatorics.Pascal | Bezier.h:247-249 | the reference triangle is positive exactly inside 0 <= k <= n |
| Combinatorics.PascalTimesFactorials | Bezier.h:247-249 | Pascal's coefficient times k!(n-k)! is n!, so the division in `binomial` is exact |
| Combinatorics.BinomialExact | Bezier.h:247-249 | for 0 <= k <= n, C(n,k) times k!(n-k)! is n!: integer division loses nothing |
| Combinatorics.BinomialIsPascal | Bezier.h:247-249 | for 0 <= k <= n, `binomial` equals the entry of Pascal's triangle |
| Combinatorics.BinomialPositive | Bezier.h:247-249 | within range the coefficient is at least 1 |
| Combinatorics.BinomialSymmetric | Bezier.h:247-249 | C(n,k) == C(n,n-k) |
| Combinatorics.BinomialPascalRule | Bezier.h:247-249 | C(n,k) == C(n-1,k-1) + C(n-1,k) for 0 < k < n |
| Combinatorics.BinomialEdges | Bezier.h:247-249 | C(n,0) == C(n,n) == 1 |
| Combinatorics.SmallValues | Bezier.h:241-249 | 5! == 120 and C(4,2) == 6 |
| Combinatorics.Wrap32 | Bezier.h:241-244 | a 32-bit `int` result lies in [-2^31, 2^31) and is the exact value when that fits |
| Combinatorics.Quot | Bezier.h:248 | C's truncating `/` agrees with the exact quotient on non-negative operands |
| Combinatorics.Factorial32 | Bezier.h:241-244 | `factorial` with every product wrapped to 32 bits (each step through `Wrap32`); `Factorial32Exact` and `Overflow` state where it is and is not exact |
| Combinatorics.Binomial32 | Bezier.h:241-249 | `binomial` over the 32-bit factorial with C's truncating division; `Binomial32Exact` and `Overflow` state where it is and is not exact |
| Combinatorics.Factorial32Exact | Bezier.h:241-244 | the 32-bit factorial is exact up to 12! |
| Combinatorics.Binomial32Exact | Bezier.h:241-249 | for 0 <= k <= n <= 12 the 32-bit divisor is non-zero and the 32-bit `binomial` is the exact coefficient |
| Combinatorics.Overflow | Bezier.h:241-249 | the 32-bit 13! is 1932053504, not 6227020800, and the 32-bit C(13,1) is 4, not 13 |
| Bernstein.Pow | Bezier.h:266 | `pow` with a natural exponent as repeated multiplication, 0^0 = 1; `PowNonNegative`, `PowOfOne` and `PowOfZero` state its properties |
| Bernstein.PowNonNegative | Bezier.h:266 | a power of a non-negative base is non-negative |
| Bernstein.PowOfOne | Bezier.h:266 | 1^e == 1 |
| Bernstein.PowOfZero | Bezier.h:266 | 0^e == 0 for e > 0 (and 0^0 == 1 by definition, as C's `pow` gives) |
| Bernstein.Clamp | Bezier.h:255-257 | the clamped parameter is in [0,1], is t inside it, 0 below and 1 above |
| Bernstein.CoefficientIsPascal | Bezier.h:247-249 | the real coefficient is Pascal's entry |
| Bernstein.CoefficientIsBinomial | Bezier.h:266 | in range, the real coefficient is `binomial(n, i)` |
| Bernstein.BezierAt | Bezier.h:251-269 | the specification of `calcBezierAtT`: 0 for no control points, otherwise the sum over i of C(n,i) t^i (1-t)^(n-i) ps[i] with t clamped and n = size - 1; `CalcBezierAtT` is proved to compute it and the lemmas below state its properties |
| Bernstein.CalcBezierAtT | Bezier.h:251-269 | the loop returns `BezierAt(t, ps)`: the sum over i of C(n,i) t^i (1-t)^(n-i) ps[i], with t clamped and n = size - 1 |
| Bernstein.ClampLaw | Bezier.h:255-257 | parameters below 0 give the value at 0, and parameters above 1 the value at 1 |
| Bernstein.EmptyCurve | Bezier.h:259-266 | with no control points the loop never runs and the value is 0 |
| Bernstein.WeightAtZero | Bezier.h:266 | at t = 0 the weight of index 0 is 1 and every other weight is 0 |
| Bernstein.WeightAtOne | Bezier.h:266 | at t = 1 the weight of index n is 1 and every other weight is 0 |
| Bernstein.WeightDegreeZero | Bezier.h:266 | degree 0 has the single weight 1 |
| Bernstein.WeightDegreeOne | Bezier.h:266 | degree 1 has the weights 1 - t and t |
| Bernstein.DotOfUnit | Bezier.h:264-266 | a blend whose weights are the unit vector at k picks out entry k |
| Bernstein.StartPoint | Bezier.h:251-269 | at t = 0 the curve passes through its first control point |
| Bernstein.EndPoint | Bezier.h:251-269 | at t = 1 the curve passes through its last control point |
| Bernstein.SinglePoint | Bezier.h:251-269 | one control point gives a constant curve |
| Bernstein.TwoPoints | Bezier.h:251-269 | two control points give (1-t) p0 + t p1, t clamped |
| Bernstein.QuadraticAtHalf | Bezier.h:251-269 | the quadratics 0,1,2 and 0,2,0 both take the value 1 at t = 1/2 |
| Bernstein.WeightPascal | Bezier.h:266 | the degree n+1 weight of index m is t times weight m-1 of degree n plus (1-t) times weight m |
| Bernstein.PascalRow | Bezier.h:266 | the same relation, for every entry of a row of weights |
| Bernstein.PascalPrefix | Bezier.h:264-266 | summing that relation: the prefix sums of row n+1 blend those of row n |
| Bernstein.PartitionOfUnity | Bezier.h:264-266 | the degree-n weights sum to 1 for every t |
| Bernstein.CoefficientNonNegative | Bezier.h:247-249 | the coefficient is never negative |
| Bernstein.WeightNonNegative | Bezier.h:266 | on [0,1] every weight is non-negative |
| Bernstein.DotBounds | Bezier.h:264-266 | non-negative weights and values in [lo,hi] keep the blend between lo and hi times the weight sum |
| Bernstein.ConvexHull | Bezier.h:251-269 | if every control value is in [lo,hi], so is the curve at every t |
| Points.RandfInRange | Bezier.h:236-238 | `randfInRange` on the value `rand()` returned: raw / (RAND_MAX / (2r)) - r; `RandfInRangeBounds` states its range |
| Points.RandomPoints | Bezier.h:50-56 | the n points `randomizePoints` stores, point i taking draws 3i, 3i+1, 3i+2 for x, y, z; there are exactly n of them |
| Points.RandfInRangeBounds | Bezier.h:236-238 | for r > 0 every `rand()` value in [0, RAND_MAX] maps into [-r, r], 0 onto -r and RAND_MAX onto r |
| Points.RandomPointsInRange | Bezier.h:50-56 | random points lie in [-r, r] on every axis |
| Points.SplitOfZip | Bezier.h:19-25 | the per-axis lists are recovered from the points they store |
| Points.ZipOfSplit | Bezier.h:19-25 | the points are recovered from their per-axis lists |
| Points.Zip3Append | Bezier.h:34-39 | appending one coordinate per axis appends one point |
| Points.ControlPoints.constructor | Bezier.h:27-31 | a new store is empty, with count 0 and range 10 |
| Points.ControlPoints.Add | Bezier.h:34-39 | x, y, z become the new last elements; earlier elements, the range and the equal-length invariant are kept; count grows by one |
| Points.ControlPoints.Clear | Bezier.h:42-47 | all lists are empty and count is 0; the range is kept |
| Points.ControlPoints.RandomizePoints | Bezier.h:50-56 | every slot i holds the three `randfInRange` values drawn for it; count and range are unchanged |
| Points.ControlPoints.CopyFrom | Bezier.h:218 | assigning a store copies all of its fields |
| Points.ControlPoints.GetCount | Bezier.h:59 | returns the count, which is the number of stored points |
| Points.ControlPoints.GetRange | Bezier.h:60 | returns the range |
| Points.ControlPoints.GetXs | Bezier.h:61 | returns the x-list, the x-coordinates of the stored points |
| Points.ControlPoints.GetYs | Bezier.h:62 | returns the y-list |
| Points.ControlPoints.GetZs | Bezier.h:63 | returns the z-list |
| Curve.SampleParameter | Bezier.h:113 | the parameter of sample i, i / NUM_LINE_STRIPS; `SampleParameters` states its range and end values |
| Curve.SampleParameters | Bezier.h:112-113 | every sample parameter i/100 lies in [0,1]; the first is 0 and the last is 1 |
| Curve.CurveVertices | Bezier.h:112-119 | the curve's line strip has NUM_LINE_STRIPS + 1 = 101 vertices |
| Curve.CurveEnds | Bezier.h:112-119 | the drawn strip starts at the first control point and ends at the last |
| Curve.CurveInCube | Bezier.h:112-119 | control points inside [-r,r]^3 give a drawn curve inside [-r,r]^3 |
| Curve.OnePointCurve | Bezier.h:112-119 | one control point is drawn as 101 copies of itself |
| Curve.ControlVertices | Bezier.h:131-136 | the control-polygon loop emits the stored points in order |
| Curve.Displacement | Bezier.h:190-192 | the direction vector from a point to its target, target minus point on each axis |
| Curve.Lerp | Bezier.h:213-217 | a point moved by t times its direction vector; `LerpEnds` states where it lands at t = 0 and t = 1 |
| Curve.LerpEnds | Bezier.h:213-217 | the interpolated point is the start at t = 0 and the target at t = 1 |
| Curve.Interpolate | Bezier.h:213-217 | the interpolated set has as many points as the current set |
| Curve.InterpolateEnds | Bezier.h:213-217 | the interpolated set is the current set at t = 0 and the target set at t = 1 |
| Curve.Directions | Bezier.h:189-193 | the `dvs` list: entry k is [dx, dy, dz] from control point k to target k; `Targets` states that its output is this list |
| Curve.Targets | Bezier.h:179-200 | the target store holds the random points, as many as the current points; `dvs[i]` is target i minus point i |
| Curve.Frame | Bezier.h:212-217 | a frame fills the scratch store with the set interpolated at t |
| Curve.ClockParameter | Bezier.h:209 | the animation parameter of a clock reading: elapsed milliseconds since the first reading over the duration in milliseconds; `ClockStartsAtZero` states it is 0 at the first reading |
| Curve.ClockStartsAtZero | Bezier.h:207-209 | the first frame has t = 0 |
| Curve.Play | Bezier.h:203-223 | frame k shows the interpolation at reading k's parameter; every frame before the last has t < 1 and the last has t >= 1 |
| Curve.Bezier.constructor | Bezier.h:75-79 | a new curve has no points and degree 0, which is not count - 1, and both flags off |
| Curve.Bezier.ShowControlLines | Bezier.h:160 | sets the control-line flag and nothing else |
| Curve.Bezier.ShowControlPoints | Bezier.h:163 | sets the control-point flag and nothing else |
| Curve.Bezier.AddPoint | Bezier.h:82-85 | appends the point; afterwards degree == count - 1 |
| Curve.Bezier.ModifyPoint | Bezier.h:88-92 | for 0 <= index < count, only slot `index` changes, on all three axes; count, range and degree are kept |
| Curve.Bezier.ModifyPointZ | Bezier.h:95-97 | only `zs[index]` changes; xs, ys, count, range and degree are kept |
| Curve.Bezier.Randomize | Bezier.h:166 | every point takes its random draws; count and degree are kept, and the points lie in [-10,10]^3 |
| Curve.Bezier.GetDegree | Bezier.h:232 | count - 1 once a point exists, and 0 for the empty curve |
| Curve.Bezier.GetControlPoints | Bezier.h:231 | returns a separate copy with the same points, count and range |
| Curve.Bezier.Draw | Bezier.h:100-157 | the curve vertices are the sampled curve; the control polygon and the sphere centres are the stored points, each only when its flag is on |
| Curve.Bezier.RandomizeAndInterpolate | Bezier.h:169-228 | the store ends holding exactly the random targets (inside [-10,10]^3), count unchanged; the first set shown is the old set, set k is the interpolation from old points to targets at reading k, and the animation stops at the first parameter reaching 1 |

## Left out

- Rendering: `glColor`, `glBegin`/`glEnd`, `glutSolidSphere` and the colour save/restore in `draw`. Draw returns the vertex and centre lists it would emit.
- The C library: `rand()` and `glutGet(GLUT_ELAPSED_TIME)` are not called. Their successive results are method inputs (`rands` with `randMax`, `clock`).
- Floating point: `float` is `real`, and libm's `pow` is a recursive power with `0^0 = 1`. Rounding, NaN and infinities are not modelled.
- Bernstein.CalcBezierAtT: `n` and `size` are `float` in the source, and `binomial` takes `float` arguments. The model uses exact integers, so the float-to-int conversion is not modelled.
- Combinatorics.Factorial: the exact factorial is used throughout. The source's 32-bit overflow for n >= 13 is modelled only by `Factorial32`/`Binomial32` (see Findings).
- Curve.Bezier.ModifyPoint: the index must be in range. The source does not check it, and an index outside the vectors is undefined behaviour. The same holds for Curve.Bezier.ModifyPointZ.
- Curve.Bezier.RandomizeAndInterpolate: the duration must be non-zero, since a zero duration gives a NaN parameter. The clock readings must reach t >= 1 before they run out. A clock that never does so would make the source loop forever.
- Curve.Bezier.Valid and Points.ControlPoints.Valid assume every change goes through the class methods. In the source, `controlPoints` (Bezier.h:73) and the `xs`/`ys`/`zs` vectors (Bezier.h:25) are public, so outside code can put the degree or the count out of step with the lists, and `draw` and `modifyPoint` can still be called in that state. The model's `requires Valid()` excludes that state.
- Curve.Play: the `draw()` call in each frame is represented by the set it would draw. `Curve.Bezier.Draw` states what that draw emits.

## Findings

| source | as written | input that shows it | evidently intended | confidence | as-written member | corrected member |
|---|---|---|---|---|---|---|
| Bezier.h:241-249 | `factorial` returns a 32-bit `int`, so 13! wraps to 1932053504, and `binomial(13, 1)` divides that by 12! | a curve of 14 control points (degree 13): `binomial(13, 1)` | 13 (the exact coefficient; the blend for 14 or more points is otherwise wrong) | high; not executed (signed overflow is undefined in C; the usual two's-complement wrap is assumed) | Combinatorics.Overflow | Combinatorics.BinomialIsPascal |
