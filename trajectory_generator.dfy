/**
 The Newton-style boundary-value solver of the model predictive trajectory
 generator: given a start configuration (the parameters p = (s, km, kf) and the
 fixed initial curvature k0) and a target pose, refine p until the simulated
 terminal pose is within tolerance of the target.

 Floating point is replaced by exact reals, and the Euclidean cost
 `np.linalg.norm(d)` by the squared norm `SumSq(d)`; `NormThreshold` and
 `NormAndSquaredCostsAgree` below show that this changes no decision the
 solver takes.
 */
module TrajectoryGenerator {
  import opened Wrappers
  import opened LinAlg
  import opened MotionModel

  // ---------------------------------------------------------------------
  // Constants of the optimiser

  /** Iteration budget of the outer loop. */
  const MaxIter: nat := 100
  /** Perturbation of (s, km, kf) for the central differences. */
  const H: Vec3 := Vec3(0.5, 0.02, 0.02)
  /** Cost threshold: the solve succeeds once the error norm is at most this. */
  const CostTh: real := 0.1

  /** An extended real, for the running minimum that starts at infinity. */
  datatype ExtReal = Finite(r: real) | Infinity

  /** `MINCOST = float('inf')`. */
  const MinCost: ExtReal := Infinity
  /** Bounds and increment of the line-search grid of step scales. */
  const MinA: real := 1.0
  const MaxA: real := 2.0
  const DA: real := 0.5

  /** `c <= bound` where the bound may be infinite. */
  predicate AtMost(c: real, bound: ExtReal) {
    bound.Infinity? || c <= bound.r
  }

  // ---------------------------------------------------------------------
  // Pose-error evaluator: calc_diff

  /**
   The error between the target pose and the LAST pose of the lists
   `xs, ys, yaws`; the heading difference goes through the angle wrap.
   */
  function CalcDiff(mm: Model, target: Pose, xs: seq<real>, ys: seq<real>, yaws: seq<real>): Vec3
    requires |xs| > 0 && |ys| > 0 && |yaws| > 0
  {
    Vec3(target.x - xs[|xs| - 1],
         target.y - ys[|ys| - 1],
         mm.wrap(target.yaw - yaws[|yaws| - 1]))
  }

  /** The error of a whole simulated trajectory. */
  function TrajectoryError(mm: Model, target: Pose, t: Trajectory): Vec3 {
    CalcDiff(mm, target, t.xs, t.ys, t.yaws)
  }

  /** The last pose of a trajectory, the `x[-1]` entries of its three lists. */
  function LastPose(t: Trajectory): Pose {
    Pose(t.xs[|t.xs| - 1], t.ys[|t.ys| - 1], t.yaws[|t.yaws| - 1])
  }

  /** The error of a single terminal pose, passed as one-element lists. */
  function PoseError(mm: Model, target: Pose, q: Pose): Vec3 {
    CalcDiff(mm, target, [q.x], [q.y], [q.yaw])
  }

  /** The error of a simulated trajectory is that of its last pose alone. */
  lemma CalcDiffUsesLastPose(mm: Model, target: Pose, xs: seq<real>, ys: seq<real>, yaws: seq<real>)
    requires |xs| > 0 && |ys| > 0 && |yaws| > 0
    ensures CalcDiff(mm, target, xs, ys, yaws)
         == PoseError(mm, target, LastPose(Track(xs, ys, yaws)))
  {
  }

  /** Whatever precedes the last pose has no influence on the error. */
  lemma CalcDiffIgnoresPrefix(mm: Model, target: Pose, xs: seq<real>, ys: seq<real>, yaws: seq<real>,
                              px: seq<real>, py: seq<real>, pyaw: seq<real>)
    requires |xs| > 0 && |ys| > 0 && |yaws| > 0
    ensures CalcDiff(mm, target, px + xs, py + ys, pyaw + yaws) == CalcDiff(mm, target, xs, ys, yaws)
  {
  }

  /**
   The error is the displacement from the last pose to the target: adding it
   back recovers the target position, and the heading differs by the wrapped
   angle.
   */
  lemma CalcDiffRecoversTarget(mm: Model, target: Pose, q: Pose)
    ensures var d := PoseError(mm, target, q);
      q.x + d.v0 == target.x && q.y + d.v1 == target.y && d.v2 == mm.wrap(target.yaw - q.yaw)
  {
  }

  /** A terminal pose equal to the target gives the zero error, given wrap(0) = 0. */
  lemma CalcDiffZeroAtTarget(mm: Model, target: Pose)
    requires mm.wrap(0.0) == 0.0
    ensures PoseError(mm, target, target) == Zero3
    ensures SumSq(PoseError(mm, target, target)) == 0.0
  {
  }

  /** If the angle wrap maps into (lo, hi], so does the heading error. */
  lemma CalcDiffYawInRange(mm: Model, target: Pose, t: Trajectory, lo: real, hi: real)
    requires forall a :: lo < mm.wrap(a) <= hi
    ensures lo < TrajectoryError(mm, target, t).v2 <= hi
  {
  }

  /**
   The Euclidean cost is within the threshold exactly when the squared norm is
   within the squared threshold, so testing `SumSq` decides as the source does.
   */
  lemma NormThreshold(norm: real, d: Vec3)
    requires norm >= 0.0 && norm * norm == SumSq(d)
    ensures norm <= CostTh <==> SumSq(d) <= CostTh * CostTh
  {
    SquareMonotone(norm, CostTh);
  }

  /** For non-negative reals, comparing squares compares the reals. */
  lemma SquareMonotone(a: real, b: real)
    requires a >= 0.0 && b >= 0.0
    ensures a <= b <==> a * a <= b * b
  {
    if a <= b {
      MulNonNeg(b - a, a + b);
      assert (b - a) * (a + b) == b * b - a * a;
    } else {
      MulPos(a - b, a + b);
      assert (a - b) * (a + b) == a * a - b * b;
    }
  }

  lemma MulNonNeg(x: real, y: real)
    requires x >= 0.0 && y >= 0.0
    ensures x * y >= 0.0
  {
  }

  lemma MulPos(x: real, y: real)
    requires x > 0.0 && y > 0.0
    ensures x * y > 0.0
  {
  }

  // ---------------------------------------------------------------------
  // Finite-difference Jacobian: clac_j

  /** The error of the terminal pose simulated from parameters `q`. */
  function TerminalError(mm: Model, target: Pose, q: Vec3, k0: real): Vec3 {
    var last := mm.lastState(q.v0, q.v1, q.v2, k0);
    PoseError(mm, target, last)
  }

  /** Component-wise division of a vector by a non-zero real. */
  function Div(u: Vec3, c: real): Vec3
    requires c != 0.0
  {
    Vec3(u.v0 / c, u.v1 / c, u.v2 / c)
  }

  /**
   The central-difference Jacobian of the terminal error with respect to
   (s, km, kf), built column by column as the source does: each parameter is
   moved by plus and minus its increment while the other two and k0 stay put.
   */
  function CalcJacobian(mm: Model, target: Pose, p: Vec3, h: Vec3, k0: real): Mat3
    requires h.v0 != 0.0 && h.v1 != 0.0 && h.v2 != 0.0
  {
    // s +/- h[0]
    var xp := mm.lastState(p.v0 + h.v0, p.v1, p.v2, k0);
    var dp := CalcDiff(mm, target, [xp.x], [xp.y], [xp.yaw]);
    var xn := mm.lastState(p.v0 - h.v0, p.v1, p.v2, k0);
    var dn := CalcDiff(mm, target, [xn.x], [xn.y], [xn.yaw]);
    var d1 := Div(Sub(dp, dn), 2.0 * h.v0);
    // km +/- h[1]
    var yp := mm.lastState(p.v0, p.v1 + h.v1, p.v2, k0);
    var ep := CalcDiff(mm, target, [yp.x], [yp.y], [yp.yaw]);
    var yn := mm.lastState(p.v0, p.v1 - h.v1, p.v2, k0);
    var en := CalcDiff(mm, target, [yn.x], [yn.y], [yn.yaw]);
    var d2 := Div(Sub(ep, en), 2.0 * h.v1);
    // kf +/- h[2]
    var zp := mm.lastState(p.v0, p.v1, p.v2 + h.v2, k0);
    var fp := CalcDiff(mm, target, [zp.x], [zp.y], [zp.yaw]);
    var zn := mm.lastState(p.v0, p.v1, p.v2 - h.v2, k0);
    var fn := CalcDiff(mm, target, [zn.x], [zn.y], [zn.yaw]);
    var d3 := Div(Sub(fp, fn), 2.0 * h.v2);
    Mat3(d1, d2, d3)
  }

  /** `p` with parameter `i` moved by `delta` and the others unchanged. */
  function Perturb(p: Vec3, i: nat, delta: real): (q: Vec3)
    requires i < 3
    ensures q.Get(i) == p.Get(i) + delta
    ensures forall j :: 0 <= j < 3 && j != i ==> q.Get(j) == p.Get(j)
  {
    p.Set(i, p.Get(i) + delta)
  }

  /** The textbook central difference along parameter `i`, written by index. */
  function CentralDifference(mm: Model, target: Pose, p: Vec3, h: Vec3, k0: real, i: nat): Vec3
    requires i < 3 && h.Get(i) != 0.0
  {
    Div(Sub(TerminalError(mm, target, Perturb(p, i, h.Get(i)), k0),
            TerminalError(mm, target, Perturb(p, i, -h.Get(i)), k0)),
        2.0 * h.Get(i))
  }

  /**
   Column `i` of the Jacobian, in the order s, km, kf, is the central
   difference along parameter `i`.
   */
  lemma JacobianColumns(mm: Model, target: Pose, p: Vec3, h: Vec3, k0: real)
    requires h.v0 != 0.0 && h.v1 != 0.0 && h.v2 != 0.0
    ensures forall i :: 0 <= i < 3 ==>
      CalcJacobian(mm, target, p, h, k0).Col(i) == CentralDifference(mm, target, p, h, k0, i)
  {
  }

  // ---------------------------------------------------------------------
  // Bounded line search: selection_learning_params

  /** ceil(x). */
  function Ceil(x: real): (n: int)
    ensures n as real >= x && (n - 1) as real < x
  {
    -((-x).Floor)
  }

  /** `np.arange(start, stop, step)` over exact reals: start, start + step, ... below stop. */
  function Arange(start: real, stop: real, step: real): seq<real>
    requires step > 0.0
  {
    var n: nat := if stop <= start then 0 else Ceil((stop - start) / step);
    seq(n, i => start + (i as real) * step)
  }

  /**
   Arange lists exactly the points start + i*step that lie in [start, stop):
   every listed point is below `stop`, and the first point it leaves out is not.
   */
  lemma ArangeExact(start: real, stop: real, step: real)
    requires step > 0.0
    ensures var r := Arange(start, stop, step);
      (forall i :: 0 <= i < |r| ==> r[i] == start + (i as real) * step && start <= r[i] < stop) &&
      start + (|r| as real) * step >= stop
  {
    var r := Arange(start, stop, step);
    if stop > start {
      var q := (stop - start) / step;
      forall i | 0 <= i < |r| ensures start <= r[i] < stop {
        assert (i as real) < q;
        PointBelowStop(start, stop, step, i as real);
      }
      assert |r| == Ceil(q);
      PointAtOrAboveStop(start, stop, step, |r| as real);
    }
  }

  /** A grid point start + i*step with 0 <= i < (stop - start)/step lies in [start, stop). */
  lemma PointBelowStop(start: real, stop: real, step: real, i: real)
    requires step > 0.0 && 0.0 <= i < (stop - start) / step
    ensures start <= start + i * step < stop
  {
    var q := (stop - start) / step;
    assert q * step == stop - start;
    assert i * step < q * step;
    assert 0.0 <= i * step;
  }

  /** A grid point start + n*step with n >= (stop - start)/step is not below stop. */
  lemma PointAtOrAboveStop(start: real, stop: real, step: real, n: real)
    requires step > 0.0 && n >= (stop - start) / step
    ensures start + n * step >= stop
  {
    var q := (stop - start) / step;
    assert q * step == stop - start;
    assert n * step >= q * step;
  }

  /**
   The grid of trial step scales: the value of `np.arange(MINA, MAXA, DA)`,
   as `GridIsArange` proves.
   */
  function Grid(): seq<real> {
    [1.0, 1.5]
  }

  /** `np.arange(MINA, MAXA, DA)` is exactly [1.0, 1.5]: the upper bound 2.0 is excluded. */
  lemma GridIsArange()
    ensures Arange(MinA, MaxA, DA) == Grid()
  {
    assert Ceil((MaxA - MinA) / DA) == 2;
  }

  /** The cost of trying step scale `a` along direction `dp` from `p`. */
  function TrialCost(mm: Model, target: Pose, k0: real, p: Vec3, dp: Vec3, a: real): real {
    SumSq(TerminalError(mm, target, Add(p, Scale(a, dp)), k0))
  }

  /**
   The scan of the source's loop over the trial scales `acc`: `mincost` and
   `mina` are the running minimum and its scale; a trial replaces them when its
   cost is at most the running minimum and its scale is not zero.
   */
  function LineSearch(f: real -> real, acc: seq<real>, mincost: ExtReal, mina: real): real
    decreases |acc|
  {
    if acc == [] then mina
    else if AtMost(f(acc[0]), mincost) && acc[0] != 0.0 then
      LineSearch(f, acc[1..], Finite(f(acc[0])), acc[0])
    else
      LineSearch(f, acc[1..], mincost, mina)
  }

  /** The step scale the source's line search picks from `p` along `dp`. */
  function SelectedScale(mm: Model, target: Pose, k0: real, p: Vec3, dp: Vec3): real {
    LineSearch(a => TrialCost(mm, target, k0, p, dp, a), Grid(), MinCost, MinA)
  }

  /**
   Whatever the trial scales, the result is the default or a non-zero trial:
   the `a != 0.0` guard keeps zero out.
   */
  lemma {:induction false} LineSearchChoice(f: real -> real, acc: seq<real>, mincost: ExtReal, mina: real)
    ensures var r := LineSearch(f, acc, mincost, mina);
      r == mina || (r in acc && r != 0.0)
  {
    if acc != [] {
      if AtMost(f(acc[0]), mincost) && acc[0] != 0.0 {
        LineSearchChoice(f, acc[1..], Finite(f(acc[0])), acc[0]);
      } else {
        LineSearchChoice(f, acc[1..], mincost, mina);
      }
    }
  }

  /** Strictly increasing, as `np.arange` with a positive step is. */
  ghost predicate Increasing(acc: seq<real>) {
    forall i, j :: 0 <= i < j < |acc| ==> acc[i] < acc[j]
  }

  /**
   What the scan over `acc` from bound `mincost` and default `mina` promises
   about its result `r`: either the default, with every trial failing the
   bound, or a trial within the bound whose cost is minimal over `acc`, every
   larger scale costing strictly more (ties go to the last, largest scale,
   because of `<=`).
   */
  ghost predicate BestChoice(f: real -> real, acc: seq<real>, mincost: ExtReal, mina: real, r: real) {
    (r == mina && forall a :: a in acc ==> !AtMost(f(a), mincost)) ||
    (r in acc && AtMost(f(r), mincost) &&
     (forall a :: a in acc ==> f(r) <= f(a)) &&
     (forall a :: a in acc && a > r ==> f(r) < f(a)))
  }

  /** Over an increasing grid of non-zero scales, the scan makes the best choice. */
  lemma {:induction false} LineSearchBest(f: real -> real, acc: seq<real>, mincost: ExtReal, mina: real)
    requires Increasing(acc)
    requires forall a :: a in acc ==> a != 0.0
    ensures BestChoice(f, acc, mincost, mina, LineSearch(f, acc, mincost, mina))
  {
    if acc != [] {
      var a0, rest := acc[0], acc[1..];
      assert a0 in acc && a0 != 0.0;
      assert acc == [a0] + rest;
      IncreasingTail(acc);
      if AtMost(f(a0), mincost) {
        LineSearchBest(f, rest, Finite(f(a0)), a0);
        BestAfterAccept(f, a0, rest, mincost, mina, LineSearch(f, rest, Finite(f(a0)), a0));
      } else {
        LineSearchBest(f, rest, mincost, mina);
        BestAfterReject(f, a0, rest, mincost, mina, LineSearch(f, rest, mincost, mina));
      }
    }
  }

  /** The tail of an increasing grid is increasing and lies above its head. */
  lemma IncreasingTail(acc: seq<real>)
    requires Increasing(acc) && acc != []
    ensures Increasing(acc[1..])
    ensures forall a :: a in acc[1..] ==> acc[0] < a && a in acc
  {
    var rest := acc[1..];
    forall a | a in rest ensures acc[0] < a {
      var k :| 0 <= k < |rest| && rest[k] == a;
      assert acc[k + 1] == a;
    }
    forall i, j | 0 <= i < j < |rest| ensures rest[i] < rest[j] {
      assert rest[i] == acc[i + 1] && rest[j] == acc[j + 1];
    }
  }

  /** The step of the induction where the head trial `a0` is accepted. */
  lemma BestAfterAccept(f: real -> real, a0: real, rest: seq<real>, mincost: ExtReal, mina: real, r: real)
    requires AtMost(f(a0), mincost)
    requires forall a :: a in rest ==> a0 < a
    requires BestChoice(f, rest, Finite(f(a0)), a0, r)
    ensures BestChoice(f, [a0] + rest, mincost, mina, r)
  {
    var acc := [a0] + rest;
    assert forall a :: a in acc <==> a == a0 || a in rest;
    if r == a0 && forall a :: a in rest ==> !AtMost(f(a), Finite(f(a0))) {
      assert forall a :: a in rest ==> f(a0) < f(a);
    } else {
      assert r in rest && f(r) <= f(a0);
      assert forall a :: a in acc && a > r ==> a in rest;
    }
  }

  /** The step of the induction where the head trial `a0` is rejected. */
  lemma BestAfterReject(f: real -> real, a0: real, rest: seq<real>, mincost: ExtReal, mina: real, r: real)
    requires !AtMost(f(a0), mincost)
    requires forall a :: a in rest ==> a0 < a
    requires BestChoice(f, rest, mincost, mina, r)
    ensures BestChoice(f, [a0] + rest, mincost, mina, r)
  {
    var acc := [a0] + rest;
    assert forall a :: a in acc <==> a == a0 || a in rest;
    if !(r == mina && forall a :: a in rest ==> !AtMost(f(a), mincost)) {
      assert r in rest && AtMost(f(r), mincost);
      assert f(r) < f(a0);
      assert forall a :: a in acc && a > r ==> a in rest;
    }
  }

  /**
   The line search of the solver: its grid is {1.0, 1.5}, the first trial is
   always accepted because the running minimum starts at infinity, the scale
   it returns is never zero and has minimal trial cost over the grid, and of
   two scales with that cost it returns the larger.
   */
  lemma SelectedScaleProperties(mm: Model, target: Pose, k0: real, p: Vec3, dp: Vec3)
    ensures var r := SelectedScale(mm, target, k0, p, dp);
      var cost := a => TrialCost(mm, target, k0, p, dp, a);
      (r == 1.0 || r == 1.5) && r != 0.0 &&
      cost(r) <= cost(1.0) && cost(r) <= cost(1.5) &&
      (r == 1.0 ==> cost(1.0) < cost(1.5))
  {
    var f := a => TrialCost(mm, target, k0, p, dp, a);
    LineSearchBest(f, [1.0, 1.5], MinCost, MinA);
  }

  /**
   The line search picks the full step 1.0 exactly when it is strictly
   cheaper than the step 1.5; on a tie the `<=` moves on to 1.5.
   */
  lemma UnitStepSelected(mm: Model, target: Pose, k0: real, p: Vec3, dp: Vec3)
    ensures SelectedScale(mm, target, k0, p, dp) == 1.0
        <==> TrialCost(mm, target, k0, p, dp, 1.0) < TrialCost(mm, target, k0, p, dp, 1.5)
  {
    SelectedScaleProperties(mm, target, k0, p, dp);
  }

  /**
   Comparing norms or squared norms makes the scan take the same decisions:
   with costs `g` and their squares `f`, the scale picked is the same.
   */
  lemma {:induction false} NormAndSquaredCostsAgree(f: real -> real, g: real -> real, acc: seq<real>,
                                                    mincostSq: ExtReal, mincost: ExtReal, mina: real)
    requires forall a :: g(a) >= 0.0 && f(a) == g(a) * g(a)
    requires mincost.Infinity? <==> mincostSq.Infinity?
    requires mincost.Finite? ==> mincost.r >= 0.0 && mincostSq.r == mincost.r * mincost.r
    ensures LineSearch(f, acc, mincostSq, mina) == LineSearch(g, acc, mincost, mina)
  {
    if acc != [] {
      var a0 := acc[0];
      if mincost.Finite? {
        SquareMonotone(g(a0), mincost.r);
      }
      assert AtMost(f(a0), mincostSq) <==> AtMost(g(a0), mincost);
      if AtMost(g(a0), mincost) && a0 != 0.0 {
        NormAndSquaredCostsAgree(f, g, acc[1..], Finite(f(a0)), Finite(g(a0)), a0);
      } else {
        NormAndSquaredCostsAgree(f, g, acc[1..], mincostSq, mincost, mina);
      }
    }
  }

  /**
   `selection_learning_params`: loops over the grid of trial scales keeping
   the running minimum, and returns the chosen scale.
   */
  method SelectionLearningParams(mm: Model, dp: Vec3, p: Vec3, k0: real, target: Pose) returns (alpha: real)
    ensures alpha == SelectedScale(mm, target, k0, p, dp)
    ensures alpha == 1.0 || alpha == 1.5
    ensures TrialCost(mm, target, k0, p, dp, alpha) <= TrialCost(mm, target, k0, p, dp, 1.0)
    ensures TrialCost(mm, target, k0, p, dp, alpha) <= TrialCost(mm, target, k0, p, dp, 1.5)
  {
    ghost var f := a => TrialCost(mm, target, k0, p, dp, a);
    var mincost := MinCost;
    var mina := MinA;
    var maxa := MaxA;
    var da := DA;
    var accSpace := Arange(mina, maxa, da);
    GridIsArange();
    assert accSpace[0..] == accSpace;
    for i := 0 to |accSpace|
      invariant LineSearch(f, accSpace[i..], mincost, mina) == LineSearch(f, Grid(), MinCost, MinA)
    {
      var a := accSpace[i];
      var tp := Add(p, Scale(a, dp));
      var last := mm.lastState(tp.v0, tp.v1, tp.v2, k0);
      var dc := CalcDiff(mm, target, [last.x], [last.y], [last.yaw]);
      var cost := SumSq(dc);
      assert accSpace[i..][1..] == accSpace[i + 1..];
      if AtMost(cost, mincost) && a != 0.0 {
        mina := a;
        mincost := Finite(cost);
      }
    }
    alpha := mina;
    SelectedScaleProperties(mm, target, k0, p, dp);
  }

  // ---------------------------------------------------------------------
  // Newton solver: optimization_trajectory

  /** What one outer iteration from parameters `p` does. */
  datatype Step = Done(traj: Trajectory) | Singular | Next(p: Vec3)

  /** The squared cost of the full trajectory simulated from `p`. */
  function CostAt(mm: Model, target: Pose, k0: real, p: Vec3): real {
    SumSq(TrajectoryError(mm, target, mm.trajectory(p.v0, p.v1, p.v2, k0)))
  }

  /**
   The Newton direction dp = -J^-1 * dc at `p`, or `None` when the inverse
   (`np.linalg.inv`) rejects the Jacobian.
   */
  function Direction(mm: Model, inverse: Mat3 -> Option<Mat3>, target: Pose, k0: real, p: Vec3): (r: Option<Vec3>)
    ensures r.None? <==> inverse(CalcJacobian(mm, target, p, H, k0)).None?
  {
    match inverse(CalcJacobian(mm, target, p, H, k0))
    case None => None
    case Some(jinv) => Some(Neg(MatVec(jinv, TrajectoryError(mm, target, mm.trajectory(p.v0, p.v1, p.v2, k0)))))
  }

  /**
   One outer iteration: simulate, stop if the cost is within the threshold,
   otherwise stop if the Jacobian has no inverse, otherwise move p along the
   Newton direction by the scale the line search picks.
   */
  function Iterate(mm: Model, inverse: Mat3 -> Option<Mat3>, target: Pose, k0: real, p: Vec3): Step {
    if CostAt(mm, target, k0, p) <= CostTh * CostTh then Done(mm.trajectory(p.v0, p.v1, p.v2, k0))
    else
      match Direction(mm, inverse, target, k0, p)
      case None => Singular
      case Some(dp) => Next(Add(p, Scale(SelectedScale(mm, target, k0, p, dp), dp)))
  }

  /** The step function of the solver: one outer iteration from any parameters. */
  function SolverStep(mm: Model, inverse: Mat3 -> Option<Mat3>, target: Pose, k0: real): Vec3 -> Step {
    q => Iterate(mm, inverse, target, k0, q)
  }

  /**
   What one iteration does, stated without the line search's scan: it stops
   with the current trajectory exactly when the cost is within the threshold;
   it stops as singular exactly when the cost is above it and the inverse
   rejects the Jacobian; otherwise it moves p along dp = -J^-1 * dc, by 1.0
   when that trial is strictly cheaper than 1.5 and by 1.5 otherwise.
   */
  lemma IterateCases(mm: Model, inverse: Mat3 -> Option<Mat3>, target: Pose, k0: real, p: Vec3)
    ensures var r := Iterate(mm, inverse, target, k0, p);
      var above := CostAt(mm, target, k0, p) > CostTh * CostTh;
      var jinv := inverse(CalcJacobian(mm, target, p, H, k0));
      (r.Done? <==> !above) &&
      (r.Done? ==> r.traj == mm.trajectory(p.v0, p.v1, p.v2, k0)) &&
      (r.Singular? <==> above && jinv.None?) &&
      (r.Next? <==> above && jinv.Some?) &&
      (r.Next? ==>
        var dp := Neg(MatVec(jinv.value, TrajectoryError(mm, target, mm.trajectory(p.v0, p.v1, p.v2, k0))));
        var a := if TrialCost(mm, target, k0, p, dp, 1.0) < TrialCost(mm, target, k0, p, dp, 1.5) then 1.0 else 1.5;
        r.p == Add(p, Scale(a, dp)))
  {
    var jinv := inverse(CalcJacobian(mm, target, p, H, k0));
    if CostAt(mm, target, k0, p) > CostTh * CostTh && jinv.Some? {
      var dp := Neg(MatVec(jinv.value, TrajectoryError(mm, target, mm.trajectory(p.v0, p.v1, p.v2, k0))));
      SelectedScaleProperties(mm, target, k0, p, dp);
      UnitStepSelected(mm, target, k0, p, dp);
    }
  }

  /**
   How a solve ends, with the parameters the caller's array holds at that
   point and the number of outer iterations begun. The source returns all
   `None` for both failures; `SourceResult` collapses them.
   */
  datatype Outcome =
    | Converged(traj: Trajectory, p: Vec3, iters: nat)
    | SingularJacobian(p: Vec3, iters: nat)
    | MaxIterations(p: Vec3, iters: nat)

  /**
   The bounded outer loop from iteration `i` on, with parameters `p`, for any
   step function; `Solve` instantiates it with `SolverStep`.
   */
  function SolveFrom(step: Vec3 -> Step, p: Vec3, i: nat): Outcome
    requires i <= MaxIter
    decreases MaxIter - i
  {
    if i == MaxIter then MaxIterations(p, i)
    else
      match step(p)
      case Done(traj) => Converged(traj, p, i + 1)
      case Singular => SingularJacobian(p, i + 1)
      case Next(q) => SolveFrom(step, q, i + 1)
  }

  /** The whole solve from the initial guess `p`. */
  function Solve(mm: Model, inverse: Mat3 -> Option<Mat3>, target: Pose, k0: real, p: Vec3): Outcome {
    SolveFrom(SolverStep(mm, inverse, target, k0), p, 0)
  }

  /** What `optimization_trajectory` returns: the trajectory and p, or all `None`. */
  function SourceResult(o: Outcome): Option<(Trajectory, Vec3)> {
    if o.Converged? then Some((o.traj, o.p)) else None
  }

  /**
   What the source hands back: a trajectory and parameters where the
   parameters generated that trajectory and its cost is within the threshold,
   or all `None`, exactly when the solve failed either way.
   */
  lemma SolveResult(mm: Model, inverse: Mat3 -> Option<Mat3>, target: Pose, k0: real, p: Vec3)
    ensures var o := Solve(mm, inverse, target, k0, p);
      var r := SourceResult(o);
      (r.None? <==> o.SingularJacobian? || o.MaxIterations?) &&
      (r.Some? ==>
        r.value.0 == mm.trajectory(r.value.1.v0, r.value.1.v1, r.value.1.v2, k0) &&
        SumSq(TrajectoryError(mm, target, r.value.0)) <= CostTh * CostTh)
  {
    ConvergedIsSound(mm, inverse, target, k0, p);
  }

  /** If no parameters meet the threshold, the source returns all `None`, whatever the inverse. */
  lemma NeverWithinThresholdReturnsNone(mm: Model, inverse: Mat3 -> Option<Mat3>, target: Pose, k0: real, p: Vec3)
    requires forall q: Vec3 :: CostAt(mm, target, k0, q) > CostTh * CostTh
    ensures SourceResult(Solve(mm, inverse, target, k0, p)) == None
  {
    ConvergedIsSound(mm, inverse, target, k0, p);
    var o := Solve(mm, inverse, target, k0, p);
    // naming CostAt at o.p instantiates the requires there, which rules out Converged
    var c := CostAt(mm, target, k0, o.p);
  }

  /** The parameter vectors the loop passes through, from `p` to the last one. */
  function Iterates(step: Vec3 -> Step, p: Vec3, i: nat): seq<Vec3>
    requires i <= MaxIter
    decreases MaxIter - i
  {
    if i == MaxIter then [p]
    else
      match step(p)
      case Next(q) => [p] + Iterates(step, q, i + 1)
      case _ => [p]
  }

  /**
   The loop always ends, after at most MaxIter iterations: exhaustion means
   exactly MaxIter iterations, and the other two outcomes stop during an
   iteration that was begun.
   */
  lemma {:induction false} SolveIterations(step: Vec3 -> Step, p: Vec3, i: nat)
    requires i <= MaxIter
    ensures var o := SolveFrom(step, p, i);
      i <= o.iters <= MaxIter &&
      (o.MaxIterations? ==> o.iters == MaxIter) &&
      (!o.MaxIterations? ==> i < o.iters)
    decreases MaxIter - i
  {
    if i < MaxIter && step(p).Next? {
      SolveIterations(step, step(p).p, i + 1);
    }
  }

  /** Before the iteration budget is spent, the step at `p` decides what iteration `i` does. */
  lemma StepDecides(step: Vec3 -> Step, p: Vec3, i: nat)
    requires i < MaxIter
    ensures step(p).Done? ==> SolveFrom(step, p, i) == Converged(step(p).traj, p, i + 1)
    ensures step(p).Singular? ==> SolveFrom(step, p, i) == SingularJacobian(p, i + 1)
    ensures step(p).Next? ==> SolveFrom(step, p, i) == SolveFrom(step, step(p).p, i + 1)
  {
  }

  /**
   The loop stops with success or a singular Jacobian only where the step from
   the returned parameters says so: no update follows the stopping test.
   */
  lemma {:induction false} StopsWhereStepStops(step: Vec3 -> Step, p: Vec3, i: nat)
    requires i <= MaxIter
    ensures var o := SolveFrom(step, p, i);
      (o.Converged? ==> step(o.p) == Done(o.traj)) &&
      (o.SingularJacobian? ==> step(o.p) == Singular)
    decreases MaxIter - i
  {
    if i < MaxIter && step(p).Next? {
      StopsWhereStepStops(step, step(p).p, i + 1);
    }
  }

  /**
   The run as a chain of iterates: it starts at `p`, ends at the outcome's
   parameters, each iterate but the last steps to the next, and on exhaustion
   there is one iterate per iteration plus the final one.
   */
  lemma {:induction false} IteratesChain(step: Vec3 -> Step, p: Vec3, i: nat)
    requires i <= MaxIter
    ensures var o := SolveFrom(step, p, i);
      var v := Iterates(step, p, i);
      |v| > 0 && v[0] == p && v[|v| - 1] == o.p &&
      (forall k :: 0 <= k < |v| - 1 ==> step(v[k]) == Next(v[k + 1])) &&
      (o.MaxIterations? ==> |v| == MaxIter - i + 1) &&
      (!o.MaxIterations? ==> |v| == o.iters - i)
    decreases MaxIter - i
  {
    if i < MaxIter && step(p).Next? {
      var q := step(p).p;
      IteratesChain(step, q, i + 1);
      var rest := Iterates(step, q, i + 1);
      var v := Iterates(step, p, i);
      assert v == [p] + rest;
      forall k | 0 <= k < |v| - 1
        ensures step(v[k]) == Next(v[k + 1])
      {
        if k > 0 {
          assert v[k] == rest[k - 1] && v[k + 1] == rest[k];
        }
      }
    }
  }

  /** If every step updates the parameters, the loop runs out after exactly MaxIter iterations. */
  lemma {:induction false} AlwaysNextExhausts(step: Vec3 -> Step, p: Vec3, i: nat)
    requires i <= MaxIter
    requires forall q :: step(q).Next?
    ensures var o := SolveFrom(step, p, i);
      o.MaxIterations? && o.iters == MaxIter
    decreases MaxIter - i
  {
    if i < MaxIter {
      AlwaysNextExhausts(step, step(p).p, i + 1);
    }
  }

  /**
   On success the returned parameters are the ones that generated the returned
   trajectory, and its cost is within the threshold.
   */
  lemma ConvergedIsSound(mm: Model, inverse: Mat3 -> Option<Mat3>, target: Pose, k0: real, p: Vec3)
    ensures var o := Solve(mm, inverse, target, k0, p);
      o.Converged? ==>
        o.traj == mm.trajectory(o.p.v0, o.p.v1, o.p.v2, k0) &&
        SumSq(TrajectoryError(mm, target, o.traj)) <= CostTh * CostTh
  {
    var step := SolverStep(mm, inverse, target, k0);
    StopsWhereStepStops(step, p, 0);
    var o := Solve(mm, inverse, target, k0, p);
    if o.Converged? {
      assert step(o.p) == Iterate(mm, inverse, target, k0, o.p);
      IterateCases(mm, inverse, target, k0, o.p);
    }
  }

  /**
   A singular-Jacobian failure happens at parameters whose cost is above the
   threshold and whose Jacobian the inverse rejects.
   */
  lemma SingularIsSound(mm: Model, inverse: Mat3 -> Option<Mat3>, target: Pose, k0: real, p: Vec3)
    ensures var o := Solve(mm, inverse, target, k0, p);
      o.SingularJacobian? ==>
        CostAt(mm, target, k0, o.p) > CostTh * CostTh &&
        inverse(CalcJacobian(mm, target, o.p, H, k0)).None?
  {
    var step := SolverStep(mm, inverse, target, k0);
    StopsWhereStepStops(step, p, 0);
    var o := Solve(mm, inverse, target, k0, p);
    if o.SingularJacobian? {
      assert step(o.p) == Iterate(mm, inverse, target, k0, o.p);
      IterateCases(mm, inverse, target, k0, o.p);
    }
  }

  /**
   Conversely, parameters above the threshold whose Jacobian the inverse
   rejects end the solve in its first iteration.
   */
  lemma FailsAtOnce(mm: Model, inverse: Mat3 -> Option<Mat3>, target: Pose, k0: real, p: Vec3)
    requires CostAt(mm, target, k0, p) > CostTh * CostTh
    requires inverse(CalcJacobian(mm, target, p, H, k0)).None?
    ensures Solve(mm, inverse, target, k0, p) == SingularJacobian(p, 1)
  {
    var step := SolverStep(mm, inverse, target, k0);
    assert step(p) == Iterate(mm, inverse, target, k0, p);
    StepDecides(step, p, 0);
  }

  /**
   Above the threshold with an invertible Jacobian, if the full Newton step
   has a strictly lower trial cost than the longer one, the iteration takes
   the full step.
   */
  lemma FullNewtonStep(mm: Model, inverse: Mat3 -> Option<Mat3>, target: Pose, k0: real, p: Vec3, dp: Vec3)
    requires CostAt(mm, target, k0, p) > CostTh * CostTh
    requires inverse(CalcJacobian(mm, target, p, H, k0)).Some?
    requires dp == Neg(MatVec(inverse(CalcJacobian(mm, target, p, H, k0)).value,
                              TrajectoryError(mm, target, mm.trajectory(p.v0, p.v1, p.v2, k0))))
    requires TrialCost(mm, target, k0, p, dp, 1.0) < TrialCost(mm, target, k0, p, dp, 1.5)
    ensures SolverStep(mm, inverse, target, k0)(p) == Next(Add(p, Scale(1.0, dp)))
  {
    UnitStepSelected(mm, target, k0, p, dp);
    StepNext(mm, inverse, target, k0, p, dp, 1.0);
  }

  /**
   If from parameters above the threshold, with an invertible Jacobian, the
   full Newton step is strictly cheaper than the longer one and reaches the
   threshold, the solve converges in its second iteration at the full step.
   */
  lemma ExactNewtonStepConverges(mm: Model, inverse: Mat3 -> Option<Mat3>, target: Pose, k0: real, p: Vec3)
    requires CostAt(mm, target, k0, p) > CostTh * CostTh
    requires var jinv := inverse(CalcJacobian(mm, target, p, H, k0));
      jinv.Some? &&
      var dp := Neg(MatVec(jinv.value, TrajectoryError(mm, target, mm.trajectory(p.v0, p.v1, p.v2, k0))));
      TrialCost(mm, target, k0, p, dp, 1.0) < TrialCost(mm, target, k0, p, dp, 1.5) &&
      CostAt(mm, target, k0, Add(p, Scale(1.0, dp))) <= CostTh * CostTh
    ensures var jinv := inverse(CalcJacobian(mm, target, p, H, k0)).value;
      var dp := Neg(MatVec(jinv, TrajectoryError(mm, target, mm.trajectory(p.v0, p.v1, p.v2, k0))));
      var q := Add(p, Scale(1.0, dp));
      Solve(mm, inverse, target, k0, p) == Converged(mm.trajectory(q.v0, q.v1, q.v2, k0), q, 2)
  {
    var jinv := inverse(CalcJacobian(mm, target, p, H, k0)).value;
    var dp := Neg(MatVec(jinv, TrajectoryError(mm, target, mm.trajectory(p.v0, p.v1, p.v2, k0))));
    var q := Add(p, Scale(1.0, dp));
    var step := SolverStep(mm, inverse, target, k0);
    FullNewtonStep(mm, inverse, target, k0, p, dp);
    StepDecides(step, p, 0);
    StepDone(mm, inverse, target, k0, q);
    StepDecides(step, q, 1);
  }

  /**
   Every iterate of a solve but the last failed the threshold test, had an
   invertible Jacobian, and is followed by the Newton update p + a*dp with a
   scale a from {1.0, 1.5} of minimal trial cost.
   */
  lemma SolveUpdates(mm: Model, inverse: Mat3 -> Option<Mat3>, target: Pose, k0: real, p: Vec3, k: nat)
    requires k < |Iterates(SolverStep(mm, inverse, target, k0), p, 0)| - 1
    ensures var v := Iterates(SolverStep(mm, inverse, target, k0), p, 0);
      var dir := Direction(mm, inverse, target, k0, v[k]);
      CostAt(mm, target, k0, v[k]) > CostTh * CostTh && dir.Some? &&
      var a := SelectedScale(mm, target, k0, v[k], dir.value);
      (a == 1.0 || a == 1.5) &&
      TrialCost(mm, target, k0, v[k], dir.value, a) <= TrialCost(mm, target, k0, v[k], dir.value, 1.0) &&
      TrialCost(mm, target, k0, v[k], dir.value, a) <= TrialCost(mm, target, k0, v[k], dir.value, 1.5) &&
      v[k + 1] == Add(v[k], Scale(a, dir.value))
  {
    var step := SolverStep(mm, inverse, target, k0);
    IteratesChain(step, p, 0);
    var v := Iterates(step, p, 0);
    assert step(v[k]) == Iterate(mm, inverse, target, k0, v[k]);
    assert step(v[k]) == Next(v[k + 1]);
    SelectedScaleProperties(mm, target, k0, v[k], Direction(mm, inverse, target, k0, v[k]).value);
  }

  /**
   If no parameters ever meet the threshold and the Jacobian the solver
   builds at any parameters can be inverted, the solve reports exhaustion
   after exactly MaxIter iterations, and the source returns all `None`.
   */
  lemma NeverConvergingModelExhausts(mm: Model, inverse: Mat3 -> Option<Mat3>, target: Pose, k0: real, p: Vec3)
    requires forall q: Vec3 :: CostAt(mm, target, k0, q) > CostTh * CostTh
    requires forall q: Vec3 :: inverse(CalcJacobian(mm, target, q, H, k0)).Some?
    ensures var o := Solve(mm, inverse, target, k0, p);
      o.MaxIterations? && o.iters == MaxIter && SourceResult(o) == None
  {
    var step := SolverStep(mm, inverse, target, k0);
    forall q ensures step(q).Next? {
      assert step(q) == Iterate(mm, inverse, target, k0, q);
      assert CostAt(mm, target, k0, q) > CostTh * CostTh;
      assert Direction(mm, inverse, target, k0, q).Some?;
    }
    AlwaysNextExhausts(step, p, 0);
  }

  /** The solution handed back on success: the trajectory and the caller's own array. */
  datatype Solution = Solution(traj: Trajectory, p: array<real>)

  function ToVec(s: seq<real>): Vec3
    requires |s| == 3
  {
    Vec3(s[0], s[1], s[2])
  }

  /**
   `optimization_trajectory`: the outer loop. It updates the caller's
   parameter array in place; on success it returns the trajectory together
   with that same array, on either failure it returns `None` and the array
   holds the last iterate.
   */
  method OptimizationTrajectory(mm: Model, inverse: Mat3 -> Option<Mat3>, target: Pose, k0: real, p: array<real>)
    returns (res: Option<Solution>)
    requires p.Length == 3
    modifies p
    ensures var o := Solve(mm, inverse, target, k0, ToVec(old(p[..])));
      ToVec(p[..]) == o.p &&
      (res.Some? <==> o.Converged?) &&
      (res.Some? ==> res.value.traj == o.traj && res.value.p == p)
  {
    ghost var step := SolverStep(mm, inverse, target, k0);
    ghost var goal := Solve(mm, inverse, target, k0, ToVec(p[..]));
    for i := 0 to MaxIter
      invariant SolveFrom(step, ToVec(p[..]), i) == goal
    {
      var q := Vec3(p[0], p[1], p[2]);
      assert q == ToVec(p[..]);
      var s := OuterIteration(mm, inverse, target, k0, q);
      assert q == ToVec(p[..]) && s == step(q);
      LoopAdvance(step, q, i, s, goal);
      match s
      case Done(traj) =>
        return Some(Solution(traj, p));
      case Singular =>
        return None;
      case Next(next) =>
        // p += alpha * dp, in place
        p[0], p[1], p[2] := next.v0, next.v1, next.v2;
        assert ToVec(p[..]) == next;
    }
    return None;
  }

  /** How one pass of the outer loop moves the solve forward. */
  lemma LoopAdvance(step: Vec3 -> Step, q: Vec3, i: nat, s: Step, goal: Outcome)
    requires i < MaxIter && s == step(q) && SolveFrom(step, q, i) == goal
    ensures s.Done? ==> goal == Converged(s.traj, q, i + 1)
    ensures s.Singular? ==> goal == SingularJacobian(q, i + 1)
    ensures s.Next? ==> SolveFrom(step, s.p, i + 1) == goal
  {
    StepDecides(step, q, i);
  }

  /**
   The body of the outer loop from parameters `q`: simulate and measure the
   cost, stop within the threshold, build and invert the Jacobian, stop if
   the inverse is rejected, else pick the scale and move.
   */
  method OuterIteration(mm: Model, inverse: Mat3 -> Option<Mat3>, target: Pose, k0: real, q: Vec3)
    returns (s: Step)
    ensures s == SolverStep(mm, inverse, target, k0)(q)
  {
    var traj := mm.trajectory(q.v0, q.v1, q.v2, k0);
    var dc := CalcDiff(mm, target, traj.xs, traj.ys, traj.yaws);
    var cost := SumSq(dc);
    if cost <= CostTh * CostTh {
      StepDone(mm, inverse, target, k0, q);
      return Done(traj);
    }
    var j := CalcJacobian(mm, target, q, H, k0);
    var jinv := inverse(j);
    if jinv.None? {
      StepSingular(mm, inverse, target, k0, q);
      return Singular;
    }
    var dp := Neg(MatVec(jinv.value, dc));
    var alpha := SelectionLearningParams(mm, dp, q, k0, target);
    StepNext(mm, inverse, target, k0, q, dp, alpha);
    return Next(Add(q, Scale(alpha, dp)));
  }

  /** The solver's step at parameters within the threshold. */
  lemma StepDone(mm: Model, inverse: Mat3 -> Option<Mat3>, target: Pose, k0: real, q: Vec3)
    requires CostAt(mm, target, k0, q) <= CostTh * CostTh
    ensures SolverStep(mm, inverse, target, k0)(q) == Done(mm.trajectory(q.v0, q.v1, q.v2, k0))
  {
    assert SolverStep(mm, inverse, target, k0)(q) == Iterate(mm, inverse, target, k0, q);
  }

  /** The solver's step at parameters above the threshold with a rejected Jacobian. */
  lemma StepSingular(mm: Model, inverse: Mat3 -> Option<Mat3>, target: Pose, k0: real, q: Vec3)
    requires CostAt(mm, target, k0, q) > CostTh * CostTh
    requires inverse(CalcJacobian(mm, target, q, H, k0)).None?
    ensures SolverStep(mm, inverse, target, k0)(q) == Singular
  {
    assert SolverStep(mm, inverse, target, k0)(q) == Iterate(mm, inverse, target, k0, q);
  }

  /** The solver's step at parameters above the threshold with an invertible Jacobian. */
  lemma StepNext(mm: Model, inverse: Mat3 -> Option<Mat3>, target: Pose, k0: real, q: Vec3, dp: Vec3, alpha: real)
    requires CostAt(mm, target, k0, q) > CostTh * CostTh
    requires inverse(CalcJacobian(mm, target, q, H, k0)).Some?
    requires dp == Neg(MatVec(inverse(CalcJacobian(mm, target, q, H, k0)).value,
                              TrajectoryError(mm, target, mm.trajectory(q.v0, q.v1, q.v2, k0))))
    requires alpha == SelectedScale(mm, target, k0, q, dp)
    ensures SolverStep(mm, inverse, target, k0)(q) == Next(Add(q, Scale(alpha, dp)))
  {
    assert SolverStep(mm, inverse, target, k0)(q) == Iterate(mm, inverse, target, k0, q);
  }
}
