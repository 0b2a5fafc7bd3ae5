/**
 What the solver does on synthetic motion models whose behaviour is known in
 closed form: a model whose terminal pose ignores the parameters, and an
 affine model (terminal pose = m * (s, km, kf) + b for a matrix m) with the
 identity as angle wrap.
 */
module SolverScenarios {
  import opened Wrappers
  import opened LinAlg
  import opened MotionModel
  import opened TrajectoryGenerator

  /** A pose read as the vector (x, y, yaw). */
  function PoseVec(q: Pose): Vec3 {
    Vec3(q.x, q.y, q.yaw)
  }

  /** The terminal pose does not depend on the free parameters. */
  ghost predicate ConstantTerminal(mm: Model, k0: real, c: Pose) {
    forall s, km, kf :: mm.lastState(s, km, kf, k0) == c
  }

  /** The angle wrap leaves every angle alone. */
  ghost predicate IdentityWrap(mm: Model) {
    forall x :: mm.wrap(x) == x
  }

  /** The full trajectory ends where the terminal-pose-only simulation ends. */
  ghost predicate TrajectoryEndsAtLastState(mm: Model, k0: real) {
    forall s, km, kf {:trigger mm.trajectory(s, km, kf, k0)} ::
      LastPose(mm.trajectory(s, km, kf, k0)) == mm.lastState(s, km, kf, k0)
  }

  /** Whatever the inverse returns undoes the matrix: J * J^-1 * u == u. */
  ghost predicate InverseIsRightInverse(inverse: Mat3 -> Option<Mat3>) {
    forall m, u {:trigger MatVec(m, MatVec(inverse(m).value, u))} ::
      inverse(m).Some? ==> MatVec(m, MatVec(inverse(m).value, u)) == u
  }

  // ---------------------------------------------------------------------
  // A model insensitive to the parameters

  /** If the terminal pose ignores the parameters, every central difference vanishes. */
  lemma JacobianOfConstantModel(mm: Model, target: Pose, p: Vec3, h: Vec3, k0: real, c: Pose)
    requires h.v0 != 0.0 && h.v1 != 0.0 && h.v2 != 0.0
    requires ConstantTerminal(mm, k0, c)
    ensures CalcJacobian(mm, target, p, h, k0) == ZeroMat
    ensures Det(CalcJacobian(mm, target, p, h, k0)) == 0.0
  {
    var e := PoseError(mm, target, c);
    assert Sub(e, e) == Zero3;
    assert Div(Zero3, 2.0 * h.v0) == Zero3;
    assert Div(Zero3, 2.0 * h.v1) == Zero3;
    assert Div(Zero3, 2.0 * h.v2) == Zero3;
    assert CalcJacobian(mm, target, p, h, k0) == ZeroMat;
    ZeroColumnSingular(ZeroMat, 0);
  }

  /**
   With such a model and an inverse that rejects singular matrices, a solve
   that does not succeed at once stops in the first iteration with a
   singular-Jacobian failure instead of running to exhaustion.
   */
  lemma ConstantModelReportsSingular(mm: Model, inverse: Mat3 -> Option<Mat3>, target: Pose, k0: real, p: Vec3, c: Pose)
    requires ConstantTerminal(mm, k0, c)
    requires RejectsExactlySingular(inverse)
    requires CostAt(mm, target, k0, p) > CostTh * CostTh
    ensures Solve(mm, inverse, target, k0, p) == SingularJacobian(p, 1)
  {
    assert inverse(CalcJacobian(mm, target, p, H, k0)).None? by {
      JacobianOfConstantModel(mm, target, p, H, k0, c);
    }
    FailsAtOnce(mm, inverse, target, k0, p);
  }

  // ---------------------------------------------------------------------
  // An affine model

  /** The terminal pose is `m * (s, km, kf) + b` for a fixed matrix `m`. */
  ghost predicate AffineTerminal(mm: Model, k0: real, m: Mat3, b: Vec3) {
    forall s, km, kf {:trigger PoseVec(mm.lastState(s, km, kf, k0))} ::
      PoseVec(mm.lastState(s, km, kf, k0)) == Add(MatVec(m, Vec3(s, km, kf)), b)
  }

  /** The error at parameters q under an affine model with identity wrap. */
  lemma AffineTerminalError(mm: Model, target: Pose, q: Vec3, k0: real, m: Mat3, b: Vec3)
    requires AffineTerminal(mm, k0, m, b) && IdentityWrap(mm)
    ensures TerminalError(mm, target, q, k0) == Sub(PoseVec(target), Add(MatVec(m, q), b))
  {
    var last := mm.lastState(q.v0, q.v1, q.v2, k0);
    assert Vec3(q.v0, q.v1, q.v2) == q;
    assert PoseVec(last) == Add(MatVec(m, q), b);
    assert mm.wrap(target.yaw - last.yaw) == target.yaw - last.yaw;
  }

  /** Matrix multiplication takes differences to differences. */
  lemma MatVecSub(m: Mat3, u: Vec3, w: Vec3)
    ensures Sub(MatVec(m, u), MatVec(m, w)) == MatVec(m, Sub(u, w))
  {
    CombinationSub(u, w, m.c0.v0, m.c1.v0, m.c2.v0);
    CombinationSub(u, w, m.c0.v1, m.c1.v1, m.c2.v1);
    CombinationSub(u, w, m.c0.v2, m.c1.v2, m.c2.v2);
  }

  lemma CombinationSub(u: Vec3, w: Vec3, x: real, y: real, z: real)
    ensures (u.v0 * x + u.v1 * y + u.v2 * z) - (w.v0 * x + w.v1 * y + w.v2 * z)
         == (u.v0 - w.v0) * x + (u.v1 - w.v1) * y + (u.v2 - w.v2) * z
  {
    assert (u.v0 - w.v0) * x == u.v0 * x - w.v0 * x;
    assert (u.v1 - w.v1) * y == u.v1 * y - w.v1 * y;
    assert (u.v2 - w.v2) * z == u.v2 * z - w.v2 * z;
  }

  /**
   Matrix multiplication commutes with the two scalings the line search
   tries on an affine model (1.0 and 1.5).
   */
  lemma MatVecScaleAt(m: Mat3, a: real, u: Vec3)
    requires a == 1.0 || a == 1.5
    ensures MatVec(m, Scale(a, u)) == Scale(a, MatVec(m, u))
  {
    if a == 1.0 {
      assert Scale(a, u) == u;
      assert Scale(a, MatVec(m, u)) == MatVec(m, u);
    } else {
      assert MatVec(m, Scale(1.5, u)) == Scale(1.5, MatVec(m, u));
    }
  }

  /** Multiplying c times the unit vector along i gives c times column i. */
  lemma MatVecScaledUnit(m: Mat3, i: nat, c: real)
    requires i < 3
    ensures MatVec(m, Zero3.Set(i, c)) == Scale(c, m.Col(i))
  {
  }

  /** Multiplying by a negated vector is multiplying the negated matrix. */
  lemma MatVecNeg(m: Mat3, w: Vec3)
    ensures MatVec(m, Neg(w)) == MatVec(NegMat(m), w)
  {
  }

  /** The difference of two errors of the affine model is `m` times the difference of the parameters. */
  lemma AffineErrorDifference(mm: Model, target: Pose, u: Vec3, w: Vec3, k0: real, m: Mat3, b: Vec3)
    requires AffineTerminal(mm, k0, m, b) && IdentityWrap(mm)
    ensures Sub(TerminalError(mm, target, u, k0), TerminalError(mm, target, w, k0)) == MatVec(m, Sub(w, u))
  {
    AffineTerminalError(mm, target, u, k0, m, b);
    AffineTerminalError(mm, target, w, k0, m, b);
    MatVecSub(m, w, u);
  }

  /** Moving parameter i up and down by hi differs by -2hi along axis i. */
  lemma PerturbDifference(p: Vec3, i: nat, hi: real)
    requires i < 3
    ensures Sub(Perturb(p, i, -hi), Perturb(p, i, hi)) == Zero3.Set(i, -2.0 * hi)
  {
  }

  /** Dividing -2h times a vector by 2h gives the negated vector. */
  lemma DivScaled(c: Vec3, hh: real)
    requires hh != 0.0
    ensures Div(Scale(-2.0 * hh, c), 2.0 * hh) == Neg(c)
  {
    DivScaledReal(c.v0, hh);
    DivScaledReal(c.v1, hh);
    DivScaledReal(c.v2, hh);
  }

  lemma DivScaledReal(x: real, hh: real)
    requires hh != 0.0
    ensures (-2.0 * hh * x) / (2.0 * hh) == -x
  {
    assert -2.0 * hh * x == (2.0 * hh) * (-x);
  }

  /**
   Central differences are exact for an affine model: the Jacobian of the
   error e(p) = target - (m * p + b) is -m, whatever the increments.
   */
  lemma JacobianOfAffineModel(mm: Model, target: Pose, p: Vec3, h: Vec3, k0: real, m: Mat3, b: Vec3)
    requires h.v0 != 0.0 && h.v1 != 0.0 && h.v2 != 0.0
    requires AffineTerminal(mm, k0, m, b) && IdentityWrap(mm)
    ensures CalcJacobian(mm, target, p, h, k0) == NegMat(m)
  {
    JacobianColumns(mm, target, p, h, k0);
    var j := CalcJacobian(mm, target, p, h, k0);
    forall i | 0 <= i < 3 ensures j.Col(i) == Neg(m.Col(i)) {
      AffineCentralDifference(mm, target, p, h, k0, m, b, i);
    }
    assert j == Mat3(j.Col(0), j.Col(1), j.Col(2));
  }

  /** One column of the previous lemma: the central difference along i is minus column i of m. */
  lemma AffineCentralDifference(mm: Model, target: Pose, p: Vec3, h: Vec3, k0: real, m: Mat3, b: Vec3, i: nat)
    requires i < 3 && h.Get(i) != 0.0
    requires AffineTerminal(mm, k0, m, b) && IdentityWrap(mm)
    ensures CentralDifference(mm, target, p, h, k0, i) == Neg(m.Col(i))
  {
    var hi := h.Get(i);
    var up, down := Perturb(p, i, hi), Perturb(p, i, -hi);
    AffineErrorDifference(mm, target, up, down, k0, m, b);
    PerturbDifference(p, i, hi);
    MatVecScaledUnit(m, i, -2.0 * hi);
    DivScaled(m.Col(i), hi);
  }

  // ---------------------------------------------------------------------
  // Newton's method is exact on an affine model

  /**
   The Newton direction -J^-1 * e for J = -m is mapped by `m` back onto e
   when the inverse is a right inverse.
   */
  lemma NewtonDirectionUndoesError(m: Mat3, inverse: Mat3 -> Option<Mat3>, e: Vec3)
    requires InverseIsRightInverse(inverse)
    requires inverse(NegMat(m)).Some?
    ensures MatVec(m, Neg(MatVec(inverse(NegMat(m)).value, e))) == e
  {
    MatVecNeg(m, MatVec(inverse(NegMat(m)).value, e));
  }

  /** Moving the parameters by a*dp, for a trial scale a, moves the affine model's error by -a*(m * dp). */
  lemma AffineMoveError(mm: Model, target: Pose, p: Vec3, dp: Vec3, a: real, k0: real, m: Mat3, b: Vec3)
    requires a == 1.0 || a == 1.5
    requires AffineTerminal(mm, k0, m, b) && IdentityWrap(mm)
    ensures TerminalError(mm, target, Add(p, Scale(a, dp)), k0)
         == Sub(TerminalError(mm, target, p, k0), Scale(a, MatVec(m, dp)))
  {
    var q := Add(p, Scale(a, dp));
    AffineErrorDifference(mm, target, p, q, k0, m, b);
    assert Sub(q, p) == Scale(a, dp);
    MatVecScaleAt(m, a, dp);
  }

  /** Halving a vector above the threshold leaves a positive squared norm. */
  lemma SumSqHalfPositive(u: Vec3)
    requires SumSq(u) > CostTh * CostTh
    ensures SumSq(Scale(-0.5, u)) > 0.0
  {
    assert SumSq(Scale(-0.5, u)) == 0.25 * SumSq(u);
  }

  /** When the full trajectory ends at the terminal pose, its error is the terminal error. */
  lemma TrajectoryErrorIsTerminal(mm: Model, target: Pose, p: Vec3, k0: real)
    requires TrajectoryEndsAtLastState(mm, k0)
    ensures TrajectoryError(mm, target, mm.trajectory(p.v0, p.v1, p.v2, k0)) == TerminalError(mm, target, p, k0)
  {
    var t := mm.trajectory(p.v0, p.v1, p.v2, k0);
    assert LastPose(t) == mm.lastState(p.v0, p.v1, p.v2, k0);
  }

  /**
   On an affine model above the threshold, the trial cost along the Newton
   direction is zero at scale 1.0, where the terminal error vanishes, and
   positive at scale 1.5, where the error is minus half the current one.
   */
  lemma AffineTrialCosts(mm: Model, inverse: Mat3 -> Option<Mat3>, target: Pose, k0: real, p: Vec3,
                         m: Mat3, b: Vec3)
    requires AffineTerminal(mm, k0, m, b) && IdentityWrap(mm)
    requires InverseIsRightInverse(inverse) && inverse(NegMat(m)).Some?
    requires SumSq(TerminalError(mm, target, p, k0)) > CostTh * CostTh
    ensures var e := TerminalError(mm, target, p, k0);
      var dp := Neg(MatVec(inverse(NegMat(m)).value, e));
      TerminalError(mm, target, Add(p, Scale(1.0, dp)), k0) == Zero3 &&
      TrialCost(mm, target, k0, p, dp, 1.0) == 0.0 &&
      TrialCost(mm, target, k0, p, dp, 1.5) > 0.0
  {
    var e := TerminalError(mm, target, p, k0);
    var dp := Neg(MatVec(inverse(NegMat(m)).value, e));
    assert MatVec(m, dp) == e by {
      NewtonDirectionUndoesError(m, inverse, e);
    }
    assert TerminalError(mm, target, Add(p, Scale(1.0, dp)), k0) == Zero3 by {
      AffineMoveError(mm, target, p, dp, 1.0, k0, m, b);
      assert Sub(e, Scale(1.0, e)) == Zero3;
    }
    assert TerminalError(mm, target, Add(p, Scale(1.5, dp)), k0) == Scale(-0.5, e) by {
      AffineMoveError(mm, target, p, dp, 1.5, k0, m, b);
      assert Sub(e, Scale(1.5, e)) == Scale(-0.5, e);
    }
    SumSqHalfPositive(e);
  }

  /**
   The affine scenario: terminal pose m * (s, km, kf) + b, identity angle
   wrap, trajectories that end at the terminal pose, an inverse that is a
   right inverse, and an invertible Jacobian -m.
   */
  ghost predicate AffineScenario(mm: Model, inverse: Mat3 -> Option<Mat3>, k0: real, m: Mat3, b: Vec3) {
    AffineTerminal(mm, k0, m, b) && IdentityWrap(mm) && TrajectoryEndsAtLastState(mm, k0) &&
    InverseIsRightInverse(inverse) && inverse(NegMat(m)).Some?
  }

  /**
   Above the threshold on an affine model, the Newton direction from `p` is
   defined, and of the two trial scales the full step lands on the target,
   where the cost is zero.
   */
  lemma AffineNewtonDirection(mm: Model, inverse: Mat3 -> Option<Mat3>, target: Pose, k0: real, p: Vec3,
                              m: Mat3, b: Vec3)
    requires AffineScenario(mm, inverse, k0, m, b)
    requires CostAt(mm, target, k0, p) > CostTh * CostTh
    ensures var jinv := inverse(CalcJacobian(mm, target, p, H, k0));
      jinv.Some? &&
      var dp := Neg(MatVec(jinv.value, TrajectoryError(mm, target, mm.trajectory(p.v0, p.v1, p.v2, k0))));
      CostAt(mm, target, k0, Add(p, Scale(1.0, dp))) == 0.0 &&
      TrialCost(mm, target, k0, p, dp, 1.0) == 0.0 &&
      TrialCost(mm, target, k0, p, dp, 1.5) > 0.0
  {
    TrajectoryErrorIsTerminal(mm, target, p, k0);
    JacobianOfAffineModel(mm, target, p, H, k0, m, b);
    AffineTrialCosts(mm, inverse, target, k0, p, m, b);
    var dp := Neg(MatVec(inverse(NegMat(m)).value, TerminalError(mm, target, p, k0)));
    TrajectoryErrorIsTerminal(mm, target, Add(p, Scale(1.0, dp)), k0);
  }

  /**
   Newton's method is exact on an affine model: if the Jacobian is
   invertible and the inverse a right inverse, the solve converges, either at
   once or in its second iteration, after a first step of scale 1.0 that
   lands on the target exactly (zero cost).
   */
  lemma AffineModelConverges(mm: Model, inverse: Mat3 -> Option<Mat3>, target: Pose, k0: real, p: Vec3,
                             m: Mat3, b: Vec3)
    requires AffineScenario(mm, inverse, k0, m, b)
    ensures var o := Solve(mm, inverse, target, k0, p);
      o.Converged? && 1 <= o.iters <= 2 &&
      (o.iters == 1 <==> CostAt(mm, target, k0, p) <= CostTh * CostTh) &&
      (o.iters == 2 ==> CostAt(mm, target, k0, o.p) == 0.0)
  {
    var step := SolverStep(mm, inverse, target, k0);
    StepDecides(step, p, 0);
    if CostAt(mm, target, k0, p) <= CostTh * CostTh {
      StepDone(mm, inverse, target, k0, p);
    } else {
      AffineNewtonDirection(mm, inverse, target, k0, p, m, b);
      ExactNewtonStepConverges(mm, inverse, target, k0, p);
    }
  }
}
