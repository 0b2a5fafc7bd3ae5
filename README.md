# Model predictive trajectory generator: the Newton boundary-value solver

This project models the core of `Model_Trajectory_generator.py`, a
trajectory generator from a robot motion-planning code base, and proves
properties of the model.
The core solves a boundary-value problem. It takes a target pose
(x, y, yaw), a fixed initial curvature k0 and a guess for the free
parameters p = (s, km, kf): path length, middle curvature and final
curvature. It refines p by a Newton iteration, whose step scale is picked from
{1.0, 1.5}, until the simulated
terminal pose is within a cost threshold of the target.

The model has four parts, as in the source:

- `calc_diff`, the pose error. It is the target minus the **last** pose of
  a simulated trajectory, and the heading difference goes through the angle
  wrap `pi_2_pi`.
- `clac_j`, the Jacobian. Each of its three columns is a central difference
  that moves one parameter by plus and minus its increment. The increments
  are h = (0.5, 0.02, 0.02).
- `selection_learning_params`, the line search. It scans the grid
  `np.arange(1.0, 2.0, 0.5)` of step scales and keeps a running minimum
  that starts at infinity. It updates on `cost <= mincost and a != 0.0`.
- `optimization_trajectory`, the outer loop. It runs at most 100 times. It
  stops with success once the cost is at most 0.1, and fails when the
  inverse rejects the Jacobian. Otherwise it updates the caller's array in
  place with `p += alpha * dp`.

Modelling choices:

- **Numbers.** All arithmetic is over exact reals.
- **Cost.** The Euclidean norm is replaced by the squared norm `SumSq`. Two
  lemmas show this changes no decision the solver takes. `NormThreshold`
  covers the threshold test, and `NormAndSquaredCostsAgree` covers the
  line search's choice.
- **Motion model.** The three entry points are arbitrary total functions of
  a `MotionModel.Model`: `generate_last_state`, `generate_trajectory` and
  `pi_2_pi`.
- **Matrix inverse.** `np.linalg.inv` is a parameter
  `inverse: Mat3 -> Option<Mat3>`. `None` stands for `LinAlgError`.
- **Line search.** `SelectionLearningParams` is a method with the source's
  loop. It is proved equal to the recursive scan `LineSearch`, and the
  selection properties are proved about `LineSearch`.
- **Outer loop.** `OptimizationTrajectory` is a method with the source's
  bounded loop. It mutates the parameter `array<real>` in place. It is
  proved equal to the pure state machine `Solve`, which has the states
  Converged, SingularJacobian and MaxIterations.
  - `OuterIteration` computes one pass of the loop, as the source does.
    It is proved equal to the pure step `Iterate`, whose three cases
    `IterateCases` states.
  - `SourceResult` collapses the two failure states into the source's all
    `None` result, and `SolveResult` states what that value promises.
- **Scenario file.** `solver_scenarios.dfy` proves what the solver does on
  synthetic motion models with known behaviour:
  - a terminal pose that ignores the parameters gives an immediate
    singular-Jacobian failure;
  - on an affine model, Newton's method converges in at most two
    iterations. An affine model here means four things: the terminal pose
    is m * p + b; the angle wrap is the identity; the full trajectory ends
    at the terminal pose; and the inverse is a right inverse that accepts
    the Jacobian -m.

In three places the code behaves differently from what a caller might
expect. The model follows the code in each:

- **Array on failure.** A failed solve returns all `None`, but each
  earlier update `p += alpha * dp` has mutated the caller's array in
  place. After a failure the caller's array holds the last iterate, and
  `OptimizationTrajectory` states this. That is the initial guess when the
  first iteration fails as singular (`FailsAtOnce`); otherwise it is the
  result of the last update.
- **Constant pose.** A model that always returns the same wrong pose
  might be expected to fail by exhausting the iteration cap. In the code,
  such a model's Jacobian is the zero matrix (a pose that does not move
  gives zero central differences), so the inverse rejects it and the first
  iteration ends in a singular-Jacobian failure
  (`ConstantModelReportsSingular`). Exhaustion needs the Jacobian the
  solver builds at every parameters to be invertible
  (`NeverConvergingModelExhausts`).
- **Tie-break.** When both grid scales cost the same, the code's `<=`
  keeps the last, larger scale 1.5, so the full step 1.0 is taken only
  when it is strictly cheaper (`SelectedScaleProperties`,
  `UnitStepSelected`).

## Model

| member | source | states |
|---|---|---|
| TrajectoryGenerator.CalcDiffUsesLastPose | MotionPlanning/ModelPredictiveTrajectoryGenerator/Model_Trajectory_generator.py:98-104 | the error of a whole trajectory equals the error of its last pose alone, given as one-element lists, which is how the Jacobian and the line search call it |
| TrajectoryGenerator.CalcDiffIgnoresPrefix | MotionPlanning/ModelPredictiveTrajectoryGenerator/Model_Trajectory_generator.py:98-104 | anything before the last pose has no effect on the error |
| TrajectoryGenerator.CalcDiffRecoversTarget | MotionPlanning/ModelPredictiveTrajectoryGenerator/Model_Trajectory_generator.py:98-104 | adding the error to the last pose gives back the target position, and the heading error is the wrapped heading difference |
| TrajectoryGenerator.CalcDiffZeroAtTarget | MotionPlanning/ModelPredictiveTrajectoryGenerator/Model_Trajectory_generator.py:98-104 | a last pose equal to the target gives the zero error and zero cost, provided wrap(0) = 0 |
| TrajectoryGenerator.CalcDiffYawInRange | MotionPlanning/ModelPredictiveTrajectoryGenerator/Model_Trajectory_generator.py:103 | the heading error lies in (lo, hi] whenever the angle wrap maps into (lo, hi], for example (-pi, pi] |
| TrajectoryGenerator.NormThreshold | MotionPlanning/ModelPredictiveTrajectoryGenerator/Model_Trajectory_generator.py:204-208 | the norm is at most cost_th exactly when the squared norm is at most cost_th squared, so the squared test stops the solver exactly when the source does |
| TrajectoryGenerator.JacobianColumns | MotionPlanning/ModelPredictiveTrajectoryGenerator/Model_Trajectory_generator.py:121-149 | column i of the Jacobian, in the order s, km, kf, is the central difference (e(p + h_i e_i) - e(p - h_i e_i)) / (2 h_i) that moves parameter i alone and passes k0 through unchanged |
| TrajectoryGenerator.ArangeExact | MotionPlanning/ModelPredictiveTrajectoryGenerator/Model_Trajectory_generator.py:167 | the arange list is start + i*step for i = 0, 1, ..., every point lies in [start, stop), and the next point would not be below stop |
| TrajectoryGenerator.GridIsArange | MotionPlanning/ModelPredictiveTrajectoryGenerator/Model_Trajectory_generator.py:74-76 | `np.arange(MINA, MAXA, DA)` with 1.0, 2.0, 0.5 is exactly [1.0, 1.5], with the bound 2.0 left out |
| TrajectoryGenerator.LineSearchChoice | MotionPlanning/ModelPredictiveTrajectoryGenerator/Model_Trajectory_generator.py:162-182 | over any list of trial scales, the line search returns either its default or a trial scale that is not zero |
| TrajectoryGenerator.LineSearchBest | MotionPlanning/ModelPredictiveTrajectoryGenerator/Model_Trajectory_generator.py:169-180 | over an increasing list of non-zero scales, the result is either the default, when no trial meets the running bound, or a trial within the bound whose cost is minimal over the list, with every larger scale costing strictly more (ties go to the last scale) |
| TrajectoryGenerator.SelectedScaleProperties | MotionPlanning/ModelPredictiveTrajectoryGenerator/Model_Trajectory_generator.py:162-182 | the solver's line search returns 1.0 or 1.5, never 0; its trial cost is at most that of both grid points; it returns 1.0 only when 1.5 costs strictly more |
| TrajectoryGenerator.UnitStepSelected | MotionPlanning/ModelPredictiveTrajectoryGenerator/Model_Trajectory_generator.py:169-182 | the line search picks 1.0 exactly when the trial cost of the full step is strictly below that of the step of 1.5 |
| TrajectoryGenerator.NormAndSquaredCostsAgree | MotionPlanning/ModelPredictiveTrajectoryGenerator/Model_Trajectory_generator.py:176-180 | scanning by norms or by squared norms picks the same scale from the same grid |
| TrajectoryGenerator.SelectionLearningParams | MotionPlanning/ModelPredictiveTrajectoryGenerator/Model_Trajectory_generator.py:153-182 | the source's loop over the arange grid returns the line search's scale, which is 1.0 or 1.5 and has trial cost at most that of both grid points |
| TrajectoryGenerator.Direction | MotionPlanning/ModelPredictiveTrajectoryGenerator/Model_Trajectory_generator.py:213-220 | the Newton direction is undefined exactly when the inverse rejects the Jacobian |
| TrajectoryGenerator.IterateCases | MotionPlanning/ModelPredictiveTrajectoryGenerator/Model_Trajectory_generator.py:193-225 | one outer iteration stops with success exactly when the cost is within the threshold, taking the current trajectory; it stops as singular exactly when the cost is above the threshold and the inverse rejects the Jacobian; it updates exactly when the cost is above the threshold and the inverse accepts, moving p to p + a*dp with dp = -J^-1 * dc and a = 1.0 when its trial cost is strictly below that of 1.5, else 1.5 |
| TrajectoryGenerator.SolveResult | MotionPlanning/ModelPredictiveTrajectoryGenerator/Model_Trajectory_generator.py:215-234 | the source's return value is all `None` exactly when the solve fails by a singular Jacobian or by exhaustion; otherwise it is a trajectory generated by the returned p whose cost is within the threshold |
| TrajectoryGenerator.SolveIterations | MotionPlanning/ModelPredictiveTrajectoryGenerator/Model_Trajectory_generator.py:193-232 | the solve always ends after at most max_iter = 100 iterations; exhaustion means exactly 100, and success or a singular Jacobian stops during an iteration that was begun |
| TrajectoryGenerator.StopsWhereStepStops | MotionPlanning/ModelPredictiveTrajectoryGenerator/Model_Trajectory_generator.py:208-220 | a successful or singular solve ends at parameters whose own step stops that way, so no update follows the stopping test |
| TrajectoryGenerator.IteratesChain | MotionPlanning/ModelPredictiveTrajectoryGenerator/Model_Trajectory_generator.py:193-225 | the iterates run from the initial p to the outcome's p, each one updates to the next, and their number matches the iteration count |
| TrajectoryGenerator.AlwaysNextExhausts | MotionPlanning/ModelPredictiveTrajectoryGenerator/Model_Trajectory_generator.py:193-232 | if every step updates p, the solve exhausts after exactly max_iter iterations |
| TrajectoryGenerator.ConvergedIsSound | MotionPlanning/ModelPredictiveTrajectoryGenerator/Model_Trajectory_generator.py:195-210 | on success, the returned p generated the returned trajectory, and that trajectory's cost is within the threshold |
| TrajectoryGenerator.SingularIsSound | MotionPlanning/ModelPredictiveTrajectoryGenerator/Model_Trajectory_generator.py:204-220 | a singular failure happens at parameters above the threshold whose Jacobian the inverse rejects |
| TrajectoryGenerator.FailsAtOnce | MotionPlanning/ModelPredictiveTrajectoryGenerator/Model_Trajectory_generator.py:208-220 | conversely, parameters above the threshold with a rejected Jacobian end the solve in its first iteration, with no update |
| TrajectoryGenerator.FullNewtonStep | MotionPlanning/ModelPredictiveTrajectoryGenerator/Model_Trajectory_generator.py:213-225 | from parameters above the threshold, with an invertible Jacobian, dp = -J^-1 * dc, and a trial cost of the full step strictly below that of the step of 1.5, the iteration moves p by exactly dp |
| TrajectoryGenerator.ExactNewtonStepConverges | MotionPlanning/ModelPredictiveTrajectoryGenerator/Model_Trajectory_generator.py:193-225 | from parameters above the threshold with an invertible Jacobian, if the full Newton step p + dp is strictly cheaper than the step of 1.5 and its cost is within the threshold, the solve converges in its second iteration at p + dp with the trajectory generated there |
| TrajectoryGenerator.SolveUpdates | MotionPlanning/ModelPredictiveTrajectoryGenerator/Model_Trajectory_generator.py:213-225 | every iterate but the last failed the threshold test and had an invertible Jacobian; the next iterate is p + a*dp with dp = -J^-1 * dc and a from {1.0, 1.5} of minimal trial cost |
| TrajectoryGenerator.NeverConvergingModelExhausts | MotionPlanning/ModelPredictiveTrajectoryGenerator/Model_Trajectory_generator.py:193-232 | if no parameters meet the threshold and the inverse accepts the Jacobian the solver builds at every parameters, the solve exhausts after exactly 100 iterations and returns all `None` |
| TrajectoryGenerator.NeverWithinThresholdReturnsNone | MotionPlanning/ModelPredictiveTrajectoryGenerator/Model_Trajectory_generator.py:193-234 | if no parameters meet the threshold, the source returns all `None` whatever the inverse does |
| TrajectoryGenerator.OuterIteration | MotionPlanning/ModelPredictiveTrajectoryGenerator/Model_Trajectory_generator.py:195-225 | one pass of the source's loop body, the stopping test, the Jacobian, the inverse, the line search and the update, computes the pure step that `IterateCases` characterises |
| TrajectoryGenerator.OptimizationTrajectory | MotionPlanning/ModelPredictiveTrajectoryGenerator/Model_Trajectory_generator.py:184-234 | the loop ends as `Solve` from the initial array contents does; the caller's array holds the final iterate; a result is returned exactly on convergence, and it carries the converged trajectory and the same array |
| SolverScenarios.JacobianOfConstantModel | MotionPlanning/ModelPredictiveTrajectoryGenerator/Model_Trajectory_generator.py:121-149 | when the terminal pose ignores the parameters, the Jacobian is the zero matrix and is singular |
| SolverScenarios.ConstantModelReportsSingular | MotionPlanning/ModelPredictiveTrajectoryGenerator/Model_Trajectory_generator.py:213-220 | with such a model and an inverse that rejects exactly the singular matrices, a solve above the threshold fails as singular in its first iteration instead of exhausting |
| SolverScenarios.JacobianOfAffineModel | MotionPlanning/ModelPredictiveTrajectoryGenerator/Model_Trajectory_generator.py:121-149 | central differences are exact for an affine terminal pose m*p + b with the identity angle wrap: the Jacobian is -m for any non-zero increments |
| SolverScenarios.AffineNewtonDirection | MotionPlanning/ModelPredictiveTrajectoryGenerator/Model_Trajectory_generator.py:213-225 | on an affine terminal pose m*p + b with the identity angle wrap, a full trajectory that ends at the terminal pose, and a right inverse that accepts -m, from parameters above the threshold the Newton direction is defined, the full step reaches zero cost, and the step of 1.5 does not |
| SolverScenarios.AffineModelConverges | MotionPlanning/ModelPredictiveTrajectoryGenerator/Model_Trajectory_generator.py:193-225 | on an affine terminal pose m*p + b with the identity angle wrap, a full trajectory that ends at the terminal pose, and a right inverse that accepts the Jacobian -m, the solve converges in one iteration exactly when the start is within the threshold, and otherwise in two, at parameters of zero cost |

## Left out

- Plotting and animation are left out: `plot_arrow`, `show_trajectory`
  and the `show_animation` branch are user interface with no logic.
- The `print` calls on success and failure are left out. They are output
  only.
- `test_optimize_trajectory` and `main` are left out. They are a demo
  whose convergence depends on the real kinematic integrator.
- The `motion_model` module is not part of this model. Its three
  functions are arbitrary, so every property holds for any vehicle
  model. The scenario lemmas add their assumptions, such as an affine
  terminal pose, as explicit requirements.
- `np.linalg.inv` is an abstract `Option`-returning parameter. Only the
  scenarios say which matrices it rejects: exactly the singular ones
  (`RejectsExactlySingular`), or it returns a right inverse
  (`InverseIsRightInverse`). Ill-conditioning is not modelled.
- IEEE floating-point rounding, NaN and infinities (other than the
  initial `MINCOST`) are left out. The `sqrt` inside `np.linalg.norm` is
  replaced by the squared norm.
- The numpy shapes ((3, 1) columns, `reshape`, `hstack`) become the value
  types `Vec3` and `Mat3`.
- `CalcDiff` requires non-empty pose lists, where Python would raise
  `IndexError` on an empty one. Every trajectory the model produces is
  non-empty by its type.
- `CalcJacobian` requires non-zero increments. The source divides by
  2*h_i and is only ever called with the fixed non-zero h.
- The O(h^2) accuracy of central differences on smooth models is left
  out. It needs real analysis. The model instead proves the differences
  exact on affine terminal poses under the identity angle wrap
  (`JacobianOfAffineModel`).
