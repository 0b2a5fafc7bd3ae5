/**
 The vehicle motion model the solver consumes (the `motion_model` module
 imported as `mm`). Its integrator is not part of this model: each of its
 three entry points is an arbitrary total function, so every property below
 holds for any kinematic model.
 */
module MotionModel {

  /** A pose (x, y, yaw): position and heading in the plane. */
  datatype Pose = Pose(x: real, y: real, yaw: real)

  /**
   A simulated trajectory as the three parallel lists `xc, yc, yawc` that
   `generate_trajectory` returns. The integrator always emits at least the
   final pose, so each list is non-empty, which `x[-1]` relies on.
   */
  datatype Track = Track(xs: seq<real>, ys: seq<real>, yaws: seq<real>)

  type Trajectory = t: Track | |t.xs| > 0 && |t.ys| > 0 && |t.yaws| > 0
    witness Track([0.0], [0.0], [0.0])

  /**
   The three collaborators, each taking the free parameters (s, km, kf) and
   the fixed initial curvature k0:
   - `lastState`: `generate_last_state`, the terminal pose only;
   - `trajectory`: `generate_trajectory`, the whole discretised path;
   - `wrap`: `pi_2_pi`, the angle normalisation.
   */
  datatype Model = Model(
    lastState: (real, real, real, real) -> Pose,
    trajectory: (real, real, real, real) -> Trajectory,
    wrap: real -> real)
}
