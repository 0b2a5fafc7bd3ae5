/** The Option type used for the partial matrix inverse. */
module Wrappers {
  datatype Option<+T> = None | Some(value: T)
}

/**
 The small amount of linear algebra the solver needs: 3-vectors (an error
 vector (dx, dy, dyaw) or a parameter vector (s, km, kf)) and 3x3 matrices
 stored column by column, as `np.hstack` of three column vectors builds them.
 All arithmetic is over exact reals.
 */
module LinAlg {
  import opened Wrappers

  datatype Vec3 = Vec3(v0: real, v1: real, v2: real) {

    /** Component `i` of the vector. */
    function Get(i: nat): real
      requires i < 3
    {
      if i == 0 then v0 else if i == 1 then v1 else v2
    }

    /** The vector with component `i` replaced by `r` and the other two kept. */
    function Set(i: nat, r: real): (u: Vec3)
      requires i < 3
      ensures u.Get(i) == r
      ensures forall j :: 0 <= j < 3 && j != i ==> u.Get(j) == Get(j)
    {
      if i == 0 then Vec3(r, v1, v2) else if i == 1 then Vec3(v0, r, v2) else Vec3(v0, v1, r)
    }
  }

  const Zero3 := Vec3(0.0, 0.0, 0.0)

  function Add(u: Vec3, w: Vec3): Vec3 {
    Vec3(u.v0 + w.v0, u.v1 + w.v1, u.v2 + w.v2)
  }

  function Sub(u: Vec3, w: Vec3): Vec3 {
    Vec3(u.v0 - w.v0, u.v1 - w.v1, u.v2 - w.v2)
  }

  function Scale(a: real, u: Vec3): Vec3 {
    Vec3(a * u.v0, a * u.v1, a * u.v2)
  }

  function Neg(u: Vec3): Vec3 {
    Vec3(-u.v0, -u.v1, -u.v2)
  }

  /** The squared Euclidean norm; the solver compares it instead of the norm. */
  function SumSq(u: Vec3): (r: real)
    ensures r >= 0.0
  {
    u.v0 * u.v0 + u.v1 * u.v1 + u.v2 * u.v2
  }

  /** A 3x3 matrix given by its columns. */
  datatype Mat3 = Mat3(c0: Vec3, c1: Vec3, c2: Vec3) {

    function Col(j: nat): Vec3
      requires j < 3
    {
      if j == 0 then c0 else if j == 1 then c1 else c2
    }
  }

  const ZeroMat := Mat3(Zero3, Zero3, Zero3)

  /** Matrix-vector product, written as the combination of the columns. */
  function MatVec(m: Mat3, u: Vec3): Vec3 {
    Add(Add(Scale(u.v0, m.c0), Scale(u.v1, m.c1)), Scale(u.v2, m.c2))
  }

  function NegMat(m: Mat3): Mat3 {
    Mat3(Neg(m.c0), Neg(m.c1), Neg(m.c2))
  }

  function Dot(u: Vec3, w: Vec3): real {
    u.v0 * w.v0 + u.v1 * w.v1 + u.v2 * w.v2
  }

  function Cross(u: Vec3, w: Vec3): Vec3 {
    Vec3(u.v1 * w.v2 - u.v2 * w.v1, u.v2 * w.v0 - u.v0 * w.v2, u.v0 * w.v1 - u.v1 * w.v0)
  }

  /** The determinant, as the triple product of the columns. */
  function Det(m: Mat3): real {
    Dot(m.c0, Cross(m.c1, m.c2))
  }

  /**
   What `np.linalg.inv` promises in exact arithmetic: it raises
   `LinAlgError` (here `None`) exactly for the singular matrices.
   */
  ghost predicate RejectsExactlySingular(inverse: Mat3 -> Option<Mat3>) {
    forall m {:trigger inverse(m)} :: inverse(m).None? <==> Det(m) == 0.0
  }

  /** A matrix with a zero column is singular. */
  lemma {:induction false} ZeroColumnSingular(m: Mat3, j: nat)
    requires j < 3 && m.Col(j) == Zero3
    ensures Det(m) == 0.0
  {
    if j == 0 {
      assert m.c0 == Zero3;
    } else if j == 1 {
      assert m.c1 == Zero3;
      assert Cross(m.c1, m.c2) == Zero3;
    } else {
      assert m.c2 == Zero3;
      assert Cross(m.c1, m.c2) == Zero3;
    }
  }
}
