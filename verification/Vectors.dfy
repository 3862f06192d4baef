/** Vectors and matrices over the reals, in any dimension. */
module Vectors {
  import opened Scalars

  type Vector = seq<real>
  type Matrix = seq<seq<real>>

  function Dot(x: Vector, y: Vector): real
    requires |x| == |y|
  {
    if x == [] then 0.0 else Mul(x[0], y[0]) + Dot(x[1..], y[1..])
  }

  function Add(x: Vector, y: Vector): (r: Vector)
    requires |x| == |y|
    ensures |r| == |x|
  {
    seq(|x|, i requires 0 <= i < |x| => x[i] + y[i])
  }

  function Scale(c: real, x: Vector): (r: Vector)
    ensures |r| == |x|
  {
    seq(|x|, i requires 0 <= i < |x| => Mul(c, x[i]))
  }

  function Zeros(n: nat): Vector {
    seq(n, i => 0.0)
  }

  function Unit(n: nat, k: int): Vector {
    seq(n, i => if i == k then 1.0 else 0.0)
  }

  lemma {:induction false} DotCommutes(x: Vector, y: Vector)
    requires |x| == |y|
    ensures Dot(x, y) == Dot(y, x)
  {
    hide Mul;
    if x != [] {
      MulCommutes(x[0], y[0]);
      DotCommutes(x[1..], y[1..]);
    }
  }

  lemma {:induction false} DotAdd(x: Vector, y: Vector, z: Vector)
    requires |x| == |y| == |z|
    ensures Dot(Add(x, y), z) == Dot(x, z) + Dot(y, z)
  {
    hide Mul;
    if x != [] {
      DotAdd(x[1..], y[1..], z[1..]);
      assert Add(x, y)[1..] == Add(x[1..], y[1..]);
      MulAdd(x[0], y[0], z[0]);
    }
  }

  lemma {:induction false} DotScale(c: real, x: Vector, z: Vector)
    requires |x| == |z|
    ensures Dot(Scale(c, x), z) == Mul(c, Dot(x, z))
  {
    hide Mul;
    MulUnit(c);
    if x != [] {
      DotScale(c, x[1..], z[1..]);
      assert Scale(c, x)[1..] == Scale(c, x[1..]);
      MulAssociates(c, x[0], z[0]);
      MulAdd(Mul(x[0], z[0]), Dot(x[1..], z[1..]), c);
    }
  }

  lemma DotAddRight(z: Vector, x: Vector, y: Vector)
    requires |x| == |y| == |z|
    ensures Dot(z, Add(x, y)) == Dot(z, x) + Dot(z, y)
  {
    DotCommutes(z, Add(x, y));
    DotAdd(x, y, z);
    DotCommutes(x, z);
    DotCommutes(y, z);
  }

  lemma DotScaleRight(z: Vector, c: real, x: Vector)
    requires |x| == |z|
    ensures Dot(z, Scale(c, x)) == Mul(c, Dot(z, x))
  {
    DotCommutes(z, Scale(c, x));
    DotScale(c, x, z);
    DotCommutes(x, z);
  }

  /** Only the zero vector has length zero. */
  lemma {:induction false} DotSelf(x: Vector)
    ensures Dot(x, x) >= 0.0
    ensures x != Zeros(|x|) ==> Dot(x, x) > 0.0
  {
    hide Mul;
    if x != [] {
      DotSelf(x[1..]);
      MulSquare(x[0]);
      if x[0] == 0.0 && x[1..] == Zeros(|x| - 1) {
        assert forall i | 0 < i < |x| :: x[i] == x[1..][i - 1];
      }
    }
  }

  lemma {:induction false} DotZeros(n: nat, x: Vector)
    requires |x| == n
    ensures Dot(Zeros(n), x) == 0.0
  {
    hide Mul;
    if n > 0 {
      MulUnit(x[0]);
      DotZeros(n - 1, x[1..]);
      assert Zeros(n)[1..] == Zeros(n - 1);
    }
  }

  lemma {:induction false} DotUnit(n: nat, k: int, x: Vector)
    requires |x| == n
    ensures Dot(Unit(n, k), x) == if 0 <= k < n then x[k] else 0.0
  {
    hide Mul;
    if n > 0 {
      MulUnit(x[0]);
      DotUnit(n - 1, k - 1, x[1..]);
      assert Unit(n, k)[1..] == Unit(n - 1, k - 1);
    }
  }

  ghost predicate IsSquare(m: Matrix, n: nat) {
    |m| == n && forall i | 0 <= i < n :: |m[i]| == n
  }

  function Identity(n: nat): (m: Matrix)
    ensures IsSquare(m, n)
  {
    seq(n, i => Unit(n, i))
  }

  /** The matrix `m + x xᵀ`. */
  function AddOuter(m: Matrix, x: Vector): (r: Matrix)
    requires IsSquare(m, |x|)
    ensures IsSquare(r, |x|)
  {
    seq(|x|, i requires 0 <= i < |x| => Add(m[i], Scale(x[i], x)))
  }

  function MatVec(m: Matrix, v: Vector): (r: Vector)
    requires IsSquare(m, |v|)
    ensures |r| == |v|
  {
    seq(|v|, i requires 0 <= i < |v| => Dot(m[i], v))
  }

  lemma IdentityVec(v: Vector)
    ensures MatVec(Identity(|v|), v) == v
  {
    hide Mul, Dot;
    forall i | 0 <= i < |v| ensures MatVec(Identity(|v|), v)[i] == v[i] {
      DotUnit(|v|, i, v);
    }
  }

  lemma AddOuterAt(m: Matrix, x: Vector, i: nat, j: nat)
    requires IsSquare(m, |x|) && i < |x| && j < |x|
    ensures AddOuter(m, x)[i][j] == m[i][j] + Mul(x[i], x[j])
  {
    hide Mul;
  }

  lemma AddOuterRow(m: Matrix, x: Vector, v: Vector, i: nat)
    requires |x| == |v| && IsSquare(m, |x|) && i < |x|
    ensures Dot(AddOuter(m, x)[i], v) == Dot(m[i], v) + Mul(x[i], Dot(x, v))
  {
    hide Mul, Dot;
    assert AddOuter(m, x)[i] == Add(m[i], Scale(x[i], x));
    hide AddOuter, Add, Scale;
    DotAdd(m[i], Scale(x[i], x), v);
    DotScale(x[i], x, v);
  }

  lemma AddOuterVec(m: Matrix, x: Vector, v: Vector)
    requires |x| == |v| && IsSquare(m, |x|)
    ensures MatVec(AddOuter(m, x), v) == Add(MatVec(m, v), Scale(Dot(x, v), x))
  {
    hide Mul, AddOuter, Dot;
    forall i | 0 <= i < |v|
      ensures MatVec(AddOuter(m, x), v)[i] == Add(MatVec(m, v), Scale(Dot(x, v), x))[i]
    {
      AddOuterRow(m, x, v, i);
      MulCommutes(x[i], Dot(x, v));
    }
  }

  lemma MatVecAdd(m: Matrix, u: Vector, v: Vector)
    requires |u| == |v| && IsSquare(m, |u|)
    ensures MatVec(m, Add(u, v)) == Add(MatVec(m, u), MatVec(m, v))
  {
    hide Mul, Dot;
    forall i | 0 <= i < |u| ensures MatVec(m, Add(u, v))[i] == Add(MatVec(m, u), MatVec(m, v))[i] {
      DotAddRight(m[i], u, v);
    }
  }

  lemma MatVecScale(m: Matrix, c: real, v: Vector)
    requires IsSquare(m, |v|)
    ensures MatVec(m, Scale(c, v)) == Scale(c, MatVec(m, v))
  {
    hide Mul, Dot;
    forall i | 0 <= i < |v| ensures MatVec(m, Scale(c, v))[i] == Scale(c, MatVec(m, v))[i] {
      DotScaleRight(m[i], c, v);
    }
  }
}
