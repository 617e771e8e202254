/** Rotations, rigid transforms and quaternion interpolation over the reals (transforms.py).

    Products of real variables are kept in small lemmas about plain numbers; the lemmas about vectors,
    matrices and quaternions only put those together. Square roots and trigonometric functions are
    parameters, known by their laws. */
module Transforms {
  import opened Options

  datatype Vec = Vec(x: real, y: real, z: real)
  /** A 3x3 matrix by rows. */
  datatype Mat = Mat(a: Vec, b: Vec, c: Vec)
  datatype Quat = Quat(x: real, y: real, z: real, w: real)
  /** A 4x4 transform by rows; the row type is shared with quaternions. */
  datatype Transform = Transform(r0: Quat, r1: Quat, r2: Quat, r3: Quat)

  /** The library functions the code calls. `Lawful` is all that is known of them. */
  datatype Numerics = Numerics(sqrt: real -> real, cos: real -> real, sin: real -> real, arccos: real -> real)

  ghost predicate SqrtLaw(nm: Numerics) {
    forall x {:trigger nm.sqrt(x)} :: x >= 0.0 ==> nm.sqrt(x) >= 0.0 && nm.sqrt(x) * nm.sqrt(x) == x
  }

  ghost predicate TrigLaw(nm: Numerics) {
    && nm.cos(0.0) == 1.0 && nm.sin(0.0) == 0.0
    && (forall x {:trigger nm.cos(x)} :: nm.cos(x) * nm.cos(x) + nm.sin(x) * nm.sin(x) == 1.0)
    && (forall d {:trigger nm.arccos(d)} ::
      -1.0 <= d <= 1.0 ==> nm.cos(nm.arccos(d)) == d && nm.sin(nm.arccos(d)) >= 0.0)
  }

  ghost predicate Lawful(nm: Numerics) {
    SqrtLaw(nm) && TrigLaw(nm)
  }

  function Dot(u: Vec, v: Vec): real {
    u.x * v.x + u.y * v.y + u.z * v.z
  }

  function Add(u: Vec, v: Vec): Vec {
    Vec(u.x + v.x, u.y + v.y, u.z + v.z)
  }

  function Sub(u: Vec, v: Vec): Vec {
    Vec(u.x - v.x, u.y - v.y, u.z - v.z)
  }

  /** The squared distance of two points. */
  function Distance2(u: Vec, v: Vec): real {
    Dot(Sub(u, v), Sub(u, v))
  }

  function Times(m: Mat, v: Vec): Vec {
    Vec(Dot(m.a, v), Dot(m.b, v), Dot(m.c, v))
  }

  function Transpose(m: Mat): Mat {
    Mat(Vec(m.a.x, m.b.x, m.c.x), Vec(m.a.y, m.b.y, m.c.y), Vec(m.a.z, m.b.z, m.c.z))
  }

  /** The rows are unit vectors at right angles: `m` times its transpose is the identity. */
  predicate OrthonormalRows(m: Mat) {
    && Dot(m.a, m.a) == 1.0 && Dot(m.b, m.b) == 1.0 && Dot(m.c, m.c) == 1.0
    && Dot(m.a, m.b) == 0.0 && Dot(m.a, m.c) == 0.0 && Dot(m.b, m.c) == 0.0
  }

  /** The transpose undoes the matrix, on both sides. */
  ghost predicate Orthogonal(m: Mat) {
    forall v :: Times(Transpose(m), Times(m, v)) == v && Times(m, Times(Transpose(m), v)) == v
  }

  lemma AdjointScalars(a: Vec, b: Vec, c: Vec, u: Vec, w: Vec)
    ensures (a.x * u.x + a.y * u.y + a.z * u.z) * w.x + (b.x * u.x + b.y * u.y + b.z * u.z) * w.y
            + (c.x * u.x + c.y * u.y + c.z * u.z) * w.z
            == u.x * (a.x * w.x + b.x * w.y + c.x * w.z) + u.y * (a.y * w.x + b.y * w.y + c.y * w.z)
               + u.z * (a.z * w.x + b.z * w.y + c.z * w.z)
  {
  }

  /** The transpose is the adjoint. */
  lemma TransposeAdjoint(m: Mat, u: Vec, w: Vec)
    ensures Dot(Times(m, u), w) == Dot(u, Times(Transpose(m), w))
  {
    AdjointScalars(m.a, m.b, m.c, u, w);
  }

  lemma OrthogonalKeepsDot(m: Mat, u: Vec, v: Vec)
    requires OrthonormalRows(Transpose(m))
    ensures Dot(Times(m, u), Times(m, v)) == Dot(u, v)
  {
    hide Times, Dot, OrthonormalRows, Transpose;
    TransposeAdjoint(m, u, Times(m, v));
    TransposeUndoes(m, v);
  }

  lemma TimesSub(m: Mat, u: Vec, v: Vec)
    ensures Sub(Times(m, u), Times(m, v)) == Times(m, Sub(u, v))
  {
  }

  lemma TransposeUndoes(m: Mat, v: Vec)
    requires OrthonormalRows(Transpose(m))
    ensures Times(Transpose(m), Times(m, v)) == v
  {
    var t := Transpose(m);
    var r := Times(t, Times(m, v));
    assert r.x == v.x * Dot(t.a, t.a) + v.y * Dot(t.a, t.b) + v.z * Dot(t.a, t.c);
    assert r.y == v.x * Dot(t.a, t.b) + v.y * Dot(t.b, t.b) + v.z * Dot(t.b, t.c);
    assert r.z == v.x * Dot(t.a, t.c) + v.y * Dot(t.b, t.c) + v.z * Dot(t.c, t.c);
  }

  lemma UndoneColumns(m: Mat, n: Mat)
    requires forall v :: Times(n, Times(m, v)) == v
    requires n == Transpose(m)
    ensures OrthonormalRows(n)
  {
    var x, y, z := Vec(1.0, 0.0, 0.0), Vec(0.0, 1.0, 0.0), Vec(0.0, 0.0, 1.0);
    assert Times(n, Times(m, x)) == x && Times(n, Times(m, y)) == y && Times(n, Times(m, z)) == z;
    assert Times(m, x) == n.a && Times(m, y) == n.b && Times(m, z) == n.c;
    hide Dot;
    DotSwaps(n.a, n.b);
    DotSwaps(n.a, n.c);
    DotSwaps(n.b, n.c);
  }

  lemma DotSwaps(u: Vec, v: Vec)
    ensures Dot(u, v) == Dot(v, u)
  {
  }

  lemma TransposeTwice(m: Mat)
    ensures Transpose(Transpose(m)) == m
  {
  }

  /** A matrix is orthogonal exactly when its rows and its columns are orthonormal. */
  lemma OrthogonalIffOrthonormal(m: Mat)
    ensures Orthogonal(m) <==> OrthonormalRows(m) && OrthonormalRows(Transpose(m))
  {
    hide OrthonormalRows, Times, Transpose;
    TransposeTwice(m);
    if Orthogonal(m) {
      UndoneColumns(m, Transpose(m));
      UndoneColumns(Transpose(m), m);
    }
    if OrthonormalRows(m) && OrthonormalRows(Transpose(m)) {
      forall v ensures Times(Transpose(m), Times(m, v)) == v && Times(m, Times(Transpose(m), v)) == v {
        TransposeUndoes(m, v);
        TransposeUndoes(Transpose(m), v);
      }
    }
  }

  // ----- homogeneous transforms

  function Rotation(m: Transform): Mat {
    Mat(Vec(m.r0.x, m.r0.y, m.r0.z), Vec(m.r1.x, m.r1.y, m.r1.z), Vec(m.r2.x, m.r2.y, m.r2.z))
  }

  function Translation(m: Transform): Vec {
    Vec(m.r0.w, m.r1.w, m.r2.w)
  }

  /** `homogeneous @ transform.T`, first three columns. */
  function TransformPoint(p: Vec, m: Transform): Vec {
    var h := Quat(p.x, p.y, p.z, 1.0);
    Vec(Dot4(h, m.r0), Dot4(h, m.r1), Dot4(h, m.r2))
  }

  function TransformPoints(points: seq<Vec>, m: Transform): seq<Vec> {
    seq(|points|, i requires 0 <= i < |points| => TransformPoint(points[i], m))
  }

  function InvertTransform(m: Transform): Transform {
    var r := Transpose(Rotation(m));
    var s := Times(r, Translation(m));
    Transform(Quat(r.a.x, r.a.y, r.a.z, -s.x), Quat(r.b.x, r.b.y, r.b.z, -s.y), Quat(r.c.x, r.c.y, r.c.z, -s.z),
              Quat(0.0, 0.0, 0.0, 1.0))
  }

  /** `R p + t`. */
  function Apply(r: Mat, t: Vec, p: Vec): Vec {
    Add(Times(r, p), t)
  }

  /** `R' (p - t)`: the row-vector product `(p - t) @ R`. */
  function ApplyInverse(r: Mat, t: Vec, p: Vec): Vec {
    Times(Transpose(r), Sub(p, t))
  }

  lemma TransformIsApply(p: Vec, m: Transform)
    ensures TransformPoint(p, m) == Apply(Rotation(m), Translation(m), p)
  {
  }

  lemma InverseIsApplyInverse(p: Vec, m: Transform)
    ensures TransformPoint(p, InvertTransform(m)) == ApplyInverse(Rotation(m), Translation(m), p)
  {
  }

  lemma ApplyRoundTrip(r: Mat, t: Vec, p: Vec)
    requires OrthonormalRows(Transpose(r))
    ensures ApplyInverse(r, t, Apply(r, t, p)) == p
  {
    assert Sub(Apply(r, t, p), t) == Times(r, p) by {
      hide Times;
    }
    TransposeUndoes(r, p);
  }

  lemma InverseRoundTrip(r: Mat, t: Vec, p: Vec)
    requires OrthonormalRows(r)
    ensures Apply(r, t, ApplyInverse(r, t, p)) == p
  {
    TransposeTwice(r);
    TransposeUndoes(Transpose(r), Sub(p, t));
    hide Times, Transpose, Dot;
  }

  /** Inverting an orthonormal transform undoes it, in both orders. */
  lemma InvertUndoes(p: Vec, m: Transform)
    requires Orthogonal(Rotation(m))
    ensures TransformPoint(TransformPoint(p, m), InvertTransform(m)) == p
    ensures TransformPoint(TransformPoint(p, InvertTransform(m)), m) == p
  {
    var r, t := Rotation(m), Translation(m);
    OrthogonalIffOrthonormal(r);
    TransformIsApply(p, m);
    InverseIsApplyInverse(TransformPoint(p, m), m);
    ApplyRoundTrip(r, t, p);
    InverseIsApplyInverse(p, m);
    TransformIsApply(TransformPoint(p, InvertTransform(m)), m);
    hide TransformPoint, InvertTransform, Rotation, Translation;
    assert Transpose(Transpose(r)) == r;
    TransposeUndoes(Transpose(r), Sub(p, t));
    hide Times, Transpose;
  }

  lemma ApplyKeepsDistance(r: Mat, t: Vec, p: Vec, q: Vec)
    requires OrthonormalRows(Transpose(r))
    ensures Distance2(Apply(r, t, p), Apply(r, t, q)) == Distance2(p, q)
  {
    TimesSub(r, p, q);
    OrthogonalKeepsDot(r, Sub(p, q), Sub(p, q));
    hide Times, Dot, OrthonormalRows;
    assert Sub(Apply(r, t, p), Apply(r, t, q)) == Sub(Times(r, p), Times(r, q));
  }

  lemma ApplyInverseKeepsDistance(r: Mat, t: Vec, p: Vec, q: Vec)
    requires OrthonormalRows(r)
    ensures Distance2(ApplyInverse(r, t, p), ApplyInverse(r, t, q)) == Distance2(p, q)
  {
    var m := Transpose(r);
    assert Transpose(m) == r;
    TimesSub(m, Sub(p, t), Sub(q, t));
    OrthogonalKeepsDot(m, Sub(p, q), Sub(p, q));
    hide Times, Dot, OrthonormalRows, Transpose;
    assert Sub(Sub(p, t), Sub(q, t)) == Sub(p, q);
  }

  // ----- quaternions

  function Dot4(p: Quat, q: Quat): real {
    p.x * q.x + p.y * q.y + p.z * q.z + p.w * q.w
  }

  function Norm2(q: Quat): real {
    Dot4(q, q)
  }

  function Negate(q: Quat): Quat {
    Quat(-q.x, -q.y, -q.z, -q.w)
  }

  /** `a * p + b * q`. */
  function Combine(a: real, p: Quat, b: real, q: Quat): Quat {
    Quat(a * p.x + b * q.x, a * p.y + b * q.y, a * p.z + b * q.z, a * p.w + b * q.w)
  }

  const ZERO := Quat(0.0, 0.0, 0.0, 0.0)

  /** None stands for the ValueError on a zero norm. */
  function Normalize(nm: Numerics, q: Quat): Option<Quat> {
    var n := nm.sqrt(Norm2(q));
    if n == 0.0 then None else Some(Quat(q.x / n, q.y / n, q.z / n, q.w / n))
  }

  lemma ScaledNorm(q: Quat, n: real)
    requires n != 0.0 && n * n == Norm2(q)
    ensures Norm2(Quat(q.x / n, q.y / n, q.z / n, q.w / n)) == 1.0
  {
    QuotientsUnit(q.x, q.y, q.z, q.w, n, q.x / n, q.y / n, q.z / n, q.w / n);
  }

  lemma QuotientsUnit(x: real, y: real, z: real, w: real, n: real, a: real, b: real, c: real, d: real)
    requires n != 0.0 && n * n == x * x + y * y + z * z + w * w
    requires a * n == x && b * n == y && c * n == z && d * n == w
    ensures a * a + b * b + c * c + d * d == 1.0
  {
    var s := a * a + b * b + c * c + d * d;
    assert (n * n) * (s - 1.0) == 0.0 by {
      SquaresScale(a, b, c, d, n);
    }
    NoZeroDivisors(n * n, s - 1.0);
    if n * n == 0.0 {
      NoZeroDivisors(n, n);
    }
  }

  lemma SquaresScale(a: real, b: real, c: real, d: real, n: real)
    ensures (a * n) * (a * n) + (b * n) * (b * n) + (c * n) * (c * n) + (d * n) * (d * n)
            == (n * n) * (a * a + b * b + c * c + d * d)
  {
  }

  lemma NoZeroDivisors(a: real, b: real)
    requires a * b == 0.0
    ensures a == 0.0 || b == 0.0
  {
  }

  /** Only the zero quaternion is refused; every other is scaled to norm one. */
  lemma NormalizeUnit(nm: Numerics, q: Quat)
    requires SqrtLaw(nm)
    ensures Normalize(nm, q).None? <==> q == ZERO
    ensures Normalize(nm, q).Some? ==> Norm2(Normalize(nm, q).value) == 1.0
  {
    SquaresSum(q);
    hide Norm2;
    var n := nm.sqrt(Norm2(q));
    assert n * n == Norm2(q);
    if n != 0.0 {
      ScaledNorm(q, n);
      Square(n);
    }
  }

  lemma SquaresSum(q: Quat)
    ensures Norm2(q) >= 0.0 && (Norm2(q) == 0.0 <==> q == ZERO)
  {
    Square(q.x);
    Square(q.y);
    Square(q.z);
    Square(q.w);
  }

  lemma Square(a: real)
    ensures a * a >= 0.0 && (a * a == 0.0 <==> a == 0.0)
  {
    if a * a == 0.0 {
      NoZeroDivisors(a, a);
    }
  }

  lemma NormalizeFixesUnit(nm: Numerics, q: Quat)
    requires SqrtLaw(nm) && Norm2(q) == 1.0
    ensures Normalize(nm, q) == Some(q)
  {
    var n := nm.sqrt(1.0);
    assert n * n == 1.0 && n >= 0.0;
    NoZeroDivisors(n - 1.0, n + 1.0);
  }

  // ----- rotation matrices

  function Diagonal(a: real, b: real): real {
    1.0 - 2.0 * (a * a + b * b)
  }

  function OffDiagonal(a: real, b: real, w: real, c: real): real {
    2.0 * (a * b + w * c)
  }

  function FirstRow(q: Quat): Vec {
    Vec(Diagonal(q.y, q.z), OffDiagonal(q.x, q.y, -q.w, q.z), OffDiagonal(q.x, q.z, q.w, q.y))
  }

  function SecondRow(q: Quat): Vec {
    Vec(OffDiagonal(q.x, q.y, q.w, q.z), Diagonal(q.x, q.z), OffDiagonal(q.y, q.z, -q.w, q.x))
  }

  function ThirdRow(q: Quat): Vec {
    Vec(OffDiagonal(q.x, q.z, -q.w, q.y), OffDiagonal(q.y, q.z, q.w, q.x), Diagonal(q.x, q.y))
  }

  /** The matrix of a unit quaternion. */
  function RotationMatrix(q: Quat): Mat {
    Mat(FirstRow(q), SecondRow(q), ThirdRow(q))
  }

  function QuaternionToRotationMatrix(nm: Numerics, q: Quat): Option<Mat> {
    match Normalize(nm, q)
    case None => None
    case Some(u) => Some(RotationMatrix(u))
  }

  lemma SumOfSquares(x: real, y: real, z: real, w: real)
    ensures (x * y - w * z) * (x * y - w * z) + (x * z + w * y) * (x * z + w * y)
            == (x * x + w * w) * (y * y + z * z)
  {
    var a, b, c, d := x * y, w * z, x * z, w * y;
    assert a * b == c * d;
    assert a * a == (x * x) * (y * y);
    assert b * b == (w * w) * (z * z);
    assert c * c == (x * x) * (z * z);
    assert d * d == (w * w) * (y * y);
  }

  lemma UnitFromSquares(s: real, f: real, g: real)
    requires f * f + g * g == (1.0 - s) * s
    ensures (1.0 - 2.0 * s) * (1.0 - 2.0 * s) + (2.0 * f) * (2.0 * f) + (2.0 * g) * (2.0 * g) == 1.0
  {
  }

  lemma RowUnit(x: real, y: real, z: real, w: real, d: real, f: real, g: real)
    requires x * x + y * y + z * z + w * w == 1.0
    requires d == Diagonal(y, z) && f == OffDiagonal(x, y, -w, z) && g == OffDiagonal(x, z, w, y)
    ensures d * d + f * f + g * g == 1.0
  {
    SumOfSquares(x, y, z, w);
    UnitFromSquares(y * y + z * z, x * y - w * z, x * z + w * y);
  }

  lemma RowsCross(x: real, y: real, z: real, w: real)
    ensures (1.0 - 2.0 * (y * y + z * z)) * (2.0 * (x * y + w * z))
            + (2.0 * (x * y - w * z)) * (1.0 - 2.0 * (x * x + z * z))
            + (2.0 * (x * z + w * y)) * (2.0 * (y * z - w * x))
            == 4.0 * (x * y) * (1.0 - (x * x + y * y + z * z + w * w))
  {
  }

  lemma DotOf(u: Vec, v: Vec, a: real, b: real, c: real, d: real, e: real, f: real)
    requires u == Vec(a, b, c) && v == Vec(d, e, f)
    ensures Dot(u, v) == a * d + b * e + c * f
  {
  }

  /** The entries with the minus sign taken out of the product. */
  lemma EntryForms(x: real, y: real, z: real, w: real)
    ensures OffDiagonal(x, y, -w, z) == 2.0 * (x * y - w * z)
    ensures OffDiagonal(x, z, w, y) == 2.0 * (x * z + w * y)
    ensures OffDiagonal(x, y, w, z) == 2.0 * (x * y + w * z)
    ensures OffDiagonal(y, z, -w, x) == 2.0 * (y * z - w * x)
    ensures Diagonal(y, z) == 1.0 - 2.0 * (y * y + z * z) && Diagonal(x, z) == 1.0 - 2.0 * (x * x + z * z)
  {
  }

  lemma TimesZero(a: real, b: real)
    requires b == 0.0
    ensures a * b == 0.0
  {
  }

  lemma RowPairCross(x: real, y: real, z: real, w: real, u: Vec, v: Vec)
    requires x * x + y * y + z * z + w * w == 1.0
    requires u == Vec(Diagonal(y, z), OffDiagonal(x, y, -w, z), OffDiagonal(x, z, w, y))
    requires v == Vec(OffDiagonal(x, y, w, z), Diagonal(x, z), OffDiagonal(y, z, -w, x))
    ensures Dot(u, v) == 0.0
  {
    hide Dot, Diagonal, OffDiagonal;
    EntryForms(x, y, z, w);
    DotOf(u, v, 1.0 - 2.0 * (y * y + z * z), 2.0 * (x * y - w * z), 2.0 * (x * z + w * y),
          2.0 * (x * y + w * z), 1.0 - 2.0 * (x * x + z * z), 2.0 * (y * z - w * x));
    RowsCross(x, y, z, w);
    TimesZero(4.0 * (x * y), 1.0 - (x * x + y * y + z * z + w * w));
  }

  lemma FirstPair(q: Quat)
    requires Norm2(q) == 1.0
    ensures var m := RotationMatrix(q); Dot(m.a, m.a) == 1.0 && Dot(m.a, m.b) == 0.0
  {
    hide Diagonal, OffDiagonal;
    var m := RotationMatrix(q);
    RowUnit(q.x, q.y, q.z, q.w, m.a.x, m.a.y, m.a.z);
    RowPairCross(q.x, q.y, q.z, q.w, m.a, m.b);
  }

  function Turned(u: Vec): Vec {
    Vec(u.y, u.z, u.x)
  }

  lemma EntriesSymmetric(a: real, b: real, w: real, c: real)
    ensures Diagonal(a, b) == Diagonal(b, a) && OffDiagonal(a, b, w, c) == OffDiagonal(b, a, w, c)
  {
  }

  /** Renaming the axes x, y, z to y, z, x renames rows and columns alike. */
  lemma MatrixTurned(q: Quat)
    ensures var m, n := RotationMatrix(q), RotationMatrix(Quat(q.y, q.z, q.x, q.w));
      n == Mat(Turned(m.b), Turned(m.c), Turned(m.a))
  {
    hide Diagonal, OffDiagonal;
    EntriesSymmetric(q.x, q.y, q.w, q.z);
    EntriesSymmetric(q.x, q.z, -q.w, q.y);
    EntriesSymmetric(q.x, q.y, -q.w, q.z);
    EntriesSymmetric(q.x, q.z, q.w, q.y);
  }

  lemma DotTurned(u: Vec, v: Vec)
    ensures Dot(Turned(u), Turned(v)) == Dot(u, v) == Dot(v, u)
  {
  }

  lemma NormTurned(q: Quat)
    ensures Norm2(Quat(q.y, q.z, q.x, q.w)) == Norm2(q)
  {
  }

  lemma RowsOrthonormal(q: Quat)
    requires Norm2(q) == 1.0
    ensures OrthonormalRows(RotationMatrix(q))
  {
    hide Norm2, RotationMatrix, Dot, Turned;
    var r := Quat(q.y, q.z, q.x, q.w);
    var s := Quat(r.y, r.z, r.x, r.w);
    NormTurned(q);
    NormTurned(r);
    FirstPair(q);
    FirstPair(r);
    FirstPair(s);
    MatrixTurned(q);
    MatrixTurned(r);
    var m, n := RotationMatrix(q), RotationMatrix(r);
    DotTurned(m.b, m.b);
    DotTurned(m.b, m.c);
    DotTurned(n.b, n.b);
    DotTurned(n.b, n.c);
    DotTurned(m.c, m.c);
    DotTurned(m.c, m.a);
  }

  /** The matrix of every unit quaternion is orthogonal: the transpose belongs to the conjugate. */
  lemma RotationOrthogonal(q: Quat)
    requires Norm2(q) == 1.0
    ensures Orthogonal(RotationMatrix(q))
  {
    var c := Quat(q.x, q.y, q.z, -q.w);
    assert Norm2(c) == 1.0;
    hide Norm2, Dot, Diagonal, OffDiagonal;
    RowsOrthonormal(q);
    RowsOrthonormal(c);
    assert Transpose(RotationMatrix(q)) == RotationMatrix(c);
    OrthogonalIffOrthonormal(RotationMatrix(q));
  }

  lemma EntriesOfNegative(a: real, b: real, w: real, c: real)
    ensures Diagonal(-a, -b) == Diagonal(a, b) && OffDiagonal(-a, -b, -w, -c) == OffDiagonal(a, b, w, c)
  {
  }

  /** A quaternion and its negative are the same rotation. */
  lemma RotationOfNegative(q: Quat)
    ensures RotationMatrix(Negate(q)) == RotationMatrix(q)
  {
    hide Diagonal, OffDiagonal;
    EntriesOfNegative(q.x, q.y, q.w, q.z);
    EntriesOfNegative(q.x, q.y, -q.w, q.z);
    EntriesOfNegative(q.x, q.z, q.w, q.y);
    EntriesOfNegative(q.x, q.z, -q.w, q.y);
    EntriesOfNegative(q.y, q.z, q.w, q.x);
    EntriesOfNegative(q.y, q.z, -q.w, q.x);
  }

  function Alternating(a: real, b: real, c: real, d: real, e: real, f: real, g: real, h: real): real {
    a * b + c * d + e * f - g * h
  }

  /** The Hamilton product. */
  function Hamilton(p: Quat, q: Quat): Quat {
    Quat(Alternating(p.w, q.x, p.x, q.w, p.y, q.z, p.z, q.y),
         Alternating(p.w, q.y, p.y, q.w, p.z, q.x, p.x, q.z),
         Alternating(p.w, q.z, p.z, q.w, p.x, q.y, p.y, q.x),
         Alternating(p.w, q.w, -p.x, q.x, -p.y, q.y, p.z, q.z))
  }

  function Conjugate(q: Quat): Quat {
    Quat(-q.x, -q.y, -q.z, q.w)
  }

  /** The first component of `q v q*`; the others follow by turning the axes. */
  function Image(x: real, y: real, z: real, w: real, a: real, b: real, c: real): real {
    (x * a + y * b + z * c) * x + (w * a + y * c - z * b) * w - (w * b + z * a - x * c) * z
    + (w * c + x * b - y * a) * y
  }

  lemma ImageDefect(x: real, y: real, z: real, w: real, a: real, b: real, c: real)
    ensures Image(x, y, z, w, a, b, c)
            == (1.0 - 2.0 * (y * y + z * z)) * a + (2.0 * (x * y - w * z)) * b + (2.0 * (x * z + w * y)) * c
               + a * (x * x + y * y + z * z + w * w - 1.0)
  {
  }

  lemma ImageOfUnit(x: real, y: real, z: real, w: real, a: real, b: real, c: real)
    requires x * x + y * y + z * z + w * w == 1.0
    ensures Image(x, y, z, w, a, b, c)
            == (1.0 - 2.0 * (y * y + z * z)) * a + (2.0 * (x * y - w * z)) * b + (2.0 * (x * z + w * y)) * c
  {
    hide Image;
    ImageDefect(x, y, z, w, a, b, c);
    var s := x * x + y * y + z * z + w * w - 1.0;
    TimesZero(a, s);
  }

  lemma FirstImage(q: Quat, v: Vec)
    requires Norm2(q) == 1.0
    ensures Times(RotationMatrix(q), v).x == Image(q.x, q.y, q.z, q.w, v.x, v.y, v.z)
  {
    var (x, y, z, w) := (q.x, q.y, q.z, q.w);
    assert x * x + y * y + z * z + w * w == 1.0;
    hide Dot, Image, Diagonal, OffDiagonal, Norm2;
    EntryForms(x, y, z, w);
    DotOf(FirstRow(q), v, 1.0 - 2.0 * (y * y + z * z), 2.0 * (x * y - w * z), 2.0 * (x * z + w * y), v.x, v.y, v.z);
    ImageOfUnit(x, y, z, w, v.x, v.y, v.z);
  }

  function TurnedQuat(q: Quat): Quat {
    Quat(q.y, q.z, q.x, q.w)
  }

  lemma NextImage(q: Quat, v: Vec)
    requires Norm2(q) == 1.0
    ensures Times(RotationMatrix(q), v).y == Image(q.y, q.z, q.x, q.w, v.y, v.z, v.x)
  {
    hide Dot, Image, Norm2, RotationMatrix;
    NormTurned(q);
    MatrixTurned(q);
    DotTurned(RotationMatrix(q).b, v);
    FirstImage(TurnedQuat(q), Turned(v));
  }

  lemma LastImage(q: Quat, v: Vec)
    requires Norm2(q) == 1.0
    ensures Times(RotationMatrix(q), v).z == Image(q.z, q.x, q.y, q.w, v.z, v.x, v.y)
  {
    hide Dot, Image, Norm2, RotationMatrix;
    NormTurned(q);
    MatrixTurned(q);
    DotTurned(RotationMatrix(q).c, v);
    NextImage(TurnedQuat(q), Turned(v));
  }

  lemma AlternatingSigns(s: real, x: real, i: real, w: real, j: real, z: real, k: real, y: real)
    ensures Alternating(-s, -x, i, w, j, -z, k, -y) == s * x + i * w - j * z + k * y
  {
  }

  /** The entries of `q v`. */
  lemma LeftProduct(x: real, y: real, z: real, w: real, a: real, b: real, c: real)
    ensures Alternating(w, a, x, 0.0, y, c, z, b) == w * a + y * c - z * b
    ensures Alternating(w, b, y, 0.0, z, a, x, c) == w * b + z * a - x * c
    ensures Alternating(w, c, z, 0.0, x, b, y, a) == w * c + x * b - y * a
    ensures Alternating(w, 0.0, -x, a, -y, b, z, c) == -(x * a + y * b + z * c)
    ensures Alternating(w, 0.0, -x, a, -y, b, z, c) == Alternating(w, 0.0, -y, b, -z, c, x, a)
            == Alternating(w, 0.0, -z, c, -x, a, y, b)
  {
  }

  lemma ConjugatedEntry(x: real, y: real, z: real, w: real, a: real, b: real, c: real)
    ensures var (i, j, k, l) := (Alternating(w, a, x, 0.0, y, c, z, b), Alternating(w, b, y, 0.0, z, a, x, c),
                                 Alternating(w, c, z, 0.0, x, b, y, a), Alternating(w, 0.0, -x, a, -y, b, z, c));
      Alternating(l, -x, i, w, j, -z, k, -y) == Image(x, y, z, w, a, b, c)
  {
    hide Alternating;
    LeftProduct(x, y, z, w, a, b, c);
    AlternatingSigns(x * a + y * b + z * c, x, w * a + y * c - z * b, w, w * b + z * a - x * c, z,
                     w * c + x * b - y * a, y);
  }

  lemma ConjugatedRealPart(x: real, y: real, z: real, w: real, a: real, b: real, c: real)
    ensures var (i, j, k, l) := (Alternating(w, a, x, 0.0, y, c, z, b), Alternating(w, b, y, 0.0, z, a, x, c),
                                 Alternating(w, c, z, 0.0, x, b, y, a), Alternating(w, 0.0, -x, a, -y, b, z, c));
      Alternating(l, w, -i, -x, -j, -y, k, -z) == 0.0
  {
  }

  lemma ConjugationEntries(q: Quat, v: Vec)
    ensures var r := Hamilton(Hamilton(q, Quat(v.x, v.y, v.z, 0.0)), Conjugate(q));
      && r.x == Image(q.x, q.y, q.z, q.w, v.x, v.y, v.z) && r.y == Image(q.y, q.z, q.x, q.w, v.y, v.z, v.x)
      && r.z == Image(q.z, q.x, q.y, q.w, v.z, v.x, v.y) && r.w == 0.0
  {
    hide Alternating, Image;
    ConjugatedEntry(q.x, q.y, q.z, q.w, v.x, v.y, v.z);
    ConjugatedEntry(q.y, q.z, q.x, q.w, v.y, v.z, v.x);
    ConjugatedEntry(q.z, q.x, q.y, q.w, v.z, v.x, v.y);
    ConjugatedRealPart(q.x, q.y, q.z, q.w, v.x, v.y, v.z);
    LeftProduct(q.x, q.y, q.z, q.w, v.x, v.y, v.z);
  }

  /** The matrix of a unit quaternion turns a vector as the quaternion does: `q v q*`. */
  lemma RotationIsConjugation(q: Quat, v: Vec)
    requires Norm2(q) == 1.0
    ensures var r := Times(RotationMatrix(q), v);
      Quat(r.x, r.y, r.z, 0.0) == Hamilton(Hamilton(q, Quat(v.x, v.y, v.z, 0.0)), Conjugate(q))
  {
    hide Dot, Image, Norm2, RotationMatrix, Hamilton, Times;
    FirstImage(q, v);
    NextImage(q, v);
    LastImage(q, v);
    ConjugationEntries(q, v);
  }

  /** Every nonzero quaternion, of whatever norm, yields an orthogonal matrix; the zero one an error. */
  lemma MatrixOrthogonal(nm: Numerics, q: Quat)
    requires SqrtLaw(nm)
    ensures QuaternionToRotationMatrix(nm, q).None? <==> q == ZERO
    ensures q != ZERO ==> Orthogonal(QuaternionToRotationMatrix(nm, q).value)
  {
    NormalizeUnit(nm, q);
    hide Orthogonal, RotationMatrix;
    if q != ZERO {
      RotationOrthogonal(Normalize(nm, q).value);
    }
  }

  // ----- spherical interpolation

  const LINEAR_FROM := 0.9995

  /** `a + t * (b - a)`. */
  function Lerp(a: Quat, b: Quat, t: real): Quat {
    Quat(a.x + t * (b.x - a.x), a.y + t * (b.y - a.y), a.z + t * (b.z - a.z), a.w + t * (b.w - a.w))
  }

  /** `b`, or its negative when that is nearer to `a`. */
  function Facing(a: Quat, b: Quat): Quat {
    if Dot4(a, b) < 0.0 then Negate(b) else b
  }

  function Clip(d: real): real {
    if d < -1.0 then -1.0 else if d > 1.0 then 1.0 else d
  }

  /** One row of `slerp_quaternion_xyzw`; None stands for the ValueError on a zero norm. */
  function Slerp(nm: Numerics, q0: Quat, q1: Quat, t: real): Option<Quat> {
    match (Normalize(nm, q0), Normalize(nm, q1))
    case (Some(a), Some(b)) =>
      var near := Facing(a, b);
      var dot := Clip(if Dot4(a, b) < 0.0 then -Dot4(a, b) else Dot4(a, b));
      if dot > LINEAR_FROM then Normalize(nm, Lerp(a, near, t))
      else Arc(nm, a, near, dot, Angle(nm, dot, t))
    case _ => None
  }

  /** The fraction `t` of the angle between the two orientations. */
  function Angle(nm: Numerics, dot: real, t: real): real {
    nm.arccos(dot) * t
  }

  /** The spherical branch: `a` turned by `theta` towards `b`, where `a . b == dot`. */
  function Arc(nm: Numerics, a: Quat, b: Quat, dot: real, theta: real): Option<Quat> {
    match Normalize(nm, Combine(1.0, b, -dot, a))
    case None => None
    case Some(side) => Some(Combine(nm.cos(theta), a, nm.sin(theta), side))
  }

  lemma CombineScalars(s: real, t: real, a: real, b: real)
    ensures (s * a + t * b) * (s * a + t * b) == (s * s) * (a * a) + (2.0 * s * t) * (a * b) + (t * t) * (b * b)
    ensures a * (s * a + t * b) == s * (a * a) + t * (a * b)
  {
  }

  lemma CombineProducts(s: real, p: Quat, t: real, q: Quat)
    ensures Norm2(Combine(s, p, t, q)) == (s * s) * Norm2(p) + (2.0 * s * t) * Dot4(p, q) + (t * t) * Norm2(q)
    ensures Dot4(p, Combine(s, p, t, q)) == s * Norm2(p) + t * Dot4(p, q)
  {
    CombineScalars(s, t, p.x, q.x);
    CombineScalars(s, t, p.y, q.y);
    CombineScalars(s, t, p.z, q.z);
    CombineScalars(s, t, p.w, q.w);
  }

  lemma FacingNear(a: Quat, b: Quat)
    ensures Dot4(a, Facing(a, b)) == (if Dot4(a, b) < 0.0 then -Dot4(a, b) else Dot4(a, b)) >= 0.0
    ensures Norm2(Facing(a, b)) == Norm2(b)
  {
  }

  lemma LerpIsCombine(a: Quat, b: Quat, t: real)
    ensures Lerp(a, b, t) == Combine(1.0 - t, a, t, b)
  {
  }

  lemma ProductNonnegative(a: real, b: real)
    requires a >= 0.0 && b >= 0.0
    ensures a * b >= 0.0
  {
  }

  lemma LerpPositive(m: real, d: real, n: real, t: real)
    requires 0.0 <= t <= 1.0 && d >= 0.0 && m == 1.0 && n == 1.0
    ensures ((1.0 - t) * (1.0 - t)) * m + (2.0 * (1.0 - t) * t) * d + (t * t) * n > 0.0
  {
    ProductNonnegative(1.0 - t, t);
    ProductNonnegative((1.0 - t) * t, d);
    Square(t);
    Square(1.0 - t);
  }

  lemma LerpNonzero(a: Quat, b: Quat, t: real)
    requires Norm2(a) == 1.0 && Norm2(b) == 1.0 && Dot4(a, b) >= 0.0 && 0.0 <= t <= 1.0
    ensures Lerp(a, b, t) != ZERO
  {
    hide Lerp, Dot4, Norm2, Combine;
    LerpIsCombine(a, b, t);
    CombineProducts(1.0 - t, a, t, b);
    LerpPositive(Norm2(a), Dot4(a, b), Norm2(b), t);
    SquaresSum(Lerp(a, b, t));
  }

  /** The side vector of the arc: at right angles to `a`, and nonzero. */
  lemma ArcSide(a: Quat, b: Quat, dot: real)
    requires Norm2(a) == 1.0 && Norm2(b) == 1.0 && Dot4(a, b) == dot && 0.0 <= dot <= LINEAR_FROM
    ensures var r := Combine(1.0, b, -dot, a);
      Norm2(r) == 1.0 - dot * dot > 0.0 && Dot4(a, r) == 0.0 && r != ZERO
  {
    var r := Combine(1.0, b, -dot, a);
    CombineProducts(1.0, b, -dot, a);
    CombineProducts(-dot, a, 1.0, b);
    DotSymmetric(a, b);
    CombineSwaps(1.0, b, -dot, a);
    SideScalars(dot, Norm2(b), Dot4(b, a), Norm2(a));
    SquaresSum(r);
    hide Dot4, Norm2, Combine;
  }

  lemma SideScalars(d: real, m: real, e: real, n: real)
    requires m == 1.0 && e == d && n == 1.0 && 0.0 <= d <= LINEAR_FROM
    ensures (1.0 * 1.0) * m + (2.0 * 1.0 * -d) * e + (-d * -d) * n == 1.0 - d * d > 0.0
    ensures -d * n + 1.0 * e == 0.0
  {
    assert d * d <= d;
  }

  lemma DotSymmetric(a: Quat, b: Quat)
    ensures Dot4(a, b) == Dot4(b, a)
  {
  }

  lemma CombineSwaps(s: real, p: Quat, t: real, q: Quat)
    ensures Combine(s, p, t, q) == Combine(t, q, s, p)
  {
  }

  /** Scaling keeps the right angle. */
  lemma NormalizedDot(nm: Numerics, a: Quat, r: Quat)
    requires Normalize(nm, r).Some? && Dot4(a, r) == 0.0
    ensures Dot4(a, Normalize(nm, r).value) == 0.0
  {
    var n := nm.sqrt(Norm2(r));
    var u := Normalize(nm, r).value;
    assert u.x * n == r.x && u.y * n == r.y && u.z * n == r.z && u.w * n == r.w;
    DotScaled(a.x, a.y, a.z, a.w, u.x, u.y, u.z, u.w, n);
    NoZeroDivisors(n, Dot4(a, u));
  }

  lemma DotScaled(a: real, b: real, c: real, d: real, x: real, y: real, z: real, w: real, n: real)
    ensures a * (x * n) + b * (y * n) + c * (z * n) + d * (w * n) == n * (a * x + b * y + c * z + d * w)
  {
  }

  lemma UnitOfRightAngle(c: real, s: real, m: real, d: real, n: real)
    requires c * c + s * s == 1.0 && m == 1.0 && d == 0.0 && n == 1.0
    ensures (c * c) * m + (2.0 * c * s) * d + (s * s) * n == 1.0
  {
  }

  lemma ArcUnit(nm: Numerics, a: Quat, b: Quat, dot: real, theta: real)
    requires Lawful(nm)
    requires Norm2(a) == 1.0 && Norm2(b) == 1.0 && Dot4(a, b) == dot && 0.0 <= dot <= LINEAR_FROM
    ensures Arc(nm, a, b, dot, theta).Some? && Norm2(Arc(nm, a, b, dot, theta).value) == 1.0
  {
    var r := Combine(1.0, b, -dot, a);
    hide Dot4, Norm2, Combine, Normalize, SqrtLaw;
    ArcSide(a, b, dot);
    NormalizeUnit(nm, r);
    NormalizedDot(nm, a, r);
    var side := Normalize(nm, r).value;
    var c, s := nm.cos(theta), nm.sin(theta);
    CombineProducts(c, a, s, side);
    UnitOfRightAngle(c, s, Norm2(a), Dot4(a, side), Norm2(side));
  }

  /** Interpolating between nonzero quaternions never fails and always yields a unit quaternion. */
  lemma SlerpUnit(nm: Numerics, q0: Quat, q1: Quat, t: real)
    requires Lawful(nm) && 0.0 <= t <= 1.0
    ensures Slerp(nm, q0, q1, t).None? <==> q0 == ZERO || q1 == ZERO
    ensures Slerp(nm, q0, q1, t).Some? ==> Norm2(Slerp(nm, q0, q1, t).value) == 1.0
  {
    NormalizeUnit(nm, q0);
    NormalizeUnit(nm, q1);
    if q0 != ZERO && q1 != ZERO {
      var a, b := Normalize(nm, q0).value, Normalize(nm, q1).value;
      var near := Facing(a, b);
      FacingNear(a, b);
      var dot := Clip(if Dot4(a, b) < 0.0 then -Dot4(a, b) else Dot4(a, b));
      if dot <= LINEAR_FROM {
        ArcUnit(nm, a, near, dot, Angle(nm, dot, t));
      } else {
        LerpNonzero(a, near, t);
        NormalizeUnit(nm, Lerp(a, near, t));
      }
      hide Dot4, Norm2, Normalize, Lawful, SqrtLaw, TrigLaw, Arc, Lerp, Facing, Angle;
    }
  }

  /** Whatever the ratio, what interpolation yields is a unit quaternion. */
  lemma SlerpSomeUnit(nm: Numerics, q0: Quat, q1: Quat, t: real)
    requires Lawful(nm) && Slerp(nm, q0, q1, t).Some?
    ensures Norm2(Slerp(nm, q0, q1, t).value) == 1.0
  {
    NormalizeUnit(nm, q0);
    NormalizeUnit(nm, q1);
    var a, b := Normalize(nm, q0).value, Normalize(nm, q1).value;
    var near := Facing(a, b);
    FacingNear(a, b);
    var dot := Clip(if Dot4(a, b) < 0.0 then -Dot4(a, b) else Dot4(a, b));
    if dot <= LINEAR_FROM {
      ArcUnit(nm, a, near, dot, Angle(nm, dot, t));
    } else {
      NormalizeUnit(nm, Lerp(a, near, t));
    }
    hide Dot4, Norm2, Normalize, Lawful, SqrtLaw, TrigLaw, Arc, Lerp, Facing, Angle;
  }

  lemma ArcAngle(nm: Numerics, a: Quat, b: Quat, dot: real, theta: real)
    requires SqrtLaw(nm)
    requires Norm2(a) == 1.0 && Norm2(b) == 1.0 && Dot4(a, b) == dot && 0.0 <= dot <= LINEAR_FROM
    ensures Arc(nm, a, b, dot, theta).Some? && Dot4(a, Arc(nm, a, b, dot, theta).value) == nm.cos(theta)
  {
    var r := Combine(1.0, b, -dot, a);
    hide Dot4, Norm2, Combine, Normalize, SqrtLaw;
    ArcSide(a, b, dot);
    NormalizeUnit(nm, r);
    NormalizedDot(nm, a, r);
    var side := Normalize(nm, r).value;
    var c, s := nm.cos(theta), nm.sin(theta);
    CombineProducts(c, a, s, side);
    TimesZero(s, Dot4(a, side));
  }

  /** On the spherical branch, taken for a cosine of at most 0.9995, the result lies at the fraction `t` of the
      angle, seen from the first orientation; on the other it is the normalised linear blend. */
  lemma SlerpAngle(nm: Numerics, q0: Quat, q1: Quat, t: real, a: Quat, near: Quat, dot: real, theta: real)
    requires SqrtLaw(nm) && q0 != ZERO && q1 != ZERO
    requires Normalize(nm, q0) == Some(a) && Normalize(nm, q1).Some?
    requires near == (var b := Normalize(nm, q1).value; if Dot4(a, b) < 0.0 then Negate(b) else b)
    requires dot == Dot4(a, near) && theta == nm.arccos(dot) * t
    ensures 0.0 <= dot <= 1.0
    ensures dot <= 0.9995 ==> Slerp(nm, q0, q1, t).Some? && Dot4(a, Slerp(nm, q0, q1, t).value) == nm.cos(theta)
    ensures dot > 0.9995 ==> Slerp(nm, q0, q1, t) == Normalize(nm, Combine(1.0 - t, a, t, near))
  {
    NormalizeUnit(nm, q0);
    NormalizeUnit(nm, q1);
    var b := Normalize(nm, q1).value;
    FacingNear(a, b);
    LerpIsCombine(a, near, t);
    DotOfUnits(a, near);
    AngleScales(nm, dot, t);
    hide Dot4, Norm2, Normalize, SqrtLaw, Arc, Lerp, Negate, Combine, Angle;
    assert Clip(if Dot4(a, b) < 0.0 then -Dot4(a, b) else Dot4(a, b)) == dot;
    if dot <= LINEAR_FROM {
      ArcAngle(nm, a, near, dot, theta);
    }
  }

  lemma AngleScales(nm: Numerics, dot: real, t: real)
    ensures Angle(nm, dot, t) == nm.arccos(dot) * t
  {
  }

  /** The product of two unit quaternions is at most one. */
  lemma DotOfUnits(a: Quat, b: Quat)
    requires Norm2(a) == 1.0 && Norm2(b) == 1.0
    ensures Dot4(a, b) <= 1.0
  {
    CombineProducts(1.0, a, -1.0, b);
    SquaresSum(Combine(1.0, a, -1.0, b));
    hide Dot4, Norm2, Combine;
  }

  /** The spherical result lies on the great circle through both orientations, on the second one's side. */
  lemma SlerpOnArc(nm: Numerics, q0: Quat, q1: Quat, t: real, a: Quat, near: Quat, dot: real, theta: real)
    returns (side: Quat, n: real)
    requires SqrtLaw(nm) && q0 != ZERO && q1 != ZERO
    requires Normalize(nm, q0) == Some(a) && Normalize(nm, q1).Some?
    requires near == (var b := Normalize(nm, q1).value; if Dot4(a, b) < 0.0 then Negate(b) else b)
    requires dot == Dot4(a, near) <= 0.9995 && theta == nm.arccos(dot) * t
    ensures Norm2(side) == 1.0 && Dot4(a, side) == 0.0 && n > 0.0 && near == Combine(dot, a, n, side)
    ensures Slerp(nm, q0, q1, t) == Some(Combine(nm.cos(theta), a, nm.sin(theta), side))
  {
    NormalizeUnit(nm, q0);
    NormalizeUnit(nm, q1);
    var b := Normalize(nm, q1).value;
    FacingNear(a, b);
    AngleScales(nm, dot, t);
    hide Dot4, Norm2, Normalize, Lerp, Combine, Negate, Angle;
    side, n := ArcSideUnit(nm, a, near, dot);
    assert Clip(if Dot4(a, b) < 0.0 then -Dot4(a, b) else Dot4(a, b)) == dot;
  }

  lemma ArcSideUnit(nm: Numerics, a: Quat, b: Quat, dot: real) returns (side: Quat, n: real)
    requires SqrtLaw(nm)
    requires Norm2(a) == 1.0 && Norm2(b) == 1.0 && Dot4(a, b) == dot && 0.0 <= dot <= LINEAR_FROM
    ensures Norm2(side) == 1.0 && Dot4(a, side) == 0.0 && n > 0.0 && b == Combine(dot, a, n, side)
    ensures forall theta :: Arc(nm, a, b, dot, theta) == Some(Combine(nm.cos(theta), a, nm.sin(theta), side))
  {
    var r := Combine(1.0, b, -dot, a);
    ArcSide(a, b, dot);
    NormalizeUnit(nm, r);
    NormalizedDot(nm, a, r);
    side, n := Normalize(nm, r).value, nm.sqrt(Norm2(r));
    assert n >= 0.0;
    hide Dot4, Norm2, Combine, SqrtLaw;
    ArcEndVector(dot, a, b, n);
  }

  lemma LerpEnds(a: Quat, b: Quat)
    ensures Lerp(a, b, 0.0) == a && Lerp(a, b, 1.0) == b && forall t :: Lerp(a, a, t) == a
  {
  }

  lemma ArcStart(nm: Numerics, a: Quat, b: Quat, dot: real)
    requires Lawful(nm)
    requires Norm2(a) == 1.0 && Norm2(b) == 1.0 && Dot4(a, b) == dot && 0.0 <= dot <= LINEAR_FROM
    ensures Arc(nm, a, b, dot, 0.0) == Some(a)
  {
    var r := Combine(1.0, b, -dot, a);
    ArcSide(a, b, dot);
    NormalizeUnit(nm, r);
    hide Dot4, Norm2;
  }

  lemma EqualSquares(a: real, b: real)
    requires a >= 0.0 && b >= 0.0 && a * a == b * b
    ensures a == b
  {
    assert (a - b) * (a + b) == 0.0;
    NoZeroDivisors(a - b, a + b);
  }

  lemma ArcEnd(nm: Numerics, a: Quat, b: Quat, dot: real)
    requires Lawful(nm)
    requires Norm2(a) == 1.0 && Norm2(b) == 1.0 && Dot4(a, b) == dot && 0.0 <= dot <= LINEAR_FROM
    ensures Arc(nm, a, b, dot, nm.arccos(dot)) == Some(b)
  {
    var r := Combine(1.0, b, -dot, a);
    ArcSide(a, b, dot);
    var theta := nm.arccos(dot);
    var n, s := nm.sqrt(Norm2(r)), nm.sin(theta);
    assert nm.cos(theta) == dot && s >= 0.0;
    assert s * s == 1.0 - dot * dot == n * n;
    EqualSquares(n, s);
    hide Lawful, SqrtLaw, TrigLaw, Norm2, Dot4, Combine;
    if n != 0.0 {
      ArcEndVector(dot, a, b, n);
    }
  }

  lemma ArcEndVector(dot: real, a: Quat, b: Quat, n: real)
    requires n != 0.0
    ensures var r := Combine(1.0, b, -dot, a);
      Combine(dot, a, n, Quat(r.x / n, r.y / n, r.z / n, r.w / n)) == b
  {
    var r := Combine(1.0, b, -dot, a);
    ArcEndEntry(dot, a.x, b.x, n, r.x);
    ArcEndEntry(dot, a.y, b.y, n, r.y);
    ArcEndEntry(dot, a.z, b.z, n, r.z);
    ArcEndEntry(dot, a.w, b.w, n, r.w);
  }

  lemma ArcEndEntry(dot: real, a: real, b: real, n: real, r: real)
    requires n != 0.0 && r == 1.0 * b + -dot * a
    ensures dot * a + n * (r / n) == b
  {
    assert n * (r / n) == r;
  }

  /** At ratio 0 the first orientation, at ratio 1 the second (up to the sign of the quaternion). */
  lemma SlerpEnds(nm: Numerics, q0: Quat, q1: Quat)
    requires Lawful(nm) && q0 != ZERO && q1 != ZERO
    ensures Normalize(nm, q0).Some? && Normalize(nm, q1).Some?
    ensures Slerp(nm, q0, q1, 0.0) == Normalize(nm, q0)
    ensures Slerp(nm, q0, q1, 1.0) == Some(Facing(Normalize(nm, q0).value, Normalize(nm, q1).value))
  {
    NormalizeUnit(nm, q0);
    NormalizeUnit(nm, q1);
    var a, b := Normalize(nm, q0).value, Normalize(nm, q1).value;
    var near := Facing(a, b);
    FacingNear(a, b);
    if Dot4(a, near) <= LINEAR_FROM {
      ArcStart(nm, a, near, Dot4(a, near));
      ArcEnd(nm, a, near, Dot4(a, near));
    } else {
      LerpEnds(a, near);
      NormalizeFixesUnit(nm, a);
      NormalizeFixesUnit(nm, near);
    }
    hide Dot4, Norm2, Normalize, Lawful, SqrtLaw, TrigLaw, Arc, Lerp, Facing;
  }

  lemma NormalizeNegative(nm: Numerics, q: Quat)
    requires Normalize(nm, q).Some?
    ensures Normalize(nm, Negate(q)) == Some(Negate(Normalize(nm, q).value))
  {
    assert Norm2(Negate(q)) == Norm2(q);
    var n := nm.sqrt(Norm2(q));
    hide Norm2, Dot4;
    NegativeQuotient(q.x, n);
    NegativeQuotient(q.y, n);
    NegativeQuotient(q.z, n);
    NegativeQuotient(q.w, n);
  }

  lemma NegativeQuotient(a: real, n: real)
    requires n != 0.0
    ensures -a / n == -(a / n)
  {
  }

  lemma NegateTwice(a: Quat)
    ensures Negate(Negate(a)) == a && Dot4(a, Negate(a)) == -Norm2(a)
  {
  }

  /** Equal endpoints, or the two quaternions of one orientation, give that orientation at any ratio. */
  lemma SlerpEqual(nm: Numerics, q0: Quat, q1: Quat, t: real)
    requires SqrtLaw(nm) && q0 != ZERO && (q1 == q0 || q1 == Negate(q0))
    ensures Slerp(nm, q0, q1, t) == Normalize(nm, q0)
  {
    NormalizeUnit(nm, q0);
    NormalizeNegative(nm, q0);
    var a := Normalize(nm, q0).value;
    NegateTwice(a);
    LerpEnds(a, a);
    NormalizeFixesUnit(nm, a);
    assert Lerp(a, a, t) == a;
    hide Normalize, SqrtLaw, Lerp, Negate;
  }

  // ----- the row-wise form

  function MatAt(a: array3<real>, k: nat): Mat
    requires k < a.Length0 && a.Length1 == 3 && a.Length2 == 3
    reads a
  {
    Mat(Vec(a[k, 0, 0], a[k, 0, 1], a[k, 0, 2]), Vec(a[k, 1, 0], a[k, 1, 1], a[k, 1, 2]),
        Vec(a[k, 2, 0], a[k, 2, 1], a[k, 2, 2]))
  }

  /** `matrices[:, i, 0..2] = rows`: one entry column after another, for all matrices at once. */
  method FillRow(a: array3<real>, i: nat, rows: seq<Vec>)
    requires i < 3 && a.Length0 == |rows| && a.Length1 == 3 && a.Length2 == 3
    modifies a
    ensures forall k :: 0 <= k < |rows| ==> Vec(a[k, i, 0], a[k, i, 1], a[k, i, 2]) == rows[k]
    ensures forall k, r, c :: 0 <= k < |rows| && 0 <= r < 3 && 0 <= c < 3 && r != i ==> a[k, r, c] == old(a[k, r, c])
  {
    forall k | 0 <= k < |rows| { a[k, i, 0] := rows[k].x; }
    forall k | 0 <= k < |rows| { a[k, i, 1] := rows[k].y; }
    forall k | 0 <= k < |rows| { a[k, i, 2] := rows[k].z; }
  }

  method FillMatrices(a: array3<real>, q: seq<Quat>)
    requires a.Length0 == |q| && a.Length1 == 3 && a.Length2 == 3
    modifies a
    ensures forall k :: 0 <= k < |q| ==> MatAt(a, k) == RotationMatrix(q[k])
  {
    hide FirstRow, SecondRow, ThirdRow;
    FillRow(a, 0, seq(|q|, k requires 0 <= k < |q| => FirstRow(q[k])));
    FillRow(a, 1, seq(|q|, k requires 0 <= k < |q| => SecondRow(q[k])));
    FillRow(a, 2, seq(|q|, k requires 0 <= k < |q| => ThirdRow(q[k])));
  }

  /** `quaternion_to_rotation_matrix_many`. Row by row it agrees with the single form, and it fails
      exactly when some row would. */
  method QuaternionToRotationMatrixMany(nm: Numerics, quats: seq<Quat>) returns (ok: bool, matrices: array3<real>)
    ensures ok <==> forall k :: 0 <= k < |quats| ==> QuaternionToRotationMatrix(nm, quats[k]).Some?
    ensures ok ==> fresh(matrices) && matrices.Length0 == |quats| && matrices.Length1 == 3 && matrices.Length2 == 3
    ensures ok ==> forall k :: 0 <= k < |quats| ==>
      QuaternionToRotationMatrix(nm, quats[k]) == Some(MatAt(matrices, k))
  {
    hide RotationMatrix, MatAt, Normalize;
    var n := |quats|;
    matrices := new real[n, 3, 3];
    if exists k :: 0 <= k < n && Normalize(nm, quats[k]).None? {
      return false, matrices;
    }
    FillMatrices(matrices, seq(n, k requires 0 <= k < n => Normalize(nm, quats[k]).value));
    ok := true;
  }
}
