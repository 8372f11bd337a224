/** Quaternions and rotation matrices (mavlink_conversions.h), over exact reals. */
module Quaternion {
  /** [w, x, y, z] */
  datatype Quat = Quat(w: real, x: real, y: real, z: real)

  function NormSquared(q: Quat): real { q.w * q.w + q.x * q.x + q.y * q.y + q.z * q.z }

  function Negated(q: Quat): Quat { Quat(-q.w, -q.x, -q.y, -q.z) }

  function QuatOf(a: array<real>): Quat
    requires a.Length == 4
    reads a
  {
    Quat(a[0], a[1], a[2], a[3])
  }

  /** The square root, as the only thing known about sqrtf. */
  ghost predicate IsRoot(root: real -> real) {
    forall x :: x >= 0.0 ==> root(x) >= 0.0 && root(x) * root(x) == x
  }

  /* ---------- Matrices ---------- */

  datatype Matrix = Matrix(m00: real, m01: real, m02: real, m10: real, m11: real, m12: real, m20: real, m21: real, m22: real)

  function MatrixOf(d: array2<real>): Matrix
    requires d.Length0 == d.Length1 == 3
    reads d
  {
    Matrix(d[0, 0], d[0, 1], d[0, 2], d[1, 0], d[1, 1], d[1, 2], d[2, 0], d[2, 1], d[2, 2])
  }

  predicate UnitVector(x: real, y: real, z: real) { x * x + y * y + z * z == 1.0 }

  predicate Perpendicular(x: real, y: real, z: real, u: real, v: real, w: real) { x * u + y * v + z * w == 0.0 }

  predicate Minor(x: real, y: real, z: real, w: real, det: real) { x * y - z * w == det }

  predicate UnitRows(m: Matrix) {
    UnitVector(m.m00, m.m01, m.m02) && UnitVector(m.m11, m.m12, m.m10) && UnitVector(m.m22, m.m20, m.m21)
  }

  predicate SquareRows(m: Matrix) {
    && Perpendicular(m.m00, m.m01, m.m02, m.m10, m.m11, m.m12)
    && Perpendicular(m.m11, m.m12, m.m10, m.m21, m.m22, m.m20)
    && Perpendicular(m.m22, m.m20, m.m21, m.m02, m.m00, m.m01)
  }

  /** The first row is the cross product of the other two. */
  predicate RightHanded(m: Matrix) {
    && Minor(m.m11, m.m22, m.m12, m.m21, m.m00)
    && Minor(m.m12, m.m20, m.m10, m.m22, m.m01)
    && Minor(m.m10, m.m21, m.m11, m.m20, m.m02)
  }

  /** Unit rows at right angles that form a right-handed frame. */
  predicate IsRotation(m: Matrix) {
    UnitRows(m) && SquareRows(m) && RightHanded(m)
  }

  /** The product of quaternions, by components, and the rotation of a vector v as q v q*. */
  function Product(a: real, b: real, c: real, d: real, w: real, x: real, y: real, z: real): Quat {
    Quat(a * w - b * x - c * y - d * z, a * x + b * w + c * z - d * y, a * y - b * z + c * w + d * x, a * z + b * y - c * x + d * w)
  }

  /** It is Hamilton's: i, j and k square to -1, ij = k, jk = i, ki = j, and the other way round negative. */
  lemma Units()
    ensures var one, i, j, k := Quat(1.0, 0.0, 0.0, 0.0), Quat(0.0, 1.0, 0.0, 0.0), Quat(0.0, 0.0, 1.0, 0.0), Quat(0.0, 0.0, 0.0, 1.0);
      && Times(i, i) == Times(j, j) == Times(k, k) == Negated(one)
      && Times(i, j) == k && Times(j, k) == i && Times(k, i) == j
      && Times(j, i) == Negated(k) && Times(k, j) == Negated(i) && Times(i, k) == Negated(j)
      && Times(one, i) == Times(i, one) == i && Times(one, j) == Times(j, one) == j && Times(one, k) == Times(k, one) == k
  {}

  function Plus(p: Quat, q: Quat): Quat { Quat(p.w + q.w, p.x + q.x, p.y + q.y, p.z + q.z) }

  /** And it distributes over sums, on both sides. */
  lemma DistributesLeft(p: Quat, q: Quat, r: Quat)
    ensures Times(Plus(p, q), r) == Plus(Times(p, r), Times(q, r))
  {}

  lemma DistributesRight(p: Quat, q: Quat, r: Quat)
    ensures Times(r, Plus(p, q)) == Plus(Times(r, p), Times(r, q))
  {}

  /** q times its conjugate is the square of its length. */
  lemma ConjugateIs(q: Quat)
    ensures Times(q, Conjugate(q)) == Times(Conjugate(q), q) == Quat(NormSquared(q), 0.0, 0.0, 0.0)
    ensures NormSquared(q) == q.w * q.w + q.x * q.x + q.y * q.y + q.z * q.z
  {}

  function Times(p: Quat, q: Quat): Quat {
    Product(p.w, p.x, p.y, p.z, q.w, q.x, q.y, q.z)
  }

  function Conjugate(q: Quat): Quat { Quat(q.w, -q.x, -q.y, -q.z) }

  function Rotated(q: Quat, x: real, y: real, z: real): Quat {
    Times(Times(q, Quat(0.0, x, y, z)), Conjugate(q))
  }

  /** The nine entries as polynomials in the components. */
  function Entries(a: real, b: real, c: real, d: real): Matrix {
    Matrix(a * a + b * b - c * c - d * d, 2.0 * (b * c - a * d), 2.0 * (a * c + b * d),
           2.0 * (b * c + a * d), a * a - b * b + c * c - d * d, 2.0 * (c * d - a * b),
           2.0 * (b * d - a * c), 2.0 * (a * b + c * d), a * a - b * b - c * c + d * d)
  }

  lemma TimesAxes(w: real, x: real, y: real, z: real)
    ensures Product(w, x, y, z, 0.0, 1.0, 0.0, 0.0) == Quat(-x, w, z, -y)
    ensures Product(w, x, y, z, 0.0, 0.0, 1.0, 0.0) == Quat(-y, -z, w, x)
    ensures Product(w, x, y, z, 0.0, 0.0, 0.0, 1.0) == Quat(-z, y, -x, w)
  {}

  lemma FirstColumn(w: real, x: real, y: real, z: real)
    ensures var m := Entries(w, x, y, z); Product(-x, w, z, -y, w, -x, -y, -z) == Quat(0.0, m.m00, m.m10, m.m20)
  {}

  lemma SecondColumn(w: real, x: real, y: real, z: real)
    ensures var m := Entries(w, x, y, z); Product(-y, -z, w, x, w, -x, -y, -z) == Quat(0.0, m.m01, m.m11, m.m21)
  {}

  lemma ThirdColumn(w: real, x: real, y: real, z: real)
    ensures var m := Entries(w, x, y, z); Product(-z, y, -x, w, w, -x, -y, -z) == Quat(0.0, m.m02, m.m12, m.m22)
  {}

  lemma AxisX(q: Quat)
    ensures var m := Entries(q.w, q.x, q.y, q.z); Rotated(q, 1.0, 0.0, 0.0) == Quat(0.0, m.m00, m.m10, m.m20)
  {
    hide Product, Entries;
    TimesAxes(q.w, q.x, q.y, q.z);
    FirstColumn(q.w, q.x, q.y, q.z);
  }

  lemma AxisY(q: Quat)
    ensures var m := Entries(q.w, q.x, q.y, q.z); Rotated(q, 0.0, 1.0, 0.0) == Quat(0.0, m.m01, m.m11, m.m21)
  {
    hide Product, Entries;
    TimesAxes(q.w, q.x, q.y, q.z);
    SecondColumn(q.w, q.x, q.y, q.z);
  }

  lemma AxisZ(q: Quat)
    ensures var m := Entries(q.w, q.x, q.y, q.z); Rotated(q, 0.0, 0.0, 1.0) == Quat(0.0, m.m02, m.m12, m.m22)
  {
    hide Product, Entries;
    TimesAxes(q.w, q.x, q.y, q.z);
    ThirdColumn(q.w, q.x, q.y, q.z);
  }

  /** The matrix maps the axes to their rotated images: its columns are q i q*, q j q* and q k q*. */
  predicate Represents(m: Matrix, q: Quat) {
    && Quat(0.0, m.m00, m.m10, m.m20) == Rotated(q, 1.0, 0.0, 0.0)
    && Quat(0.0, m.m01, m.m11, m.m21) == Rotated(q, 0.0, 1.0, 0.0)
    && Quat(0.0, m.m02, m.m12, m.m22) == Rotated(q, 0.0, 0.0, 1.0)
  }

  lemma EntriesRepresent(m: Matrix, q: Quat)
    ensures Represents(m, q) <==> m == Entries(q.w, q.x, q.y, q.z)
  {
    hide Rotated, Entries;
    AxisX(q);
    AxisY(q);
    AxisZ(q);
  }

  /** mavlink_quaternion_to_dcm */
  method QuaternionToDcm(quaternion: array<real>, dcm: array2<real>)
    requires quaternion.Length == 4 && dcm.Length0 == dcm.Length1 == 3
    modifies dcm
    ensures Represents(MatrixOf(dcm), old(QuatOf(quaternion)))
  {
    hide *;
    var a, b, c, d := quaternion[0], quaternion[1], quaternion[2], quaternion[3];
    var aSq, bSq, cSq, dSq := a * a, b * b, c * c, d * d;
    dcm[0, 0] := aSq + bSq - cSq - dSq;
    dcm[0, 1] := 2.0 * (b * c - a * d);
    dcm[0, 2] := 2.0 * (a * c + b * d);
    dcm[1, 0] := 2.0 * (b * c + a * d);
    dcm[1, 1] := aSq - bSq + cSq - dSq;
    dcm[1, 2] := 2.0 * (c * d - a * b);
    dcm[2, 0] := 2.0 * (b * d - a * c);
    dcm[2, 1] := 2.0 * (a * b + c * d);
    dcm[2, 2] := aSq - bSq - cSq + dSq;
    ReadBack(dcm);
    EntriesAre(a, b, c, d);
    Components(quaternion);
    EntriesRepresent(MatrixOf(dcm), Quat(a, b, c, d));
  }

  lemma ReadBack(d: array2<real>)
    requires d.Length0 == d.Length1 == 3
    ensures MatrixOf(d) == Matrix(d[0, 0], d[0, 1], d[0, 2], d[1, 0], d[1, 1], d[1, 2], d[2, 0], d[2, 1], d[2, 2])
  {}

  lemma Components(a: array<real>)
    requires a.Length == 4
    ensures QuatOf(a) == Quat(a[0], a[1], a[2], a[3])
  {}

  lemma EntriesAre(a: real, b: real, c: real, d: real)
    ensures Entries(a, b, c, d) ==
      Matrix(a * a + b * b - c * c - d * d, 2.0 * (b * c - a * d), 2.0 * (a * c + b * d),
             2.0 * (b * c + a * d), a * a - b * b + c * c - d * d, 2.0 * (c * d - a * b),
             2.0 * (b * d - a * c), 2.0 * (a * b + c * d), a * a - b * b - c * c + d * d)
  {}

  /* ---------- The matrix of a unit quaternion is a rotation ---------- */

  /** For the first row; the other two are the same with the components renamed. */
  lemma UnitRow(a: real, b: real, c: real, d: real, x: real, y: real, z: real)
    requires a * a + b * b + c * c + d * d == 1.0
    requires x == a * a + b * b - c * c - d * d && y == 2.0 * (b * c - a * d) && z == 2.0 * (a * c + b * d)
    ensures UnitVector(x, y, z)
  {
    var n := a * a + b * b + c * c + d * d;
    assert x * x + y * y + z * z == n * n;
  }

  lemma RightAngle(a: real, b: real, c: real, d: real, x: real, y: real, z: real, u: real, v: real, w: real)
    requires x == a * a + b * b - c * c - d * d && y == 2.0 * (b * c - a * d) && z == 2.0 * (a * c + b * d)
    requires u == 2.0 * (b * c + a * d) && v == a * a - b * b + c * c - d * d && w == 2.0 * (c * d - a * b)
    ensures Perpendicular(x, y, z, u, v, w)
  {}

  /** The cross product of rows two and three is row one, times the squared norm. */
  lemma CrossFirst(a: real, b: real, c: real, d: real, n: real, x: real, y: real, z: real, w: real)
    requires n == a * a + b * b + c * c + d * d
    requires x == a * a - b * b + c * c - d * d && y == a * a - b * b - c * c + d * d
    requires z == 2.0 * (c * d - a * b) && w == 2.0 * (a * b + c * d)
    ensures x * y - z * w == n * (a * a + b * b - c * c - d * d)
  {}

  lemma CrossSecond(a: real, b: real, c: real, d: real, n: real, x: real, y: real, z: real, w: real)
    requires n == a * a + b * b + c * c + d * d
    requires x == 2.0 * (c * d - a * b) && y == 2.0 * (b * d - a * c)
    requires z == 2.0 * (b * c + a * d) && w == a * a - b * b - c * c + d * d
    ensures x * y - z * w == n * (2.0 * (b * c - a * d))
  {}

  lemma CrossThird(a: real, b: real, c: real, d: real, n: real, x: real, y: real, z: real, w: real)
    requires n == a * a + b * b + c * c + d * d
    requires x == 2.0 * (b * c + a * d) && y == 2.0 * (a * b + c * d)
    requires z == a * a - b * b + c * c - d * d && w == 2.0 * (b * d - a * c)
    ensures x * y - z * w == n * (2.0 * (a * c + b * d))
  {}

  lemma MinorIs(x: real, y: real, z: real, w: real, n: real, r: real)
    requires x * y - z * w == n * r && n == 1.0
    ensures Minor(x, y, z, w, r)
  {}

  lemma EntriesUnit(a: real, b: real, c: real, d: real)
    requires a * a + b * b + c * c + d * d == 1.0
    ensures UnitRows(Entries(a, b, c, d))
  {
    hide UnitVector, Perpendicular, Minor;
    var m := Entries(a, b, c, d);
    UnitRow(a, b, c, d, m.m00, m.m01, m.m02);
    UnitRow(a, c, d, b, m.m11, m.m12, m.m10);
    UnitRow(a, d, b, c, m.m22, m.m20, m.m21);
  }

  lemma EntriesSquare(a: real, b: real, c: real, d: real)
    ensures SquareRows(Entries(a, b, c, d))
  {
    hide UnitVector, Perpendicular, Minor;
    var m := Entries(a, b, c, d);
    RightAngle(a, b, c, d, m.m00, m.m01, m.m02, m.m10, m.m11, m.m12);
    RightAngle(a, c, d, b, m.m11, m.m12, m.m10, m.m21, m.m22, m.m20);
    RightAngle(a, d, b, c, m.m22, m.m20, m.m21, m.m02, m.m00, m.m01);
  }

  lemma EntriesRightHanded(a: real, b: real, c: real, d: real)
    requires a * a + b * b + c * c + d * d == 1.0
    ensures RightHanded(Entries(a, b, c, d))
  {
    hide UnitVector, Perpendicular, Minor;
    var m := Entries(a, b, c, d);
    CrossFirst(a, b, c, d, 1.0, m.m11, m.m22, m.m12, m.m21);
    CrossSecond(a, b, c, d, 1.0, m.m12, m.m20, m.m10, m.m22);
    CrossThird(a, b, c, d, 1.0, m.m10, m.m21, m.m11, m.m20);
    MinorIs(m.m11, m.m22, m.m12, m.m21, 1.0, m.m00);
    MinorIs(m.m12, m.m20, m.m10, m.m22, 1.0, m.m01);
    MinorIs(m.m10, m.m21, m.m11, m.m20, 1.0, m.m02);
  }

  lemma UnitRotates(m: Matrix, q: Quat)
    requires Represents(m, q) && NormSquared(q) == 1.0
    ensures IsRotation(m)
  {
    hide Represents, Entries, UnitRows, SquareRows, RightHanded;
    EntriesRepresent(m, q);
    EntriesUnit(q.w, q.x, q.y, q.z);
    EntriesSquare(q.w, q.x, q.y, q.z);
    EntriesRightHanded(q.w, q.x, q.y, q.z);
  }

  /* ---------- Back to a quaternion ---------- */

  predicate SameRotation(p: Quat, q: Quat) { p == q || p == Negated(q) }

  function Four(u: real, v: real): real { 4.0 * u * v }

  /** The source divides s out once, s = 0.5 / s, and multiplies by it. */
  function Scaled(e: real, s: real): real
    requires s > 0.0
  {
    e * (0.5 / s)
  }

  lemma ZeroSquare(s: real)
    ensures s == 0.0 ==> s * s == 0.0
  {}

  lemma Factors(p: real, q: real)
    requires p * q == 0.0
    ensures p == 0.0 || q == 0.0
  {}

  lemma Root(v: real, s: real)
    requires v * v > 0.0 && s >= 0.0 && s * s == Four(v, v)
    ensures s > 0.0 && (s == 2.0 * v || s == -2.0 * v)
  {
    ZeroSquare(s);
    Factors(s - 2.0 * v, s + 2.0 * v);
  }

  /** Dividing by 2 s undoes a factor of 4 v, up to the sign that s has against v. */
  lemma Divide(u: real, v: real, s: real)
    requires s > 0.0 && (s == 2.0 * v || s == -2.0 * v)
    ensures Scaled(Four(u, v), s) == if s == 2.0 * v then u else -u
  {
    var h := 0.5 / s;
    assert h * s == 0.5;
    if s == 2.0 * v {
      assert 4.0 * u * v * h == 2.0 * u * (s * h);
    } else {
      assert 4.0 * u * v * h == -2.0 * u * (s * h);
    }
  }

  /** What the four branches read off the matrix of a unit quaternion. */
  lemma Diagonal(m: Matrix, a: real, b: real, c: real, d: real)
    requires m == Entries(a, b, c, d) && a * a + b * b + c * c + d * d == 1.0
    ensures m.m00 + m.m11 + m.m22 + 1.0 == Four(a, a)
    ensures m.m00 - m.m11 - m.m22 + 1.0 == Four(b, b)
    ensures m.m11 - m.m22 - m.m00 + 1.0 == Four(c, c)
    ensures m.m22 - m.m00 - m.m11 + 1.0 == Four(d, d)
  {}

  lemma OffDiagonal(m: Matrix, a: real, b: real, c: real, d: real)
    requires m == Entries(a, b, c, d)
    ensures m.m21 - m.m12 == Four(b, a) == Four(a, b)
    ensures m.m02 - m.m20 == Four(c, a) == Four(a, c)
    ensures m.m10 - m.m01 == Four(d, a) == Four(a, d)
    ensures m.m01 + m.m10 == Four(b, c) == Four(c, b)
    ensures m.m20 + m.m02 == Four(b, d) == Four(d, b)
    ensures m.m12 + m.m21 == Four(c, d) == Four(d, c)
  {}

  /** One component by the root, the other three by division: right up to one common sign. */
  lemma Recovered(v: real, s: real, u0: real, u1: real, u2: real)
    requires v * v > 0.0 && s >= 0.0 && s * s == Four(v, v)
    ensures s > 0.0
    ensures
      || (s * 0.5 == v && Scaled(Four(u0, v), s) == u0 && Scaled(Four(u1, v), s) == u1 && Scaled(Four(u2, v), s) == u2)
      || (s * 0.5 == -v && Scaled(Four(u0, v), s) == -u0 && Scaled(Four(u1, v), s) == -u1 && Scaled(Four(u2, v), s) == -u2)
  {
    hide Four, Scaled;
    Root(v, s);
    Divide(u0, v, s);
    Divide(u1, v, s);
    Divide(u2, v, s);
  }

  lemma UnitEntries(m: Matrix, q: Quat)
    requires Represents(m, q) && NormSquared(q) == 1.0
    ensures m == Entries(q.w, q.x, q.y, q.z) && q.w * q.w + q.x * q.x + q.y * q.y + q.z * q.z == 1.0
  {
    EntriesRepresent(m, q);
  }

  lemma SquareFromFour(v: real, r: real)
    requires Four(v, v) == r && r > 0.0
    ensures v * v > 0.0
  {}

  /** The four branches: which component the root gives, and what the others are read from. */
  lemma ByW(m: Matrix, q: Quat, s: real)
    requires Represents(m, q) && NormSquared(q) == 1.0 && m.m00 + m.m11 + m.m22 + 1.0 > 0.0
    requires s >= 0.0 && s * s == m.m00 + m.m11 + m.m22 + 1.0
    ensures s > 0.0
    ensures SameRotation(Quat(s * 0.5, Scaled(m.m21 - m.m12, s), Scaled(m.m02 - m.m20, s), Scaled(m.m10 - m.m01, s)), q)
  {
    hide Represents, Entries, Four, Scaled, NormSquared, SameRotation;
    UnitEntries(m, q);
    Diagonal(m, q.w, q.x, q.y, q.z);
    OffDiagonal(m, q.w, q.x, q.y, q.z);
    SquareFromFour(q.w, m.m00 + m.m11 + m.m22 + 1.0);
    Recovered(q.w, s, q.x, q.y, q.z);
    Signed(Quat(s * 0.5, Scaled(m.m21 - m.m12, s), Scaled(m.m02 - m.m20, s), Scaled(m.m10 - m.m01, s)), q);
  }

  lemma ByX(m: Matrix, q: Quat, s: real)
    requires Represents(m, q) && NormSquared(q) == 1.0 && m.m00 - m.m11 - m.m22 + 1.0 > 0.0
    requires s >= 0.0 && s * s == m.m00 - m.m11 - m.m22 + 1.0
    ensures s > 0.0
    ensures SameRotation(Quat(Scaled(m.m21 - m.m12, s), s * 0.5, Scaled(m.m01 + m.m10, s), Scaled(m.m20 + m.m02, s)), q)
  {
    hide Represents, Entries, Four, Scaled, NormSquared, SameRotation;
    UnitEntries(m, q);
    Diagonal(m, q.w, q.x, q.y, q.z);
    OffDiagonal(m, q.w, q.x, q.y, q.z);
    SquareFromFour(q.x, m.m00 - m.m11 - m.m22 + 1.0);
    Recovered(q.x, s, q.w, q.y, q.z);
    Signed(Quat(Scaled(m.m21 - m.m12, s), s * 0.5, Scaled(m.m01 + m.m10, s), Scaled(m.m20 + m.m02, s)), q);
  }

  lemma ByY(m: Matrix, q: Quat, s: real)
    requires Represents(m, q) && NormSquared(q) == 1.0 && m.m11 - m.m22 - m.m00 + 1.0 > 0.0
    requires s >= 0.0 && s * s == m.m11 - m.m22 - m.m00 + 1.0
    ensures s > 0.0
    ensures SameRotation(Quat(Scaled(m.m02 - m.m20, s), Scaled(m.m01 + m.m10, s), s * 0.5, Scaled(m.m12 + m.m21, s)), q)
  {
    hide Represents, Entries, Four, Scaled, NormSquared, SameRotation;
    UnitEntries(m, q);
    Diagonal(m, q.w, q.x, q.y, q.z);
    OffDiagonal(m, q.w, q.x, q.y, q.z);
    SquareFromFour(q.y, m.m11 - m.m22 - m.m00 + 1.0);
    Recovered(q.y, s, q.w, q.x, q.z);
    Signed(Quat(Scaled(m.m02 - m.m20, s), Scaled(m.m01 + m.m10, s), s * 0.5, Scaled(m.m12 + m.m21, s)), q);
  }

  lemma ByZ(m: Matrix, q: Quat, s: real)
    requires Represents(m, q) && NormSquared(q) == 1.0 && m.m22 - m.m00 - m.m11 + 1.0 > 0.0
    requires s >= 0.0 && s * s == m.m22 - m.m00 - m.m11 + 1.0
    ensures s > 0.0
    ensures SameRotation(Quat(Scaled(m.m10 - m.m01, s), Scaled(m.m20 + m.m02, s), Scaled(m.m12 + m.m21, s), s * 0.5), q)
  {
    hide Represents, Entries, Four, Scaled, NormSquared, SameRotation;
    UnitEntries(m, q);
    Diagonal(m, q.w, q.x, q.y, q.z);
    OffDiagonal(m, q.w, q.x, q.y, q.z);
    SquareFromFour(q.z, m.m22 - m.m00 - m.m11 + 1.0);
    Recovered(q.z, s, q.w, q.x, q.y);
    Signed(Quat(Scaled(m.m10 - m.m01, s), Scaled(m.m20 + m.m02, s), Scaled(m.m12 + m.m21, s), s * 0.5), q);
  }

  lemma Signed(p: Quat, q: Quat)
    requires (p.w == q.w && p.x == q.x && p.y == q.y && p.z == q.z) || (p.w == -q.w && p.x == -q.x && p.y == -q.y && p.z == -q.z)
    ensures SameRotation(p, q)
  {}

  lemma RootFacts(root: real -> real, x: real)
    requires IsRoot(root) && x >= 0.0
    ensures root(x) >= 0.0 && root(x) * root(x) == x
  {}

  /** The index of the largest diagonal element. */
  method LargestDiagonal(dcm: array2<real>) returns (i: nat)
    requires dcm.Length0 == dcm.Length1 == 3
    ensures i < 3 && forall j :: 0 <= j < 3 ==> dcm[j, j] <= dcm[i, i]
  {
    i := 0;
    for k := 1 to 3
      invariant i < k && forall j :: 0 <= j < k ==> dcm[j, j] <= dcm[i, i]
    {
      if dcm[k, k] > dcm[i, i] {
        i := k;
      }
    }
  }

  /** The branches for a trace that is not positive. */
  method FromLargest(dcm: array2<real>, quaternion: array<real>, root: real -> real, ghost q: Quat)
    requires dcm.Length0 == dcm.Length1 == 3 && quaternion.Length == 4 && IsRoot(root)
    requires Represents(MatrixOf(dcm), q) && NormSquared(q) == 1.0 && dcm[0, 0] + dcm[1, 1] + dcm[2, 2] <= 0.0
    modifies quaternion
    ensures SameRotation(QuatOf(quaternion), q)
  {
    hide Represents, NormSquared, SameRotation, Scaled, IsRoot;
    ghost var m := MatrixOf(dcm);
    var i := LargestDiagonal(dcm);
    var j, k := (i + 1) % 3, (i + 2) % 3;
    assert dcm[0, 0] <= dcm[i, i] && dcm[1, 1] <= dcm[i, i] && dcm[2, 2] <= dcm[i, i];
    var r := (dcm[i, i] - dcm[j, j] - dcm[k, k]) + 1.0;
    var s := root(r);
    RootFacts(root, r);
    if i == 0 {
      ByX(m, q, s);
    } else if i == 1 {
      ByY(m, q, s);
    } else {
      ByZ(m, q, s);
    }
    quaternion[i + 1] := s * 0.5;
    quaternion[j + 1] := Scaled(dcm[i, j] + dcm[j, i], s);
    quaternion[k + 1] := Scaled(dcm[k, i] + dcm[i, k], s);
    quaternion[0] := Scaled(dcm[k, j] - dcm[j, k], s);
  }

  /** mavlink_dcm_to_quaternion, given the matrix of a unit quaternion q: in all four branches no square
      root of a negative number is taken, nothing is divided by zero, and the result is q or -q. */
  method DcmToQuaternion(dcm: array2<real>, quaternion: array<real>, root: real -> real, ghost q: Quat)
    requires dcm.Length0 == dcm.Length1 == 3 && quaternion.Length == 4 && IsRoot(root)
    requires Represents(MatrixOf(dcm), q) && NormSquared(q) == 1.0
    modifies quaternion
    ensures SameRotation(QuatOf(quaternion), q)
  {
    hide Represents, NormSquared, SameRotation, Scaled, IsRoot;
    var tr := dcm[0, 0] + dcm[1, 1] + dcm[2, 2];
    if tr > 0.0 {
      var s := root(tr + 1.0);
      RootFacts(root, tr + 1.0);
      ByW(MatrixOf(dcm), q, s);
      quaternion[0] := s * 0.5;
      quaternion[1] := Scaled(dcm[2, 1] - dcm[1, 2], s);
      quaternion[2] := Scaled(dcm[0, 2] - dcm[2, 0], s);
      quaternion[3] := Scaled(dcm[1, 0] - dcm[0, 1], s);
    } else {
      FromLargest(dcm, quaternion, root, q);
    }
  }

  /** The sign is lost for good: q and -q have the same matrix. */
  lemma SameMatrix(m: Matrix, q: Quat)
    ensures Represents(m, q) <==> Represents(m, Negated(q))
  {
    hide Represents;
    EntriesRepresent(m, q);
    EntriesRepresent(m, Negated(q));
    EvenEntries(q.w, q.x, q.y, q.z);
  }

  lemma EvenEntries(a: real, b: real, c: real, d: real)
    ensures Entries(-a, -b, -c, -d) == Entries(a, b, c, d)
  {}

  /** There and back: every unit quaternion returns, up to sign. */
  method RoundTrip(q: Quat, root: real -> real) returns (r: Quat)
    requires NormSquared(q) == 1.0 && IsRoot(root)
    ensures SameRotation(r, q)
  {
    hide Represents, SameRotation, NormSquared;
    var quaternion := new real[4];
    quaternion[0], quaternion[1], quaternion[2], quaternion[3] := q.w, q.x, q.y, q.z;
    var dcm := new real[3, 3];
    QuaternionToDcm(quaternion, dcm);
    var back := new real[4];
    DcmToQuaternion(dcm, back, root, q);
    r := QuatOf(back);
  }
}
