/**
 * The kernel of a free elastic body: three translations and three rotations, made orthonormal
 * over a list of nodes by an unrolled Gram-Schmidt process. Reals stand for doubles.
 */
module RigidMotions {

  datatype Point = Point(x: real, y: real, z: real)

  const ORIGIN := Point(0.0, 0.0, 0.0)

  function Plus(a: Point, b: Point): Point {
    Point(a.x + b.x, a.y + b.y, a.z + b.z)
  }

  function Minus(a: Point, b: Point): Point {
    Point(a.x - b.x, a.y - b.y, a.z - b.z)
  }

  function Times(s: real, a: Point): Point {
    Point(s * a.x, s * a.y, s * a.z)
  }

  function Inner(a: Point, b: Point): real {
    a.x * b.x + a.y * b.y + a.z * b.z
  }

  /**
   * What the kernel of a domain (or cluster) is computed from: the centre, the reciprocals `ix`,
   * `iy`, `iz` of the three norms, the quotients `q45` = r45 / r44 and so on, and the length `e`
   * of the translations.
   */
  datatype Frame = Frame(center: Point, e: real, ix: real, q45: real, iy: real, q56: real, q46: real, iz: real)

  /**
   * Displacements of a node: translation along an axis, the rotations about the three axes
   * (`Raw`), what is left of them after each step of the process, and the final columns.
   */
  datatype Field = Shift(axis: nat) | Raw4 | Raw5 | Raw6 | Col4 | Rest5 | Col5 | Part6 | Rest6 | Col6

  function Raw4At(p: Point): Point {
    Point(-p.y, p.x, 0.0)
  }

  function Raw5At(p: Point): Point {
    Point(-p.z, 0.0, p.x)
  }

  function Raw6At(p: Point): Point {
    Point(0.0, -p.z, p.y)
  }

  function Col4At(k: Frame, p: Point): Point {
    Times(k.ix, Raw4At(p))
  }

  function Rest5At(k: Frame, p: Point): Point {
    Minus(Raw5At(p), Times(k.q45, Col4At(k, p)))
  }

  function Col5At(k: Frame, p: Point): Point {
    Times(k.iy, Rest5At(k, p))
  }

  function Part6At(k: Frame, p: Point): Point {
    Minus(Raw6At(p), Times(k.q56, Col5At(k, p)))
  }

  function Rest6At(k: Frame, p: Point): Point {
    Minus(Part6At(k, p), Times(k.q46, Col4At(k, p)))
  }

  function Col6At(k: Frame, p: Point): Point {
    Times(k.iz, Rest6At(k, p))
  }

  function ShiftAt(k: Frame, axis: nat): Point {
    Point(if axis == 0 then k.e else 0.0, if axis == 1 then k.e else 0.0, if axis == 2 then k.e else 0.0)
  }

  /** The displacement of a node at `p` relative to the centre. */
  function At(k: Frame, f: Field, p: Point): Point {
    match f
    case Shift(axis) => ShiftAt(k, axis)
    case Raw4 => Raw4At(p)
    case Raw5 => Raw5At(p)
    case Raw6 => Raw6At(p)
    case Col4 => Col4At(k, p)
    case Rest5 => Rest5At(k, p)
    case Col5 => Col5At(k, p)
    case Part6 => Part6At(k, p)
    case Rest6 => Rest6At(k, p)
    case Col6 => Col6At(k, p)
  }

  /** The displacement of the node with coordinates `q`. */
  function Of(k: Frame, f: Field, q: Point): Point {
    At(k, f, Minus(q, k.center))
  }

  /** The inner product of two displacements of all nodes. */
  function Dot(k: Frame, f: Field, g: Field, ps: seq<Point>): real {
    if ps == [] then 0.0 else Dot(k, f, g, ps[..|ps| - 1]) + Inner(Of(k, f, ps[|ps| - 1]), Of(k, g, ps[|ps| - 1]))
  }

  lemma {:induction false} DotAppend(k: Frame, f: Field, g: Field, ps: seq<Point>, qs: seq<Point>)
    ensures Dot(k, f, g, ps + qs) == Dot(k, f, g, ps) + Dot(k, f, g, qs)
  {
    hide Inner, Of;
    if qs == [] {
      assert ps + qs == ps;
    } else {
      DotAppend(k, f, g, ps, qs[..|qs| - 1]);
      assert (ps + qs)[..|ps + qs| - 1] == ps + qs[..|qs| - 1];
    }
  }

  lemma {:induction false} DotSymmetric(k: Frame, f: Field, g: Field, ps: seq<Point>)
    ensures Dot(k, f, g, ps) == Dot(k, g, f, ps)
  {
    hide Of;
    if ps != [] {
      DotSymmetric(k, f, g, ps[..|ps| - 1]);
    }
  }

  lemma InnerScaled(a: Point, s: real, b: Point, c: Point)
    requires a == Times(s, b)
    ensures Inner(a, c) == s * Inner(b, c)
  {
    assert s * b.x * c.x == s * (b.x * c.x);
    assert s * b.y * c.y == s * (b.y * c.y);
    assert s * b.z * c.z == s * (b.z * c.z);
  }

  lemma InnerReduced(a: Point, b: Point, s: real, d: Point, c: Point)
    requires a == Minus(b, Times(s, d))
    ensures Inner(a, c) == Inner(b, c) - s * Inner(d, c)
  {
    assert (b.x - s * d.x) * c.x == b.x * c.x - s * (d.x * c.x);
    assert (b.y - s * d.y) * c.y == b.y * c.y - s * (d.y * c.y);
    assert (b.z - s * d.z) * c.z == b.z * c.z - s * (d.z * c.z);
  }

  /** Field `f` is `s` times field `h`. */
  ghost predicate IsScaled(k: Frame, f: Field, s: real, h: Field) {
    forall p :: At(k, f, p) == Times(s, At(k, h, p))
  }

  /** Field `f` is `h` less `s` times `j`. */
  ghost predicate IsReduced(k: Frame, f: Field, h: Field, s: real, j: Field) {
    forall p :: At(k, f, p) == Minus(At(k, h, p), Times(s, At(k, j, p)))
  }

  lemma {:induction false} DotScaled(k: Frame, f: Field, s: real, h: Field, g: Field, ps: seq<Point>)
    requires IsScaled(k, f, s, h)
    ensures Dot(k, f, g, ps) == s * Dot(k, h, g, ps)
  {
    hide At, Inner, Times, Minus;
    if ps != [] {
      DotScaled(k, f, s, h, g, ps[..|ps| - 1]);
      var q := ps[|ps| - 1];
      InnerScaled(Of(k, f, q), s, Of(k, h, q), Of(k, g, q));
    }
  }

  lemma {:induction false} DotReduced(k: Frame, f: Field, h: Field, s: real, j: Field, g: Field, ps: seq<Point>)
    requires IsReduced(k, f, h, s, j)
    ensures Dot(k, f, g, ps) == Dot(k, h, g, ps) - s * Dot(k, j, g, ps)
  {
    hide At, Inner, Times, Minus;
    if ps != [] {
      DotReduced(k, f, h, s, j, g, ps[..|ps| - 1]);
      var q := ps[|ps| - 1];
      InnerReduced(Of(k, f, q), Of(k, h, q), s, Of(k, j, q), Of(k, g, q));
    }
  }

  lemma FieldsAreBuilt(k: Frame)
    ensures IsScaled(k, Col4, k.ix, Raw4) && IsReduced(k, Rest5, Raw5, k.q45, Col4) && IsScaled(k, Col5, k.iy, Rest5)
    ensures IsReduced(k, Part6, Raw6, k.q56, Col5) && IsReduced(k, Rest6, Part6, k.q46, Col4) && IsScaled(k, Col6, k.iz, Rest6)
  {
    hide Minus, Times;
  }

  /** `s` is the reciprocal of a root of `d`. */
  ghost predicate Normalizes(s: real, d: real) {
    s * s * d == 1.0
  }

  /** The frame was computed from the nodes: centre, norms and quotients. */
  ghost predicate IsFrame(k: Frame, ps: seq<Point>) {
    && Sum(k.center, ps) == ORIGIN
    && Normalizes(k.e, |ps| as real)
    && Normalizes(k.ix, Dot(k, Raw4, Raw4, ps))
    && k.q45 * Dot(k, Col4, Col4, ps) == Dot(k, Col4, Raw5, ps)
    && Normalizes(k.iy, Dot(k, Rest5, Rest5, ps))
    && k.q46 * Dot(k, Col4, Col4, ps) == Dot(k, Col4, Raw6, ps)
    && k.q56 * Dot(k, Col5, Col5, ps) == Dot(k, Col5, Raw6, ps)
    && Normalizes(k.iz, Dot(k, Rest6, Rest6, ps))
  }

  /** The nodes relative to `c`, summed. */
  function Sum(c: Point, ps: seq<Point>): Point {
    if ps == [] then ORIGIN else Plus(Sum(c, ps[..|ps| - 1]), Minus(ps[|ps| - 1], c))
  }

  lemma Scaled(k: Frame, f: Field, s: real, h: Field, ps: seq<Point>)
    requires IsScaled(k, f, s, h) && Normalizes(s, Dot(k, h, h, ps))
    ensures Dot(k, f, f, ps) == 1.0
  {
    hide IsScaled, Dot, Normalizes;
    DotScaled(k, f, s, h, f, ps);
    DotSymmetric(k, h, f, ps);
    DotScaled(k, f, s, h, h, ps);
    NormalizedTwice(s, Dot(k, h, h, ps), Dot(k, h, f, ps));
  }

  lemma NormalizedTwice(s: real, d: real, y: real)
    requires Normalizes(s, d) && y == s * d
    ensures s * y == 1.0
  {
    assert s * (s * d) == s * s * d;
  }

  lemma NothingScaled(k: Frame, f: Field, s: real, h: Field, g: Field, ps: seq<Point>)
    requires IsScaled(k, f, s, h) && Dot(k, h, g, ps) == 0.0
    ensures Dot(k, f, g, ps) == 0.0
  {
    hide IsScaled, Dot;
    DotScaled(k, f, s, h, g, ps);
  }

  lemma NothingReduced(k: Frame, f: Field, h: Field, s: real, j: Field, g: Field, ps: seq<Point>)
    requires IsReduced(k, f, h, s, j) && Dot(k, h, g, ps) == s * Dot(k, j, g, ps)
    ensures Dot(k, f, g, ps) == 0.0
  {
    hide IsReduced, Dot;
    DotReduced(k, f, h, s, j, g, ps);
  }

  /** The rotations are orthonormal. */
  lemma RotationsOrthonormal(k: Frame, ps: seq<Point>)
    requires IsFrame(k, ps)
    ensures Dot(k, Col4, Col4, ps) == 1.0 && Dot(k, Col5, Col5, ps) == 1.0 && Dot(k, Col6, Col6, ps) == 1.0
    ensures Dot(k, Col5, Col4, ps) == 0.0 && Dot(k, Col6, Col4, ps) == 0.0 && Dot(k, Col6, Col5, ps) == 0.0
  {
    hide IsScaled, IsReduced, Sum, Dot, Normalizes, At;
    FieldsAreBuilt(k);
    Scaled(k, Col4, k.ix, Raw4, ps);
    DotSymmetric(k, Raw5, Col4, ps);
    DotSymmetric(k, Raw6, Col4, ps);
    DotSymmetric(k, Raw6, Col5, ps);
    NothingReduced(k, Rest5, Raw5, k.q45, Col4, Col4, ps);
    NothingScaled(k, Col5, k.iy, Rest5, Col4, ps);
    DotSymmetric(k, Col4, Col5, ps);
    Scaled(k, Col5, k.iy, Rest5, ps);
    DotReduced(k, Part6, Raw6, k.q56, Col5, Col4, ps);
    NothingReduced(k, Rest6, Part6, k.q46, Col4, Col4, ps);
    NothingScaled(k, Col6, k.iz, Rest6, Col4, ps);
    NothingReduced(k, Part6, Raw6, k.q56, Col5, Col5, ps);
    NothingReduced(k, Rest6, Part6, k.q46, Col4, Col5, ps);
    NothingScaled(k, Col6, k.iz, Rest6, Col5, ps);
    Scaled(k, Col6, k.iz, Rest6, ps);
  }

  lemma InnerSum(k: Frame, axis: nat, f: Field, a: Point, b: Point)
    requires f.Raw4? || f.Raw5? || f.Raw6?
    ensures Inner(ShiftAt(k, axis), At(k, f, Plus(a, b))) == Inner(ShiftAt(k, axis), At(k, f, a)) + Inner(ShiftAt(k, axis), At(k, f, b))
  {
    var c, d, e := At(k, f, a), At(k, f, b), At(k, f, Plus(a, b));
    assert e.x == c.x + d.x && e.y == c.y + d.y && e.z == c.z + d.z;
    hide At, ShiftAt;
    InnerPlus(ShiftAt(k, axis), c, d);
    assert e == Plus(c, d);
  }

  lemma InnerPlus(a: Point, b: Point, c: Point)
    ensures Inner(a, Plus(b, c)) == Inner(a, b) + Inner(a, c)
  {
    assert a.x * (b.x + c.x) == a.x * b.x + a.x * c.x;
    assert a.y * (b.y + c.y) == a.y * b.y + a.y * c.y;
    assert a.z * (b.z + c.z) == a.z * b.z + a.z * c.z;
  }

  /** A translation meets a rotation in the rotation of the summed nodes. */
  lemma {:induction false} DotShift(k: Frame, axis: nat, f: Field, ps: seq<Point>)
    requires f.Raw4? || f.Raw5? || f.Raw6?
    ensures Dot(k, Shift(axis), f, ps) == Inner(ShiftAt(k, axis), At(k, f, Sum(k.center, ps)))
  {
    if ps == [] {
      assert At(k, f, ORIGIN) == ORIGIN;
    } else {
      hide Inner, ShiftAt, Raw4At, Raw5At, Raw6At;
      DotShift(k, axis, f, ps[..|ps| - 1]);
      InnerSum(k, axis, f, Sum(k.center, ps[..|ps| - 1]), Minus(ps[|ps| - 1], k.center));
    }
  }

  lemma {:induction false} DotShifts(k: Frame, a: nat, b: nat, ps: seq<Point>)
    requires a < 3 && b < 3
    ensures Dot(k, Shift(a), Shift(b), ps) == if a == b then |ps| as real * (k.e * k.e) else 0.0
  {
    if ps != [] {
      DotShifts(k, a, b, ps[..|ps| - 1]);
      NextMultiple(k.e * k.e, |ps|);
      assert Inner(ShiftAt(k, a), ShiftAt(k, b)) == if a == b then k.e * k.e else 0.0;
    }
  }

  lemma ShiftsOrthonormal(k: Frame, a: nat, b: nat, ps: seq<Point>)
    requires a < 3 && b < 3 && Normalizes(k.e, |ps| as real)
    ensures Dot(k, Shift(a), Shift(b), ps) == if a == b then 1.0 else 0.0
  {
    DotShifts(k, a, b, ps);
  }

  lemma NextMultiple(s: real, n: nat)
    requires n > 0
    ensures n as real * s == (n - 1) as real * s + s
  {
    assert n as real == (n - 1) as real + 1.0;
  }

  lemma RawMeetsShift(k: Frame, axis: nat, f: Field, ps: seq<Point>)
    requires Sum(k.center, ps) == ORIGIN && (f.Raw4? || f.Raw5? || f.Raw6?)
    ensures Dot(k, f, Shift(axis), ps) == 0.0
  {
    hide Dot, Inner, ShiftAt, At;
    DotSymmetric(k, f, Shift(axis), ps);
    DotShift(k, axis, f, ps);
    NothingAtOrigin(k, f);
    InnerOrigin(ShiftAt(k, axis));
  }

  lemma NothingAtOrigin(k: Frame, f: Field)
    requires f.Raw4? || f.Raw5? || f.Raw6?
    ensures At(k, f, ORIGIN) == ORIGIN
  {
  }

  lemma InnerOrigin(a: Point)
    ensures Inner(a, ORIGIN) == 0.0
  {
  }

  /** Around the centre, translations are orthogonal to rotations. */
  lemma ShiftsOrthogonal(k: Frame, axis: nat, ps: seq<Point>)
    requires Sum(k.center, ps) == ORIGIN
    ensures Dot(k, Col4, Shift(axis), ps) == 0.0 && Dot(k, Col5, Shift(axis), ps) == 0.0 && Dot(k, Col6, Shift(axis), ps) == 0.0
  {
    hide IsScaled, IsReduced, Dot, At, Sum;
    var s := Shift(axis);
    FieldsAreBuilt(k);
    RawMeetsShift(k, axis, Raw4, ps);
    RawMeetsShift(k, axis, Raw5, ps);
    RawMeetsShift(k, axis, Raw6, ps);
    NothingScaled(k, Col4, k.ix, Raw4, s, ps);
    NothingReduced(k, Rest5, Raw5, k.q45, Col4, s, ps);
    NothingScaled(k, Col5, k.iy, Rest5, s, ps);
    NothingReduced(k, Part6, Raw6, k.q56, Col5, s, ps);
    NothingReduced(k, Rest6, Part6, k.q46, Col4, s, ps);
    NothingScaled(k, Col6, k.iz, Rest6, s, ps);
  }

  /** The six columns of the kernel. */
  function Column(c: nat): Field
    requires c < 6
  {
    match c
    case 0 => Shift(0)
    case 1 => Shift(1)
    case 2 => Shift(2)
    case 3 => Col4
    case 4 => Col5
    case _ => Col6
  }

  /** The kernel is orthonormal over the nodes its frame was computed from. */
  lemma KernelOrthonormal(k: Frame, ps: seq<Point>, a: nat, b: nat)
    requires IsFrame(k, ps) && a < 6 && b < 6
    ensures Dot(k, Column(a), Column(b), ps) == if a == b then 1.0 else 0.0
  {
    hide Dot, Sum;
    RotationsOrthonormal(k, ps);
    DotSymmetric(k, Column(a), Column(b), ps);
    if a < 3 && b < 3 {
      ShiftsOrthonormal(k, a, b, ps);
    } else if a < 3 {
      ShiftsOrthogonal(k, a, ps);
    } else if b < 3 {
      ShiftsOrthogonal(k, b, ps);
    }
  }

  /** An infinitesimal rigid motion: no distance between nodes changes to first order. */
  ghost predicate IsRigid(k: Frame, f: Field) {
    forall p, q :: Inner(Minus(p, q), Minus(At(k, f, p), At(k, f, q))) == 0.0
  }

  lemma RawIsRigid(k: Frame)
    ensures IsRigid(k, Raw4) && IsRigid(k, Raw5) && IsRigid(k, Raw6)
  {
    forall p: Point, q: Point
      ensures Inner(Minus(p, q), Minus(Raw4At(p), Raw4At(q))) == 0.0
      ensures Inner(Minus(p, q), Minus(Raw5At(p), Raw5At(q))) == 0.0
      ensures Inner(Minus(p, q), Minus(Raw6At(p), Raw6At(q))) == 0.0
    {
      var d := Minus(p, q);
      assert Minus(Raw4At(p), Raw4At(q)) == Point(-d.y, d.x, 0.0);
      assert Minus(Raw5At(p), Raw5At(q)) == Point(-d.z, 0.0, d.x);
      assert Minus(Raw6At(p), Raw6At(q)) == Point(0.0, -d.z, d.y);
    }
  }

  lemma ScaledIsRigid(k: Frame, f: Field, s: real, h: Field)
    requires IsScaled(k, f, s, h) && IsRigid(k, h)
    ensures IsRigid(k, f)
  {
    hide At, Minus, Times, Inner;
    forall p, q
      ensures Inner(Minus(p, q), Minus(At(k, f, p), At(k, f, q))) == 0.0
    {
      ScaledInner(Minus(p, q), At(k, h, p), At(k, h, q), s);
    }
  }

  lemma ScaledInner(d: Point, a: Point, b: Point, s: real)
    requires Inner(d, Minus(a, b)) == 0.0
    ensures Inner(d, Minus(Times(s, a), Times(s, b))) == 0.0
  {
    assert d.x * (s * a.x - s * b.x) == s * (d.x * (a.x - b.x));
    assert d.y * (s * a.y - s * b.y) == s * (d.y * (a.y - b.y));
    assert d.z * (s * a.z - s * b.z) == s * (d.z * (a.z - b.z));
    assert s * (d.x * (a.x - b.x)) + s * (d.y * (a.y - b.y)) + s * (d.z * (a.z - b.z)) == s * Inner(d, Minus(a, b));
  }

  lemma ReducedIsRigid(k: Frame, f: Field, h: Field, s: real, j: Field)
    requires IsReduced(k, f, h, s, j) && IsRigid(k, h) && IsRigid(k, j)
    ensures IsRigid(k, f)
  {
    hide At, Minus, Times, Inner;
    forall p, q
      ensures Inner(Minus(p, q), Minus(At(k, f, p), At(k, f, q))) == 0.0
    {
      ReducedInner(Minus(p, q), At(k, h, p), At(k, h, q), s, At(k, j, p), At(k, j, q));
    }
  }

  lemma ReducedInner(d: Point, a: Point, b: Point, s: real, v: Point, w: Point)
    requires Inner(d, Minus(a, b)) == 0.0 && Inner(d, Minus(v, w)) == 0.0
    ensures Inner(d, Minus(Minus(a, Times(s, v)), Minus(b, Times(s, w)))) == 0.0
  {
    var c := Minus(Minus(a, Times(s, v)), Minus(b, Times(s, w)));
    assert c == Minus(Minus(a, b), Times(s, Minus(v, w)));
    InnerReduced(c, Minus(a, b), s, Minus(v, w), d);
    InnerSwap(c, d);
    InnerSwap(Minus(a, b), d);
    InnerSwap(Minus(v, w), d);
  }

  lemma InnerSwap(a: Point, b: Point)
    ensures Inner(a, b) == Inner(b, a)
  {
  }

  /** Every column of the kernel is a rigid motion, whatever the frame. */
  lemma KernelIsRigid(k: Frame, c: nat, p: Point, q: Point)
    requires c < 6
    ensures Inner(Minus(p, q), Minus(Of(k, Column(c), p), Of(k, Column(c), q))) == 0.0
  {
    FieldsAreBuilt(k);
    RawIsRigid(k);
    hide At, IsScaled, IsReduced;
    ScaledIsRigid(k, Col4, k.ix, Raw4);
    ReducedIsRigid(k, Rest5, Raw5, k.q45, Col4);
    ScaledIsRigid(k, Col5, k.iy, Rest5);
    ReducedIsRigid(k, Part6, Raw6, k.q56, Col5);
    ReducedIsRigid(k, Rest6, Part6, k.q46, Col4);
    ScaledIsRigid(k, Col6, k.iz, Rest6);
    var a, b := Minus(p, k.center), Minus(q, k.center);
    assert Minus(p, q) == Minus(a, b);
    if c < 3 {
      ShiftStays(k, c, a, b);
    } else {
      hide Minus, Inner;
    }
  }

  lemma ShiftStays(k: Frame, axis: nat, a: Point, b: Point)
    ensures Minus(At(k, Shift(axis), a), At(k, Shift(axis), b)) == ORIGIN
  {
  }

  function Cross(a: Point, b: Point): Point {
    Point(a.y * b.z - a.z * b.y, a.z * b.x - a.x * b.z, a.x * b.y - a.y * b.x)
  }

  lemma TimesCross(s: real, w: Point, q: Point)
    ensures Times(s, Cross(w, q)) == Cross(Times(s, w), q)
  {
    hide *;
    TimesCrossX(s, w, q);
    TimesCrossY(s, w, q);
    TimesCrossZ(s, w, q);
  }

  lemma TimesCrossX(s: real, w: Point, q: Point)
    ensures Times(s, Cross(w, q)).x == Cross(Times(s, w), q).x
  {
    ScaledPart(s, w.y, q.z, w.z, q.y, Times(s, w).y, Times(s, w).z, Cross(w, q).x, Times(s, Cross(w, q)).x);
  }

  lemma TimesCrossY(s: real, w: Point, q: Point)
    ensures Times(s, Cross(w, q)).y == Cross(Times(s, w), q).y
  {
    ScaledPart(s, w.z, q.x, w.x, q.z, Times(s, w).z, Times(s, w).x, Cross(w, q).y, Times(s, Cross(w, q)).y);
  }

  lemma TimesCrossZ(s: real, w: Point, q: Point)
    ensures Times(s, Cross(w, q)).z == Cross(Times(s, w), q).z
  {
    ScaledPart(s, w.x, q.y, w.y, q.x, Times(s, w).x, Times(s, w).y, Cross(w, q).z, Times(s, Cross(w, q)).z);
  }

  lemma ScaledPart(s: real, a: real, b: real, c: real, d: real, sa: real, sc: real, x: real, sx: real)
    requires sa == s * a && sc == s * c && x == a * b - c * d && sx == s * x
    ensures sx == sa * b - sc * d
  {
    ProductsApart(s, a * b, c * d);
    Associated(s, a, b);
    Associated(s, c, d);
  }

  lemma Associated(s: real, a: real, b: real)
    ensures s * (a * b) == (s * a) * b
  {
  }

  lemma ProductsApart(s: real, x: real, y: real)
    ensures s * (x - y) == s * x - s * y
  {
  }

  lemma MinusCross(v: Point, w: Point, q: Point)
    ensures Minus(Cross(v, q), Cross(w, q)) == Cross(Minus(v, w), q)
  {
  }

  /** A point turned about the axes, as `Raw4At`, `Raw5At` and `Raw6At` have it. */
  lemma RawCross(q: Point)
    ensures Raw4At(q) == Cross(Point(0.0, 0.0, 1.0), q) && Raw5At(q) == Cross(Point(0.0, -1.0, 0.0), q)
    ensures Raw6At(q) == Cross(Point(1.0, 0.0, 0.0), q)
  {
  }

  /** Which motion each column is: a translation along one axis, or a rotation about the centre. */
  lemma ColumnMotions(k: Frame, p: Point)
    ensures Of(k, Column(0), p) == Point(k.e, 0.0, 0.0) && Of(k, Column(1), p) == Point(0.0, k.e, 0.0)
    ensures Of(k, Column(2), p) == Point(0.0, 0.0, k.e)
    ensures var q, w4 := Minus(p, k.center), Times(k.ix, Point(0.0, 0.0, 1.0));
      var w5 := Times(k.iy, Minus(Point(0.0, -1.0, 0.0), Times(k.q45, w4)));
      var w6 := Times(k.iz, Minus(Minus(Point(1.0, 0.0, 0.0), Times(k.q56, w5)), Times(k.q46, w4)));
      Of(k, Column(3), p) == Cross(w4, q) && Of(k, Column(4), p) == Cross(w5, q) && Of(k, Column(5), p) == Cross(w6, q)
  {
    hide Minus, Times, Cross, Raw4At, Raw5At, Raw6At;
    var q, x, y, z := Minus(p, k.center), Point(1.0, 0.0, 0.0), Point(0.0, -1.0, 0.0), Point(0.0, 0.0, 1.0);
    RawCross(q);
    TimesCross(k.ix, z, q);
    var w4 := Times(k.ix, z);
    TimesCross(k.q45, w4, q);
    MinusCross(y, Times(k.q45, w4), q);
    TimesCross(k.iy, Minus(y, Times(k.q45, w4)), q);
    var w5 := Times(k.iy, Minus(y, Times(k.q45, w4)));
    TimesCross(k.q56, w5, q);
    MinusCross(x, Times(k.q56, w5), q);
    var part := Minus(x, Times(k.q56, w5));
    TimesCross(k.q46, w4, q);
    MinusCross(part, Times(k.q46, w4), q);
    TimesCross(k.iz, Minus(part, Times(k.q46, w4)), q);
  }

  ghost predicate OnLine(p: Point, a: Point, d: Point) {
    Cross(Minus(p, a), d) == ORIGIN
  }

  ghost predicate LineThrough(ps: seq<Point>, a: Point, d: Point) {
    d != ORIGIN && forall i :: 0 <= i < |ps| ==> OnLine(ps[i], a, d)
  }

  ghost predicate Collinear(ps: seq<Point>) {
    exists a, d :: LineThrough(ps, a, d)
  }

  lemma SquaresAdd(a: Point)
    ensures Inner(a, a) >= 0.0 && (Inner(a, a) == 0.0 ==> a == ORIGIN)
  {
    NoSquare(a.x, a.x * a.x);
    NoSquare(a.y, a.y * a.y);
    NoSquare(a.z, a.z * a.z);
  }

  lemma NoSquare(x: real, s: real)
    requires s == x * x
    ensures s >= 0.0 && (s == 0.0 ==> x == 0.0)
  {
    if x > 0.0 {
      PositiveProduct(x, x, s);
    } else if x < 0.0 {
      NegativeProduct(x, x, s);
    }
  }

  lemma PositiveProduct(a: real, b: real, s: real)
    requires s == a * b && a > 0.0 && b > 0.0
    ensures s > 0.0
  {
  }

  lemma NegativeProduct(a: real, b: real, s: real)
    requires s == a * b && a < 0.0 && b < 0.0
    ensures s > 0.0
  {
  }

  /** A displacement of length 0 moves no node. */
  lemma {:induction false} NothingMoved(k: Frame, f: Field, ps: seq<Point>)
    ensures Dot(k, f, f, ps) >= 0.0
    ensures Dot(k, f, f, ps) == 0.0 ==> forall i :: 0 <= i < |ps| ==> Of(k, f, ps[i]) == ORIGIN
  {
    hide Of, Inner;
    if ps != [] {
      NothingMoved(k, f, ps[..|ps| - 1]);
      SquaresAdd(Of(k, f, ps[|ps| - 1]));
    }
  }

  /** Unless all nodes are on a line, no norm is 0. */
  lemma NormsPositive(k: Frame, ps: seq<Point>)
    requires !Collinear(ps)
    ensures Dot(k, Raw4, Raw4, ps) > 0.0 && Dot(k, Rest5, Rest5, ps) > 0.0 && Dot(k, Rest6, Rest6, ps) > 0.0
  {
    hide Dot;
    NothingMoved(k, Raw4, ps);
    NothingMoved(k, Rest5, ps);
    NothingMoved(k, Rest6, ps);
    if Dot(k, Raw4, Raw4, ps) == 0.0 {
      AllOnLine(k, Raw4, ps, Point(0.0, 0.0, 1.0));
    }
    if Dot(k, Rest5, Rest5, ps) == 0.0 {
      AllOnLine(k, Rest5, ps, Point(0.0, 1.0, k.q45 * k.ix));
    }
    if Dot(k, Rest6, Rest6, ps) == 0.0 {
      AllOnLine(k, Rest6, ps, Point(1.0, k.q56 * k.iy, k.q56 * k.iy * (k.q45 * k.ix) - k.q46 * k.ix));
    }
  }

  /** The axis of the rotation that is left of a field. */
  ghost predicate IsAxis(k: Frame, f: Field, d: Point) {
    match f
    case Raw4 => d == Point(0.0, 0.0, 1.0)
    case Rest5 => d == Point(0.0, 1.0, k.q45 * k.ix)
    case Rest6 => d == Point(1.0, k.q56 * k.iy, k.q56 * k.iy * (k.q45 * k.ix) - k.q46 * k.ix)
    case _ => false
  }

  lemma AllOnLine(k: Frame, f: Field, ps: seq<Point>, d: Point)
    requires IsAxis(k, f, d) && forall i :: 0 <= i < |ps| ==> Of(k, f, ps[i]) == ORIGIN
    ensures Collinear(ps)
  {
    forall i | 0 <= i < |ps|
      ensures OnLine(ps[i], k.center, d)
    {
      assert Of(k, f, ps[i]) == ORIGIN;
      StaysOnAxis(k, f, d, Minus(ps[i], k.center));
    }
    hide OnLine, Of;
    assert LineThrough(ps, k.center, d);
  }

  /** A rotation leaves only its axis in place. */
  lemma StaysOnAxis(k: Frame, f: Field, d: Point, p: Point)
    requires IsAxis(k, f, d) && At(k, f, p) == ORIGIN
    ensures Cross(p, d) == ORIGIN
  {
    hide Rest5At, Rest6At;
    var b, t, c := k.q56 * k.iy, k.q45 * k.ix, k.q46 * k.ix;
    if f.Rest5? {
      RestOfFive(k, p, t);
    } else if f.Rest6? {
      RestOfSix(k, p, b, t, c);
      Axis(b, c - b * t, p);
    }
  }

  lemma Axis(b: real, a: real, p: Point)
    requires p.y == b * p.x && p.z == -(a * p.x)
    ensures Cross(p, Point(1.0, b, -a)) == ORIGIN
  {
    assert (b * p.x) * -a == -(a * (b * p.x)) && -(a * p.x) * b == -(a * (b * p.x));
  }

  lemma TimesTimes(q: real, s: real, a: Point, x: real)
    requires x == q * s
    ensures Times(q, Times(s, a)) == Times(x, a)
  {
  }

  lemma RestOfFive(k: Frame, p: Point, t: real)
    requires t == k.q45 * k.ix
    ensures Rest5At(k, p) == Point(-p.z + t * p.y, -(t * p.x), p.x)
  {
    TimesTimes(k.q45, k.ix, Raw4At(p), t);
  }

  lemma RestOfSix(k: Frame, p: Point, b: real, t: real, c: real)
    requires b == k.q56 * k.iy && t == k.q45 * k.ix && c == k.q46 * k.ix
    ensures Rest6At(k, p) == Point(b * p.z + (c - b * t) * p.y, -p.z - (c - b * t) * p.x, p.y - b * p.x)
  {
    hide Rest5At, Rest6At, Raw4At, Raw6At, Times, Minus;
    SixOpened(k, p);
    RestOfFive(k, p, t);
    TimesTimes(k.q56, k.iy, Rest5At(k, p), b);
    TimesTimes(k.q46, k.ix, Raw4At(p), c);
    Collected(b, t, c, p);
  }

  lemma SixOpened(k: Frame, p: Point)
    ensures Rest6At(k, p) ==
      Minus(Minus(Raw6At(p), Times(k.q56, Times(k.iy, Rest5At(k, p)))), Times(k.q46, Times(k.ix, Raw4At(p))))
  {
    hide Rest5At, Raw4At, Raw6At, Times, Minus;
  }

  lemma Collected(b: real, t: real, c: real, p: Point)
    ensures Minus(Minus(Raw6At(p), Times(b, Point(-p.z + t * p.y, -(t * p.x), p.x))), Times(c, Raw4At(p)))
         == Point(b * p.z + (c - b * t) * p.y, -p.z - (c - b * t) * p.x, p.y - b * p.x)
  {
    Difference(c, b, t, p.x);
    Difference(c, b, t, p.y);
    var u, v := t * p.x, t * p.y;
    Opened(b, p.z, v, c, p.y);
    assert b * -u == -(b * u);
  }

  lemma Opened(b: real, z: real, v: real, c: real, y: real)
    ensures b * (-z + v) == b * v - b * z && c * -y == -(c * y)
  {
  }

  lemma Difference(c: real, b: real, t: real, x: real)
    ensures (c - b * t) * x == c * x - b * (t * x)
  {
    var s := b * t;
    assert (c - s) * x == c * x - s * x;
    Nested(b, t, x);
  }

  lemma Nested(q: real, s: real, x: real)
    ensures q * (s * x) == q * s * x
  {
  }

  /** The inner product with the rotation about `d`. */
  function Spin(d: Point, four: real, five: real, six: real): real {
    d.z * four - d.y * five + d.x * six
  }

  /** The rotation about a line moves none of its nodes. */
  lemma {:induction false} SpinVanishes(k: Frame, g: Field, ps: seq<Point>, d: Point)
    requires forall i :: 0 <= i < |ps| ==> OnLine(ps[i], k.center, d)
    ensures Spin(d, Dot(k, Raw4, g, ps), Dot(k, Raw5, g, ps), Dot(k, Raw6, g, ps)) == 0.0
  {
    hide Inner, Cross;
    if ps != [] {
      SpinVanishes(k, g, ps[..|ps| - 1], d);
      var q := Minus(ps[|ps| - 1], k.center);
      assert OnLine(ps[|ps| - 1], k.center, d);
      SpinOfNode(q, d, At(k, g, q));
      hide At, Spin, OnLine, Minus;
      SpinAdds(d, Dot(k, Raw4, g, ps[..|ps| - 1]), Dot(k, Raw5, g, ps[..|ps| - 1]), Dot(k, Raw6, g, ps[..|ps| - 1]),
        Inner(At(k, Raw4, q), At(k, g, q)), Inner(At(k, Raw5, q), At(k, g, q)), Inner(At(k, Raw6, q), At(k, g, q)));
    }
  }

  lemma SpinAdds(d: Point, a: real, b: real, c: real, u: real, v: real, w: real)
    ensures Spin(d, a + u, b + v, c + w) == Spin(d, a, b, c) + Spin(d, u, v, w)
  {
    assert d.z * (a + u) == d.z * a + d.z * u;
    assert d.y * (b + v) == d.y * b + d.y * v;
    assert d.x * (c + w) == d.x * c + d.x * w;
  }

  lemma SpinOfNode(p: Point, d: Point, w: Point)
    requires Cross(p, d) == ORIGIN
    ensures Spin(d, Inner(Raw4At(p), w), Inner(Raw5At(p), w), Inner(Raw6At(p), w)) == 0.0
  {
    SpinProduct(d.z, p.y, p.x, w.x, w.y);
    SpinProduct(d.y, p.z, -p.x, w.x, w.z);
    SpinProduct(d.x, p.z, p.y, w.y, w.z);
    Cancels(d.z, p.y, d.y, p.z, w.x);
    Cancels(d.z, p.x, d.x, p.z, w.y);
    Cancels(d.y, p.x, d.x, p.y, w.z);
  }

  lemma SpinProduct(d: real, a: real, b: real, u: real, v: real)
    ensures d * (-a * u + b * v) == -(d * a * u) + d * b * v
  {
    assert d * (-a * u) == -(d * a * u);
    assert d * (b * v) == d * b * v;
  }

  lemma Cancels(d: real, a: real, e: real, b: real, w: real)
    requires a * d - b * e == 0.0 || b * e - a * d == 0.0
    ensures d * a * w == e * b * w
  {
    assert d * a == e * b;
  }

  /** What is left of a rotation is orthogonal to the columns before it, and not to its own. */
  lemma RawProducts(k: Frame, ps: seq<Point>)
    requires IsFrame(k, ps)
    ensures Dot(k, Raw4, Col6, ps) == 0.0 && Dot(k, Raw5, Col6, ps) == 0.0 && Dot(k, Raw6, Col6, ps) != 0.0
    ensures Dot(k, Raw4, Col5, ps) == 0.0 && Dot(k, Raw5, Col5, ps) != 0.0 && Dot(k, Raw4, Col4, ps) != 0.0
  {
    hide IsScaled, IsReduced, Sum, Dot, At;
    assert Normalizes(k.ix, Dot(k, Raw4, Raw4, ps)) && Normalizes(k.iy, Dot(k, Rest5, Rest5, ps));
    hide Normalizes;
    FieldsAreBuilt(k);
    RotationsOrthonormal(k, ps);
    DotSymmetric(k, Col4, Col5, ps);
    DotSymmetric(k, Col4, Col6, ps);
    DotSymmetric(k, Col5, Col6, ps);
    DotScaled(k, Col4, k.ix, Raw4, Col4, ps);
    DotScaled(k, Col4, k.ix, Raw4, Col5, ps);
    DotScaled(k, Col4, k.ix, Raw4, Col6, ps);
    DotScaled(k, Col5, k.iy, Rest5, Col5, ps);
    DotScaled(k, Col5, k.iy, Rest5, Col6, ps);
    DotScaled(k, Col6, k.iz, Rest6, Col6, ps);
    DotReduced(k, Rest5, Raw5, k.q45, Col4, Col5, ps);
    DotReduced(k, Rest5, Raw5, k.q45, Col4, Col6, ps);
    DotReduced(k, Part6, Raw6, k.q56, Col5, Col6, ps);
    DotReduced(k, Rest6, Part6, k.q46, Col4, Col6, ps);
    NonZero(k.ix, Dot(k, Raw4, Raw4, ps), Dot(k, Raw4, Col5, ps));
    NonZero(k.ix, Dot(k, Raw4, Raw4, ps), Dot(k, Raw4, Col6, ps));
    NonZero(k.iy, Dot(k, Rest5, Rest5, ps), Dot(k, Rest5, Col6, ps));
  }

  lemma NonZero(s: real, d: real, x: real)
    requires Normalizes(s, d) && s * x == 0.0
    ensures x == 0.0
  {
  }

  lemma LineThroughCenter(k: Frame, ps: seq<Point>, a: Point, d: Point)
    requires Sum(k.center, ps) == ORIGIN && LineThrough(ps, a, d) && ps != []
    ensures LineThrough(ps, k.center, d)
  {
    var v := Minus(k.center, a);
    SumOnLine(k.center, a, ps, d);
    Repeated(|ps| as real, Cross(v, d));
    forall i | 0 <= i < |ps|
      ensures OnLine(ps[i], k.center, d)
    {
      assert OnLine(ps[i], a, d);
      CrossMinus(Minus(ps[i], a), v, d);
    }
    hide OnLine;
  }

  lemma Repeated(n: real, c: Point)
    requires n > 0.0 && Times(n, c) == ORIGIN
    ensures c == ORIGIN
  {
  }

  lemma CrossMinus(a: Point, b: Point, d: Point)
    requires Cross(a, d) == ORIGIN && Cross(b, d) == ORIGIN
    ensures Cross(Minus(a, b), d) == ORIGIN
  {
    CrossPlus(a, Times(-1.0, b), d);
    assert Minus(a, b) == Plus(a, Times(-1.0, b)) && Cross(Times(-1.0, b), d) == Times(-1.0, Cross(b, d));
  }

  lemma CrossPlus(a: Point, b: Point, d: Point)
    ensures Cross(Plus(a, b), d) == Plus(Cross(a, d), Cross(b, d))
  {
    assert (a.x + b.x) * d.y == a.x * d.y + b.x * d.y && (a.x + b.x) * d.z == a.x * d.z + b.x * d.z;
    assert (a.y + b.y) * d.x == a.y * d.x + b.y * d.x && (a.y + b.y) * d.z == a.y * d.z + b.y * d.z;
    assert (a.z + b.z) * d.x == a.z * d.x + b.z * d.x && (a.z + b.z) * d.y == a.z * d.y + b.z * d.y;
  }

  /** Summed around `c`, nodes on a line through `a` leave that line by as many steps from `c` to `a`. */
  lemma {:induction false} SumOnLine(c: Point, a: Point, ps: seq<Point>, d: Point)
    requires forall i :: 0 <= i < |ps| ==> OnLine(ps[i], a, d)
    ensures Plus(Cross(Sum(c, ps), d), Times(|ps| as real, Cross(Minus(c, a), d))) == ORIGIN
  {
    if ps != [] {
      SumOnLine(c, a, ps[..|ps| - 1], d);
      var q, v := ps[|ps| - 1], Cross(Minus(c, a), d);
      assert OnLine(q, a, d);
      CrossPlus(Minus(q, c), Minus(c, a), d);
      assert Plus(Minus(q, c), Minus(c, a)) == Minus(q, a);
      CrossPlus(Sum(c, ps[..|ps| - 1]), Minus(q, c), d);
      TimesNext(|ps|, v);
    }
  }

  lemma TimesNext(n: nat, v: Point)
    requires n > 0
    ensures Times(n as real, v) == Plus(Times((n - 1) as real, v), v)
  {
    NextMultiple(v.x, n);
    NextMultiple(v.y, n);
    NextMultiple(v.z, n);
  }

  /** Nodes on a line have no frame: some norm is 0, whatever the sizes. */
  lemma CollinearHasNoFrame(k: Frame, ps: seq<Point>)
    requires Collinear(ps)
    ensures !IsFrame(k, ps)
  {
    hide Sum, Dot, OnLine, Normalizes;
    if IsFrame(k, ps) {
      var a, d :| LineThrough(ps, a, d);
      FrameHasNodes(k, ps);
      LineThroughCenter(k, ps, a, d);
      SpinVanishes(k, Col4, ps, d);
      SpinVanishes(k, Col5, ps, d);
      SpinVanishes(k, Col6, ps, d);
      RawProducts(k, ps);
      NoFactor(d.x, Dot(k, Raw6, Col6, ps));
      NoFactor(d.y, Dot(k, Raw5, Col5, ps));
      NoFactor(d.z, Dot(k, Raw4, Col4, ps));
    }
  }

  lemma FrameHasNodes(k: Frame, ps: seq<Point>)
    requires IsFrame(k, ps)
    ensures ps != []
  {
  }

  lemma NoFactor(a: real, b: real)
    requires b != 0.0
    ensures a * b == 0.0 ==> a == 0.0
  {
  }
}
