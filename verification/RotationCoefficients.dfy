/**
 * The sums over the nodes that `StructuralMechanics::prepare` takes pass by pass, and what they
 * are: norms and coefficients of an orthonormal frame.
 */
module RotationCoefficients {
  import opened RigidMotions

  /** What `prepare` keeps for a domain or a cluster. */
  datatype Coefficients = Coefficients(center: Point, norm: Point, r44: real, r45: real, r46: real, r55: real, r56: real, np: nat)

  /** The sums `prepare` takes over the nodes, in the order of its passes. */
  datatype Term = Norm4 | R44 | R45 | Norm5 | R46 | R55 | R56 | Norm6

  /** The divisors of a term are there. */
  predicate Ready(t: Term, c: Coefficients) {
    match t
    case Norm4 => true
    case R44 => c.norm.x != 0.0
    case R45 => c.norm.x != 0.0
    case Norm5 => c.norm.x != 0.0 && c.r44 != 0.0
    case R46 => c.norm.x != 0.0
    case R55 => c.norm.x != 0.0 && c.r44 != 0.0 && c.norm.y != 0.0
    case R56 => c.norm.x != 0.0 && c.r44 != 0.0 && c.norm.y != 0.0
    case Norm6 => c.norm.x != 0.0 && c.r44 != 0.0 && c.norm.y != 0.0 && c.r55 != 0.0
  }

  function Square(x: real): real {
    x * x
  }

  function Over(a: real, n: real): real
    requires n != 0.0
  {
    a / n
  }

  /** One component of the fifth column before it is divided by its norm. */
  function Five(c: Coefficients, raw: real, col4: real): real
    requires Ready(Norm5, c)
  {
    raw - c.r45 / c.r44 * col4
  }

  /** One component of the sixth column before it is divided by its norm. */
  function Six(c: Coefficients, raw: real, rest5: real, col4: real): real
    requires Ready(Norm6, c)
  {
    raw - c.r56 / c.r55 * rest5 / c.norm.y - c.r46 / c.r44 * col4
  }

  /** What a node at `q` adds. */
  function Value(t: Term, c: Coefficients, q: Point): real
    requires Ready(t, c)
  {
    var p := Minus(q, c.center);
    match t
    case Norm4 => p.x * p.x + p.y * p.y
    case R44 => Square(Over(-p.y, c.norm.x)) + Square(Over(p.x, c.norm.x))
    case R45 => Over(-p.y, c.norm.x) * -p.z
    case Norm5 => Square(Five(c, -p.z, Over(-p.y, c.norm.x))) + Square(Five(c, 0.0, Over(p.x, c.norm.x))) + p.x * p.x
    case R46 => Over(p.x, c.norm.x) * -p.z
    case R55 =>
      Square(Over(Five(c, -p.z, Over(-p.y, c.norm.x)), c.norm.y))
      + Square(Over(Five(c, 0.0, Over(p.x, c.norm.x)), c.norm.y))
      + Square(Over(p.x - 0.0, c.norm.y))
    case R56 =>
      Over(Five(c, -p.z, Over(-p.y, c.norm.x)), c.norm.y) * 0.0
      + Over(Five(c, 0.0, Over(p.x, c.norm.x)), c.norm.y) * -p.z
      + Over(p.x - 0.0, c.norm.y) * p.y
    case Norm6 =>
      Square(Six(c, 0.0, Five(c, -p.z, Over(-p.y, c.norm.x)), Over(-p.y, c.norm.x)))
      + Square(Six(c, -p.z, Five(c, 0.0, Over(p.x, c.norm.x)), Over(p.x, c.norm.x)))
      + Square(Six(c, p.y, p.x - 0.0, Over(0.0, c.norm.x)))
  }

  function Total(t: Term, c: Coefficients, ps: seq<Point>): real
    requires Ready(t, c)
  {
    if ps == [] then 0.0 else Total(t, c, ps[..|ps| - 1]) + Value(t, c, ps[|ps| - 1])
  }

  function Reciprocal(x: real): real {
    if x == 0.0 then 0.0 else 1.0 / x
  }

  function Quotient(a: real, b: real): real {
    if b == 0.0 then 0.0 else a / b
  }

  /** The frame these coefficients stand for; `root` is the square root of the node count. */
  function FrameOf(c: Coefficients, root: real): Frame {
    Frame(c.center, Reciprocal(root), Reciprocal(c.norm.x), Quotient(c.r45, c.r44), Reciprocal(c.norm.y), Quotient(c.r56, c.r55),
      Quotient(c.r46, c.r44), Reciprocal(c.norm.z))
  }

  /** Every term is an inner product of two displacements. */
  function Left(t: Term): Field {
    match t
    case Norm4 => Raw4
    case R44 => Col4
    case R45 => Col4
    case Norm5 => Rest5
    case R46 => Col4
    case R55 => Col5
    case R56 => Col5
    case Norm6 => Rest6
  }

  function Right(t: Term): Field {
    match t
    case Norm4 => Raw4
    case R44 => Col4
    case R45 => Raw5
    case Norm5 => Rest5
    case R46 => Raw6
    case R55 => Col5
    case R56 => Raw6
    case Norm6 => Rest6
  }

  lemma Divided(a: real, n: real)
    requires n != 0.0
    ensures Over(a, n) == Reciprocal(n) * a
  {
  }

  lemma Col4Divided(c: Coefficients, root: real, p: Point)
    requires c.norm.x != 0.0
    ensures Col4At(FrameOf(c, root), p) == Point(Over(-p.y, c.norm.x), Over(p.x, c.norm.x), Over(0.0, c.norm.x))
    ensures Over(0.0, c.norm.x) == 0.0
  {
    Divided(-p.y, c.norm.x);
    Divided(p.x, c.norm.x);
    Divided(0.0, c.norm.x);
  }

  lemma Rest5Divided(c: Coefficients, root: real, p: Point)
    requires Ready(Norm5, c)
    ensures Rest5At(FrameOf(c, root), p)
         == Point(Five(c, -p.z, Over(-p.y, c.norm.x)), Five(c, 0.0, Over(p.x, c.norm.x)), p.x - 0.0)
  {
    hide Col4At, Over;
    Col4Divided(c, root, p);
  }

  lemma Col5Divided(c: Coefficients, root: real, p: Point)
    requires Ready(R55, c)
    ensures var v := Rest5At(FrameOf(c, root), p);
      Col5At(FrameOf(c, root), p) == Point(Over(v.x, c.norm.y), Over(v.y, c.norm.y), Over(v.z, c.norm.y))
  {
    hide Rest5At, Over;
    var v := Rest5At(FrameOf(c, root), p);
    Divided(v.x, c.norm.y);
    Divided(v.y, c.norm.y);
    Divided(v.z, c.norm.y);
  }

  lemma SixDivided(c: Coefficients, raw: real, rest5: real, col4: real)
    requires Ready(Norm6, c)
    ensures Six(c, raw, rest5, col4)
         == raw - Quotient(c.r56, c.r55) * (Reciprocal(c.norm.y) * rest5) - Quotient(c.r46, c.r44) * col4
  {
    ProductOfQuotient(c.r56 / c.r55, rest5, c.norm.y);
  }

  lemma ProductOfQuotient(q: real, v: real, n: real)
    requires n != 0.0
    ensures q * v / n == q * (Reciprocal(n) * v)
  {
    Divided(v, n);
    Divided(q * v, n);
  }

  lemma Rest6Divided(c: Coefficients, root: real, p: Point)
    requires Ready(Norm6, c)
    ensures var v, w := Rest5At(FrameOf(c, root), p), Col4At(FrameOf(c, root), p);
      Rest6At(FrameOf(c, root), p) == Point(Six(c, 0.0, v.x, w.x), Six(c, -p.z, v.y, w.y), Six(c, p.y, v.z, w.z))
  {
    hide Rest5At, Col4At, Six, Quotient, Reciprocal;
    var v, w := Rest5At(FrameOf(c, root), p), Col4At(FrameOf(c, root), p);
    SixDivided(c, 0.0, v.x, w.x);
    SixDivided(c, -p.z, v.y, w.y);
    SixDivided(c, p.y, v.z, w.z);
  }

  lemma InnerSquares(a: Point)
    ensures Inner(a, a) == Square(a.x) + Square(a.y) + Square(a.z)
  {
  }

  lemma InnerRaw(a: Point, p: Point)
    ensures Inner(a, Raw5At(p)) == a.x * -p.z + a.z * p.x
    ensures Inner(a, Raw6At(p)) == a.x * 0.0 + a.y * -p.z + a.z * p.y
  {
  }

  lemma NoSquareOfNothing()
    ensures Square(0.0) == 0.0
  {
  }

  /** The sums over the fourth column. */
  lemma ValueWithFour(t: Term, c: Coefficients, root: real, p: Point, q: Point)
    requires (t.R44? || t.R45? || t.R46?) && Ready(t, c) && p == Minus(q, c.center)
    ensures Value(t, c, q) == Inner(At(FrameOf(c, root), Left(t), p), At(FrameOf(c, root), Right(t), p))
  {
    hide Col4At, Inner, Square, Raw5At, Raw6At, FrameOf, Over;
    Col4Divided(c, root, p);
    var w := Col4At(FrameOf(c, root), p);
    InnerSquares(w);
    InnerRaw(w, p);
    NoSquareOfNothing();
  }

  /** The sums over the fifth column. */
  lemma ValueWithFive(t: Term, c: Coefficients, root: real, p: Point, q: Point)
    requires (t.R55? || t.R56?) && Ready(t, c) && p == Minus(q, c.center)
    ensures Value(t, c, q) == Inner(At(FrameOf(c, root), Left(t), p), At(FrameOf(c, root), Right(t), p))
  {
    hide Rest5At, Col5At, Inner, Square, Raw6At, FrameOf, Over, Five;
    Rest5Divided(c, root, p);
    Col5Divided(c, root, p);
    var w := Col5At(FrameOf(c, root), p);
    InnerSquares(w);
    InnerRaw(w, p);
  }

  lemma ValueOfNorm6(c: Coefficients, root: real, p: Point, q: Point)
    requires Ready(Norm6, c) && p == Minus(q, c.center)
    ensures Value(Norm6, c, q) == Inner(Rest6At(FrameOf(c, root), p), Rest6At(FrameOf(c, root), p))
  {
    hide Rest5At, Col4At, Rest6At, Square, FrameOf, Inner, Six, Five, Over;
    Rest5Divided(c, root, p);
    Col4Divided(c, root, p);
    Rest6Divided(c, root, p);
    InnerSquares(Rest6At(FrameOf(c, root), p));
  }

  lemma ValueOfNorm5(c: Coefficients, root: real, p: Point, q: Point)
    requires Ready(Norm5, c) && p == Minus(q, c.center)
    ensures Value(Norm5, c, q) == Inner(Rest5At(FrameOf(c, root), p), Rest5At(FrameOf(c, root), p))
  {
    hide Rest5At, FrameOf, Five, Over;
    Rest5Divided(c, root, p);
    InnerSquares(Rest5At(FrameOf(c, root), p));
  }

  lemma ValueOfNorm4(c: Coefficients, p: Point, q: Point)
    requires p == Minus(q, c.center)
    ensures Value(Norm4, c, q) == Inner(Raw4At(p), Raw4At(p))
  {
    assert -p.y * -p.y == p.y * p.y;
  }

  /** Each term is the inner product of its two displacements. */
  lemma ValueIsInner(t: Term, c: Coefficients, root: real, q: Point)
    requires Ready(t, c)
    ensures Value(t, c, q) == Inner(Of(FrameOf(c, root), Left(t), q), Of(FrameOf(c, root), Right(t), q))
  {
    hide Value, Rest5At, Rest6At, Col4At, Col5At, Raw4At, Raw5At, Raw6At, Inner;
    var p := Minus(q, c.center);
    match t {
      case Norm4 => ValueOfNorm4(c, p, q);
      case Norm5 => ValueOfNorm5(c, root, p, q);
      case Norm6 => ValueOfNorm6(c, root, p, q);
      case R44 => ValueWithFour(t, c, root, p, q);
      case R45 => ValueWithFour(t, c, root, p, q);
      case R46 => ValueWithFour(t, c, root, p, q);
      case R55 => ValueWithFive(t, c, root, p, q);
      case R56 => ValueWithFive(t, c, root, p, q);
    }
  }

  lemma {:induction false} TotalIsDot(t: Term, c: Coefficients, root: real, ps: seq<Point>)
    requires Ready(t, c)
    ensures Total(t, c, ps) == Dot(FrameOf(c, root), Left(t), Right(t), ps)
  {
    hide Value, Inner, Of, FrameOf;
    if ps != [] {
      TotalIsDot(t, c, root, ps[..|ps| - 1]);
      ValueIsInner(t, c, root, ps[|ps| - 1]);
    }
  }

  lemma {:induction false} TotalAppend(t: Term, c: Coefficients, ps: seq<Point>, qs: seq<Point>)
    requires Ready(t, c)
    ensures Total(t, c, ps + qs) == Total(t, c, ps) + Total(t, c, qs)
  {
    hide Value;
    if qs == [] {
      assert ps + qs == ps;
    } else {
      TotalAppend(t, c, ps, qs[..|qs| - 1]);
      assert (ps + qs)[..|ps + qs| - 1] == ps + qs[..|qs| - 1];
    }
  }

  /** Coefficients that differ at most in what a term does not use. */
  ghost predicate Agree(t: Term, c: Coefficients, d: Coefficients) {
    && c.center == d.center
    && (!t.Norm4? ==> c.norm.x == d.norm.x)
    && (t.Norm5? || t.R55? || t.R56? || t.Norm6? ==> c.r44 == d.r44 && c.r45 == d.r45)
    && (t.R55? || t.R56? || t.Norm6? ==> c.norm.y == d.norm.y)
    && (t.Norm6? ==> c.r46 == d.r46 && c.r55 == d.r55 && c.r56 == d.r56)
  }

  lemma {:induction false} TotalKept(t: Term, c: Coefficients, d: Coefficients, ps: seq<Point>)
    requires Ready(t, c) && Agree(t, c, d)
    ensures Ready(t, d) && Total(t, d, ps) == Total(t, c, ps)
  {
    hide Over, Square, Value;
    if ps != [] {
      TotalKept(t, c, d, ps[..|ps| - 1]);
      ValueKept(t, c, d, ps[|ps| - 1]);
    }
  }

  lemma ValueKept(t: Term, c: Coefficients, d: Coefficients, q: Point)
    requires Ready(t, c) && Agree(t, c, d)
    ensures Ready(t, d) && Value(t, d, q) == Value(t, c, q)
  {
    hide Over, Square, Five, Six;
    var p := Minus(q, c.center);
    if t.Norm5? || t.R55? || t.R56? || t.Norm6? {
      FiveKept(c, d, -p.z, Over(-p.y, c.norm.x));
      FiveKept(c, d, 0.0, Over(p.x, c.norm.x));
    }
    if t.Norm6? {
      SixKept(c, d, 0.0, Five(c, -p.z, Over(-p.y, c.norm.x)), Over(-p.y, c.norm.x));
      SixKept(c, d, -p.z, Five(c, 0.0, Over(p.x, c.norm.x)), Over(p.x, c.norm.x));
      SixKept(c, d, p.y, p.x - 0.0, Over(0.0, c.norm.x));
    }
  }

  lemma FiveKept(c: Coefficients, d: Coefficients, raw: real, col4: real)
    requires Ready(Norm5, c) && Agree(Norm5, c, d)
    ensures Five(d, raw, col4) == Five(c, raw, col4)
  {
  }

  lemma SixKept(c: Coefficients, d: Coefficients, raw: real, rest5: real, col4: real)
    requires Ready(Norm6, c) && Agree(Norm6, c, d)
    ensures Six(d, raw, rest5, col4) == Six(c, raw, rest5, col4)
  {
  }

  /** The centre is the mean of the nodes. */
  ghost predicate Centered(c: Coefficients, ps: seq<Point>) {
    c.np == |ps| > 0 && Sum(c.center, ps) == ORIGIN
  }

  ghost predicate WithNorm4(c: Coefficients, ps: seq<Point>) {
    Centered(c, ps) && c.norm.x > 0.0 && Square(c.norm.x) == Total(Norm4, c, ps)
  }

  ghost predicate WithFour(c: Coefficients, ps: seq<Point>) {
    WithNorm4(c, ps) && c.r44 == Total(R44, c, ps) && c.r45 == Total(R45, c, ps) && c.r44 == 1.0
  }

  ghost predicate WithNorm5(c: Coefficients, ps: seq<Point>) {
    WithFour(c, ps) && c.norm.y > 0.0 && Square(c.norm.y) == Total(Norm5, c, ps)
  }

  ghost predicate WithFive(c: Coefficients, ps: seq<Point>) {
    && WithNorm5(c, ps)
    && c.r46 == Total(R46, c, ps) && c.r55 == Total(R55, c, ps) && c.r56 == Total(R56, c, ps) && c.r55 == 1.0
  }

  /** All coefficients belong to these nodes. */
  ghost predicate Complete(c: Coefficients, ps: seq<Point>) {
    WithFive(c, ps) && c.norm.z > 0.0 && Square(c.norm.z) == Total(Norm6, c, ps)
  }

  /** Square roots of positive numbers. */
  ghost predicate IsRoot(root: real -> real) {
    forall x :: x > 0.0 ==> root(x) > 0.0 && Square(root(x)) == x
  }

  lemma SquaredReciprocal(n: real)
    requires n != 0.0
    ensures Normalizes(Reciprocal(n), Square(n))
  {
    var r := Reciprocal(n);
    assert r * n == 1.0;
    assert r * r * (n * n) == (r * n) * (r * n);
  }

  lemma QuotientTimes(a: real, b: real)
    requires b != 0.0
    ensures Quotient(a, b) * b == a
  {
  }

  lemma Norm4Found(c: Coefficients, ps: seq<Point>, root: real -> real)
    requires Centered(c, ps) && !Collinear(ps) && IsRoot(root)
    ensures WithNorm4(c.(norm := c.norm.(x := root(Total(Norm4, c, ps)))), ps)
  {
    hide Collinear, Square, Total, Dot, FrameOf, Sum;
    NormsPositive(FrameOf(c, 1.0), ps);
    TotalIsDot(Norm4, c, 1.0, ps);
    TotalKept(Norm4, c, c.(norm := c.norm.(x := root(Total(Norm4, c, ps)))), ps);
  }

  lemma UnitTotal(t: Term, c: Coefficients, ps: seq<Point>)
    requires (t.R44? && WithNorm4(c, ps)) || (t.R55? && WithNorm5(c, ps))
    ensures Ready(t, c) && Total(t, c, ps) == 1.0
  {
    hide Total, Sum, Dot, Square, At, IsScaled, IsReduced, Reciprocal, Normalizes;
    var k := FrameOf(c, 1.0);
    FieldsAreBuilt(k);
    TotalIsDot(t, c, 1.0, ps);
    if t.R44? {
      SquaredReciprocal(c.norm.x);
      TotalIsDot(Norm4, c, 1.0, ps);
      Scaled(k, Col4, k.ix, Raw4, ps);
    } else {
      SquaredReciprocal(c.norm.y);
      TotalIsDot(Norm5, c, 1.0, ps);
      Scaled(k, Col5, k.iy, Rest5, ps);
    }
  }

  lemma FourFound(c: Coefficients, ps: seq<Point>)
    requires WithNorm4(c, ps)
    ensures WithFour(c.(r44 := Total(R44, c, ps), r45 := Total(R45, c, ps)), ps)
  {
    hide Total, Sum, Square;
    UnitTotal(R44, c, ps);
    var d := c.(r44 := Total(R44, c, ps), r45 := Total(R45, c, ps));
    TotalKept(Norm4, c, d, ps);
    TotalKept(R44, c, d, ps);
    TotalKept(R45, c, d, ps);
  }

  lemma Norm5Found(c: Coefficients, ps: seq<Point>, root: real -> real)
    requires WithFour(c, ps) && !Collinear(ps) && IsRoot(root)
    ensures WithNorm5(c.(norm := c.norm.(y := root(Total(Norm5, c, ps)))), ps)
  {
    hide Collinear, Square, Total, Dot, FrameOf, Sum;
    NormsPositive(FrameOf(c, 1.0), ps);
    TotalIsDot(Norm5, c, 1.0, ps);
    var d := c.(norm := c.norm.(y := root(Total(Norm5, c, ps))));
    TotalKept(Norm4, c, d, ps);
    TotalKept(R44, c, d, ps);
    TotalKept(R45, c, d, ps);
    TotalKept(Norm5, c, d, ps);
  }

  lemma FiveFound(c: Coefficients, ps: seq<Point>)
    requires WithNorm5(c, ps)
    ensures WithFive(c.(r46 := Total(R46, c, ps), r55 := Total(R55, c, ps), r56 := Total(R56, c, ps)), ps)
  {
    hide Total, Sum, Square;
    UnitTotal(R55, c, ps);
    var d := c.(r46 := Total(R46, c, ps), r55 := Total(R55, c, ps), r56 := Total(R56, c, ps));
    TotalKept(Norm4, c, d, ps);
    TotalKept(R44, c, d, ps);
    TotalKept(R45, c, d, ps);
    TotalKept(Norm5, c, d, ps);
    TotalKept(R46, c, d, ps);
    TotalKept(R55, c, d, ps);
    TotalKept(R56, c, d, ps);
  }

  lemma Norm6Found(c: Coefficients, ps: seq<Point>, root: real -> real)
    requires WithFive(c, ps) && !Collinear(ps) && IsRoot(root)
    ensures Complete(c.(norm := c.norm.(z := root(Total(Norm6, c, ps)))), ps)
  {
    hide Collinear, Square, Total, Dot, FrameOf, Sum;
    NormsPositive(FrameOf(c, 1.0), ps);
    TotalIsDot(Norm6, c, 1.0, ps);
    var d := c.(norm := c.norm.(z := root(Total(Norm6, c, ps))));
    TotalKept(Norm4, c, d, ps);
    TotalKept(R44, c, d, ps);
    TotalKept(R45, c, d, ps);
    TotalKept(Norm5, c, d, ps);
    TotalKept(R46, c, d, ps);
    TotalKept(R55, c, d, ps);
    TotalKept(R56, c, d, ps);
    TotalKept(Norm6, c, d, ps);
  }

  /** Complete coefficients make an orthonormal frame. */
  lemma CompleteIsFrame(c: Coefficients, ps: seq<Point>, root: real)
    requires Complete(c, ps) && root > 0.0 && Square(root) == c.np as real
    ensures IsFrame(FrameOf(c, root), ps)
  {
    hide Total, Sum, Square, Dot, Normalizes, Reciprocal, Quotient;
    SquaredReciprocal(root);
    SquaredReciprocal(c.norm.x);
    SquaredReciprocal(c.norm.y);
    SquaredReciprocal(c.norm.z);
    TotalIsDot(Norm4, c, root, ps);
    TotalIsDot(R44, c, root, ps);
    TotalIsDot(R45, c, root, ps);
    TotalIsDot(Norm5, c, root, ps);
    TotalIsDot(R46, c, root, ps);
    TotalIsDot(R55, c, root, ps);
    TotalIsDot(R56, c, root, ps);
    TotalIsDot(Norm6, c, root, ps);
    QuotientTimes(c.r45, c.r44);
    QuotientTimes(c.r46, c.r44);
    QuotientTimes(c.r56, c.r55);
  }
}
