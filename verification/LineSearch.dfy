/**
 * `Assembler::lineSearch`: regula falsi on the product of the increment with the residual, for
 * any residual. The vectors are those of all domains.
 */
module LineSearch {

  type Vectors = seq<seq<real>>

  ghost predicate SameShape(x: Vectors, y: Vectors) {
    |x| == |y| && forall d :: 0 <= d < |x| ==> |x[d]| == |y[d]|
  }

  /** `a * x + b * y`, entry by entry. */
  function Combined(a: real, x: seq<real>, b: real, y: seq<real>): (z: seq<real>)
    requires |x| == |y|
    ensures |z| == |x| && forall i :: 0 <= i < |x| ==> z[i] == a * x[i] + b * y[i]
  {
    seq(|x|, i requires 0 <= i < |x| => a * x[i] + b * y[i])
  }

  ghost function Combination(a: real, x: Vectors, b: real, y: Vectors): (z: Vectors)
    requires SameShape(x, y)
    ensures SameShape(z, x)
  {
    seq(|x|, d requires 0 <= d < |x| => Combined(a, x[d], b, y[d]))
  }

  function Dot(x: seq<real>, y: seq<real>, n: nat): real
    requires n <= |x| && n <= |y|
  {
    if n == 0 then 0.0 else Dot(x, y, n - 1) + x[n - 1] * y[n - 1]
  }

  /** The product summed over the first `n` domains. */
  ghost function Product(x: Vectors, y: Vectors, n: nat): real
    requires SameShape(x, y) && n <= |x|
  {
    if n == 0 then 0.0 else Product(x, y, n - 1) + Dot(x[n - 1], y[n - 1], |x[n - 1]|)
  }

  /** A residual for every vector of the given shape. */
  ghost predicate KeepsShape(residual: Vectors -> Vectors, shape: Vectors) {
    forall x :: SameShape(x, shape) ==> SameShape(residual(x), shape)
  }

  /** What the search looks for a sign change of: the increment times the residual at `U + t * deltaU`. */
  ghost function Slope(U: Vectors, deltaU: Vectors, F_ext: Vectors, residual: Vectors -> Vectors, t: real): real
    requires SameShape(U, deltaU) && SameShape(F_ext, U) && KeepsShape(residual, U)
  {
    var solution := Combination(1.0, U, t, deltaU);
    Product(deltaU, Combination(1.0, F_ext, -1.0, residual(solution)), |deltaU|)
  }

  function Interpolation(a: real, b: real, fa: real, fb: real): real
    requires fa != fb
  {
    a - fa * ((b - a) / (fb - fa))
  }

  /** Weakly opposite signs, and not both zero. */
  predicate Opposite(fa: real, fb: real) {
    fa != fb && ((fa <= 0.0 && fb >= 0.0) || (fa >= 0.0 && fb <= 0.0))
  }

  /** A share `fa / (fa - fb)` of the way, so inside the bracket. */
  lemma InterpolationInside(a: real, b: real, fa: real, fb: real)
    requires a <= b && Opposite(fa, fb)
    ensures a <= Interpolation(a, b, fa, fb) <= b
  {
    var share := (0.0 - fa) / (fb - fa);
    ShareInUnit(fa, fb);
    assert fa * ((b - a) / (fb - fa)) == (fa * (b - a)) / (fb - fa);
    assert (fa * (b - a)) / (fb - fa) == (fa / (fb - fa)) * (b - a);
    assert Interpolation(a, b, fa, fb) == a + share * (b - a);
    ShareOf(share, b - a);
  }

  lemma ShareInUnit(fa: real, fb: real)
    requires Opposite(fa, fb)
    ensures 0.0 <= (0.0 - fa) / (fb - fa) <= 1.0
  {
    var share := (0.0 - fa) / (fb - fa);
    assert share * (fb - fa) == 0.0 - fa;
    if fb > fa {
      if share < 0.0 {
        NegativeProduct(share, fb - fa);
      } else if share > 1.0 {
        NegativeProduct(1.0 - share, fb - fa);
      }
    } else {
      if share < 0.0 {
        NegativeProduct(share, fa - fb);
      } else if share > 1.0 {
        NegativeProduct(1.0 - share, fa - fb);
      }
    }
  }

  lemma NegativeProduct(x: real, y: real)
    requires x < 0.0 < y
    ensures x * y < 0.0
  {
  }

  lemma ShareOf(share: real, width: real)
    requires 0.0 <= share <= 1.0 && width >= 0.0
    ensures 0.0 <= share * width <= width
  {
    assert (1.0 - share) * width >= 0.0;
    assert (1.0 - share) * width == width - share * width;
  }

  lemma SameSign(x: real, y: real)
    requires (x >= 0.0 && y >= 0.0) || (x <= 0.0 && y <= 0.0)
    ensures x * y >= 0.0
  {
  }

  lemma OppositeAfterProduct(f: real, fx: real)
    requires f * fx < 0.0
    ensures Opposite(f, fx) && Opposite(fx, f)
  {
    if (f >= 0.0 && fx >= 0.0) || (f <= 0.0 && fx <= 0.0) {
      SameSign(f, fx);
    }
  }

  /** A bracket with a sign change of the slope: `fa` and `fb` are its values at `a` and `b`. */
  datatype Bracket = Bracket(a: real, b: real, fa: real, fb: real)

  ghost predicate IsBracket(k: Bracket, g: real -> real, faStart: real) {
    && 0.0 <= k.a <= k.b <= 1.0 && Opposite(k.fa, k.fb)
    && k.fb == g(k.b) && (k.fa == g(k.a) || (k.a == 0.0 && k.fa == faStart))
  }

  /** What the search computes from `faStart` and the slopes it meets. */
  class Assembler {
    var primalSolution: Vectors
    var R: Vectors
    var f: Vectors
    var deltaU: Vectors

    constructor (primalSolution: Vectors, f: Vectors, deltaU: Vectors)
      ensures this.primalSolution == primalSolution && this.f == f && this.deltaU == deltaU
    {
      this.primalSolution, this.R, this.f, this.deltaU := primalSolution, primalSolution, f, deltaU;
    }

    /** `sum` into a vector of the same shape. */
    method Sum(z: Vectors, a: real, x: Vectors, b: real, y: Vectors) returns (r: Vectors)
      requires SameShape(x, y) && SameShape(z, x)
      ensures r == Combination(a, x, b, y)
    {
      r := z;
      for d := 0 to |x|
        invariant |r| == |x| && (forall e :: 0 <= e < |x| ==> |r[e]| == |x[e]|)
        invariant forall e :: 0 <= e < d ==> r[e] == Combination(a, x, b, y)[e]
      {
        var row := SumRow(r[d], a, x[d], b, y[d]);
        r := r[d := row];
      }
    }

    method SumRow(z: seq<real>, a: real, x: seq<real>, b: real, y: seq<real>) returns (r: seq<real>)
      requires |z| == |x| == |y|
      ensures r == Combined(a, x, b, y)
    {
      r := z;
      ghost var all := Combined(a, x, b, y);
      for i := 0 to |x|
        invariant |r| == |x| && r[..i] == all[..i]
      {
        assert all[i] == a * x[i] + b * y[i];
        r := r[i := a * x[i] + b * y[i]];
        assert r[..i + 1] == r[..i] + [r[i]] && all[..i + 1] == all[..i] + [all[i]];
      }
      assert r == r[..|x|] && all == all[..|x|];
    }

    method Multiply(v1: Vectors, v2: Vectors) returns (cmul: real)
      requires SameShape(v1, v2)
      ensures cmul == Product(v1, v2, |v1|)
    {
      cmul := 0.0;
      for d := 0 to |v1|
        invariant cmul == Product(v1, v2, d)
      {
        var dmul := 0.0;
        for i := 0 to |v1[d]|
          invariant dmul == Dot(v1[d], v2[d], i)
        {
          dmul := dmul + v1[d][i] * v2[d][i];
        }
        cmul := cmul + dmul;
      }
    }

    /** `physics.updateMatrix(Matrices::R)`: the residual of the primal solution. */
    method UpdateR(residual: Vectors -> Vectors)
      modifies this`R
      ensures R == residual(primalSolution)
    {
      R := residual(primalSolution);
    }

    /** The slope at `alpha`: the solution is swapped in, its residual taken, and swapped out again. */
    method Probe(U: Vectors, F_ext: Vectors, residual: Vectors -> Vectors, alpha: real, solution: Vectors, F_ext_r: Vectors)
      returns (fx: real, solution': Vectors, F_ext_r': Vectors)
      requires SameShape(U, deltaU) && SameShape(F_ext, U) && KeepsShape(residual, U)
      requires SameShape(solution, U) && SameShape(F_ext_r, U)
      modifies this`primalSolution, this`R
      ensures primalSolution == old(primalSolution)
      ensures SameShape(solution', U) && SameShape(F_ext_r', U)
      ensures fx == Slope(U, deltaU, F_ext, residual, alpha)
    {
      solution' := Sum(solution, 1.0, U, alpha, deltaU);
      solution', primalSolution := primalSolution, solution';
      UpdateR(residual);
      solution', primalSolution := primalSolution, solution';
      F_ext_r' := Sum(F_ext_r, 1.0, F_ext, -1.0, R);
      fx := Multiply(deltaU, F_ext_r');
    }

    /** One more value of the slope narrows the bracket, if it is not zero. */
    method Narrow(k: Bracket, alpha: real, fx: real) returns (n: Bracket)
      ensures n == Narrowed(k, alpha, fx)
    {
      n := k;
      if n.fa * fx < 0.0 {
        n := n.(b := alpha, fb := fx);
      } else if n.fb * fx < 0.0 {
        n := n.(a := alpha, fa := fx);
      }
    }

    /** The probes behind the first one: each narrows the bracket at the zero of its chord. */
    method NarrowDown(U: Vectors, F_ext: Vectors, residual: Vectors -> Vectors, faStart: real, fb: real, solution: Vectors, F_ext_r: Vectors)
      returns (alpha: real, ghost run: seq<Bracket>, ghost at: seq<real>, solution': Vectors, F_ext_r': Vectors)
      requires SameShape(U, deltaU) && SameShape(F_ext, U) && KeepsShape(residual, U)
      requires SameShape(solution, U) && SameShape(F_ext_r, U)
      requires fb == SlopeAt(U, deltaU, F_ext, residual)(1.0) && SignChange(faStart, fb)
      modifies this`primalSolution, this`R
      ensures primalSolution == old(primalSolution) && SameShape(solution', U) && SameShape(F_ext_r', U)
      ensures IsRun(run, at, SlopeAt(U, deltaU, F_ext, residual), faStart) && Stopped(run, at, SlopeAt(U, deltaU, F_ext, residual), faStart)
      ensures |at| > 0 && alpha == at[|at| - 1]
    {
      hide IsRun, Stopped, SignChange, IsBracket, Interpolation, Slope;
      solution', F_ext_r' := solution, F_ext_r;
      ghost var g := SlopeAt(U, deltaU, F_ext, residual);
      var k := Bracket(0.0, 1.0, faStart, fb);
      FirstBracket(k, g, faStart);
      FirstRun(k, g, faStart);
      alpha := Interpolation(k.a, k.b, k.fa, k.fb);
      run, at := [k], [alpha];
      var i := 1;
      while i < 6
        invariant i <= 6 && |run| == |at| == i && NoStop(at, g, faStart, i - 1)
        invariant IsRun(run, at, g, faStart) && run[i - 1] == k && at[i - 1] == alpha
        invariant primalSolution == old(primalSolution)
        invariant SameShape(solution', U) && SameShape(F_ext_r', U)
      {
        var fx: real;
        fx, solution', F_ext_r' := Probe(U, F_ext, residual, alpha, solution', F_ext_r');
        RunNext(run, at, g, faStart, fx);
        k := Narrow(k, alpha, fx);
        alpha := Interpolation(k.a, k.b, k.fa, k.fb);
        run, at := run + [k], at + [alpha];
        if StopsEarly(fx, faStart) {
          break;
        }
        i := i + 1;
      }
      StoppedAt(run, at, g, faStart);
    }

    /**
     * The whole search. `deltaU` ends up as `alpha` times what it was, the primal solution and the
     * load are as before. If the slope changes its sign, `run` are the brackets the search went
     * through and `at` the zeros of their chords: each bracket but the first is the one before with
     * the end replaced that has the same sign as the slope at that zero.
     */
    method LineSearch(U: Vectors, F_ext: Vectors, residual: Vectors -> Vectors)
      returns (alpha: real, ghost run: seq<Bracket>, ghost at: seq<real>)
      requires SameShape(U, deltaU) && SameShape(F_ext, U) && SameShape(f, U) && KeepsShape(residual, U)
      modifies this`primalSolution, this`R, this`deltaU
      ensures 0.1 <= alpha <= 1.0 && primalSolution == old(primalSolution)
      ensures deltaU == Combination(0.0, U, alpha, old(deltaU))
      ensures Searched(Product(old(deltaU), f, |old(deltaU)|), SlopeAt(U, old(deltaU), F_ext, residual), run, at, alpha)
      ensures FindsZero(Product(old(deltaU), f, |old(deltaU)|), SlopeAt(U, old(deltaU), F_ext, residual), alpha)
    {
      hide Searched, FindsZero, IsRun, Stopped, SignChange, Slope, Product, Combination;
      alpha := 1.0;
      var solution, F_ext_r := deltaU, F_ext;
      var faStart, fb;
      fb, solution, F_ext_r := Probe(U, F_ext, residual, alpha, solution, F_ext_r);
      faStart := Multiply(deltaU, f);
      ghost var g := SlopeAt(U, deltaU, F_ext, residual);
      run, at := [], [];
      if !SignChange(faStart, fb) {
        UnitStep(U, deltaU);
        FullStep(faStart, g, run, at);
        return;
      }
      alpha, run, at, solution, F_ext_r := NarrowDown(U, F_ext, residual, faStart, fb, solution, F_ext_r);
      if alpha < 0.1 {
        alpha := 0.1;
      }
      if alpha > 0.99 {
        alpha := 1.0;
      }
      LimitedStep(faStart, g, run, at, alpha);
      solution := Sum(solution, 0.0, U, alpha, deltaU);
      solution, deltaU := deltaU, solution;
    }
  }

  /** Where the line through both ends of the bracket is 0. */
  ghost predicate IsChordZero(k: Bracket, x: real) {
    (x - k.a) * (k.fb - k.fa) == -k.fa * (k.b - k.a)
  }

  /** The end whose slope has the opposite sign stays, the other one moves to `x`. */
  ghost predicate Follows(k: Bracket, n: Bracket, x: real, fx: real) {
    n == if k.fa * fx < 0.0 then Bracket(k.a, x, k.fa, fx)
      else if k.fb * fx < 0.0 then Bracket(x, k.b, fx, k.fb)
      else k
  }

  /** Brackets of a sign change of the slope, each narrowed at the zero of its chord. */
  ghost predicate IsRun(run: seq<Bracket>, at: seq<real>, g: real -> real, faStart: real) {
    && 0 < |run| == |at| <= 6 && run[0] == Bracket(0.0, 1.0, faStart, g(1.0))
    && (forall i :: 0 <= i < |run| ==> BracketAt(run, at, g, faStart, i))
    && forall i :: 0 <= i < |run| - 1 ==> StepAt(run, at, g, i)
  }

  ghost predicate BracketAt(run: seq<Bracket>, at: seq<real>, g: real -> real, faStart: real, i: nat)
    requires i < |run| == |at|
  {
    IsBracket(run[i], g, faStart) && IsChordZero(run[i], at[i]) && run[i].a <= at[i] <= run[i].b
  }

  ghost predicate StepAt(run: seq<Bracket>, at: seq<real>, g: real -> real, i: nat)
    requires i + 1 < |run| == |at|
  {
    Follows(run[i], run[i + 1], at[i], g(at[i]))
  }

  /** None of the first `n` slopes is small enough to stop. */
  ghost predicate NoStop(at: seq<real>, g: real -> real, faStart: real, n: nat)
    requires n <= |at|
  {
    forall i :: 0 <= i < n ==> Abs(g(at[i])) > 0.5 * faStart
  }

  /** The search ends at the first slope of at most half the start, or after six slopes. */
  ghost predicate Stopped(run: seq<Bracket>, at: seq<real>, g: real -> real, faStart: real)
  {
    && |run| == |at| > 1
    && (forall i :: 0 <= i < |at| - 2 ==> Abs(g(at[i])) > 0.5 * faStart)
    && (Abs(g(at[|at| - 2])) <= 0.5 * faStart || |at| == 6)
  }

  /** Steps below 0.1 and above 0.99 are cut. */
  ghost predicate IsLimited(x: real, alpha: real) {
    alpha == if x < 0.1 then 0.1 else if x > 0.99 then 1.0 else x
  }

  /** A line with the value `faStart` at 0 and its only zero at `z`. */
  ghost predicate IsAffine(g: real -> real, faStart: real, z: real) {
    faStart != 0.0 && forall t: real {:trigger g(t)} :: g(t) * z == faStart * (z - t)
  }

  function Abs(x: real): real {
    if x < 0.0 then -x else x
  }

  /** The test for leaving the loop before the last probe. */
  predicate StopsEarly(fx: real, faStart: real) {
    Abs(fx) <= 0.5 * faStart
  }

  /** The slope has fallen to at most half its size at the start. */
  predicate HasHalved(fx: real, faStart: real) {
    Abs(fx) <= 0.5 * Abs(faStart)
  }

  /** The test recognises a slope that has halved, for every slope, exactly from a start that is not negative. */
  lemma EarlyStopIff(faStart: real)
    ensures (forall fx: real :: StopsEarly(fx, faStart) <==> HasHalved(fx, faStart)) <==> faStart >= 0.0
    ensures faStart < 0.0 ==> forall fx: real :: !StopsEarly(fx, faStart)
  {
    assert HasHalved(0.0, faStart);
  }

  /** From a negative start not even a slope of 0 stops the search. */
  lemma EarlyStopExample()
    ensures HasHalved(0.0, -2.0) && !StopsEarly(0.0, -2.0)
  {
  }

  function Narrowed(k: Bracket, alpha: real, fx: real): Bracket {
    if k.fa * fx < 0.0 then k.(b := alpha, fb := fx)
    else if k.fb * fx < 0.0 then k.(a := alpha, fa := fx)
    else k
  }

  /** The new slope replaces the end with the same sign, so a sign change stays inside. */
  lemma BracketNarrowed(k: Bracket, g: real -> real, faStart: real, alpha: real, fx: real)
    requires IsBracket(k, g, faStart) && k.a <= alpha <= k.b && fx == g(alpha)
    ensures IsBracket(Narrowed(k, alpha, fx), g, faStart)
  {
    if k.fa * fx < 0.0 {
      OppositeAfterProduct(k.fa, fx);
    } else if k.fb * fx < 0.0 {
      OppositeAfterProduct(k.fb, fx);
    }
  }

  /** One is negative, the other is not. */
  predicate SignChange(x: real, y: real) {
    (x < 0.0 && y >= 0.0) || (x >= 0.0 && y < 0.0)
  }

  ghost function SlopeAt(U: Vectors, deltaU: Vectors, F_ext: Vectors, residual: Vectors -> Vectors): real -> real
    requires SameShape(U, deltaU) && SameShape(F_ext, U) && KeepsShape(residual, U)
  {
    (t: real) => Slope(U, deltaU, F_ext, residual, t)
  }

  lemma FirstBracket(k: Bracket, g: real -> real, faStart: real)
    requires k == Bracket(0.0, 1.0, faStart, g(1.0)) && SignChange(faStart, g(1.0))
    ensures IsBracket(k, g, faStart)
  {
  }

  lemma InsideBracket(k: Bracket, g: real -> real, faStart: real)
    requires IsBracket(k, g, faStart)
    ensures k.fa != k.fb && 0.0 <= k.a <= Interpolation(k.a, k.b, k.fa, k.fb) <= k.b <= 1.0
  {
    hide Interpolation;
    InterpolationInside(k.a, k.b, k.fa, k.fb);
  }

  lemma UnitStep(U: Vectors, deltaU: Vectors)
    requires SameShape(U, deltaU)
    ensures deltaU == Combination(0.0, U, 1.0, deltaU)
  {
    forall d | 0 <= d < |deltaU|
      ensures deltaU[d] == Combination(0.0, U, 1.0, deltaU)[d]
    {
      assert deltaU[d] == Combined(0.0, U[d], 1.0, deltaU[d]);
    }
  }

  /** What the search returns: the limited end of a run of brackets, or the full step. */
  ghost predicate Searched(faStart: real, g: real -> real, run: seq<Bracket>, at: seq<real>, alpha: real) {
    if (faStart < 0.0 && g(1.0) >= 0.0) || (faStart >= 0.0 && g(1.0) < 0.0)
    then IsRun(run, at, g, faStart) && Stopped(run, at, g, faStart) && IsLimited(at[|at| - 1], alpha)
    else alpha == 1.0
  }

  /** If the slope is a line with its zero in the range of steps, the step is that zero. */
  ghost predicate FindsZero(faStart: real, g: real -> real, alpha: real) {
    forall z: real :: 0.1 <= z <= 0.99 && IsAffine(g, faStart, z) ==> alpha == z
  }

  lemma FullStep(faStart: real, g: real -> real, run: seq<Bracket>, at: seq<real>)
    requires !SignChange(faStart, g(1.0))
    ensures Searched(faStart, g, run, at, 1.0) && FindsZero(faStart, g, 1.0)
  {
    AffineChanges(g, faStart);
  }

  lemma LimitedStep(faStart: real, g: real -> real, run: seq<Bracket>, at: seq<real>, alpha: real)
    requires SignChange(faStart, g(1.0)) && IsRun(run, at, g, faStart) && Stopped(run, at, g, faStart)
    requires IsLimited(at[|at| - 1], alpha)
    ensures Searched(faStart, g, run, at, alpha) && FindsZero(faStart, g, alpha)
    ensures 0.1 <= alpha <= 1.0
  {
    assert BracketAt(run, at, g, faStart, |at| - 1);
    hide Stopped, IsAffine, BracketAt;
    AffineRun(run, at, g, faStart);
  }

  /** The next estimate is where the chord is 0. */
  lemma InterpolationIsZero(k: Bracket)
    requires k.fa != k.fb
    ensures IsChordZero(k, Interpolation(k.a, k.b, k.fa, k.fb))
  {
    var share := (k.b - k.a) / (k.fb - k.fa);
    assert share * (k.fb - k.fa) == k.b - k.a;
    Regrouped(k.fa, share, k.fb - k.fa);
  }

  lemma Regrouped(x: real, y: real, z: real)
    ensures (0.0 - x * y) * z == -x * (y * z)
  {
  }

  lemma FirstRun(k: Bracket, g: real -> real, faStart: real)
    requires k == Bracket(0.0, 1.0, faStart, g(1.0)) && IsBracket(k, g, faStart)
    ensures k.fa != k.fb && IsRun([k], [Interpolation(k.a, k.b, k.fa, k.fb)], g, faStart)
  {
    InterpolationIsZero(k);
    InsideBracket(k, g, faStart);
    hide Interpolation, IsChordZero;
  }

  lemma RunNext(run: seq<Bracket>, at: seq<real>, g: real -> real, faStart: real, fx: real)
    requires IsRun(run, at, g, faStart) && |run| < 6 && fx == g(at[|at| - 1])
    ensures var n := Narrowed(run[|run| - 1], at[|at| - 1], fx);
      n.fa != n.fb && IsRun(run + [n], at + [Interpolation(n.a, n.b, n.fa, n.fb)], g, faStart)
  {
    var n := Narrowed(run[|run| - 1], at[|at| - 1], fx);
    assert BracketAt(run, at, g, faStart, |run| - 1);
    BracketNarrowed(run[|run| - 1], g, faStart, at[|at| - 1], fx);
    assert Follows(run[|run| - 1], n, at[|at| - 1], fx);
    InterpolationIsZero(n);
    InsideBracket(n, g, faStart);
    hide Interpolation, IsChordZero, IsBracket, Follows, Narrowed;
    var run', at' := run + [n], at + [Interpolation(n.a, n.b, n.fa, n.fb)];
    forall i | 0 <= i < |run'|
      ensures BracketAt(run', at', g, faStart, i)
    {
      assert i < |run| ==> BracketAt(run, at, g, faStart, i);
    }
    forall i | 0 <= i < |run'| - 1
      ensures StepAt(run', at', g, i)
    {
      assert i < |run| - 1 ==> StepAt(run, at, g, i);
    }
  }

  lemma StoppedAt(run: seq<Bracket>, at: seq<real>, g: real -> real, faStart: real)
    requires 1 < |run| == |at| <= 6 && NoStop(at, g, faStart, |at| - 2)
    requires Abs(g(at[|at| - 2])) <= 0.5 * faStart || |at| == 6
    ensures Stopped(run, at, g, faStart)
  {
  }

  /** From a negative start the search takes all its slopes. */
  lemma NegativeTakesAll(run: seq<Bracket>, at: seq<real>, g: real -> real, faStart: real)
    requires Stopped(run, at, g, faStart) && faStart < 0.0
    ensures |at| == 6
  {
    assert Abs(g(at[|at| - 2])) >= 0.0;
  }

  /** The slope at zero number `i` has the sign of both ends of the first bracket, or is 0. */
  ghost predicate SignKept(run: seq<Bracket>, at: seq<real>, g: real -> real, i: nat)
    requires i < |run| == |at|
  {
    run[i] == run[0] && run[0].fa * g(at[i]) >= 0.0 && run[0].fb * g(at[i]) >= 0.0
  }

  /** A bracket has an end where the slope was taken, unless no slope up to there changed the sign. */
  lemma {:induction false} ProbedEnd(run: seq<Bracket>, at: seq<real>, g: real -> real, faStart: real, n: nat)
    requires IsRun(run, at, g, faStart) && n < |run|
    ensures (exists i :: 0 <= i < n && (run[n].a == at[i] || run[n].b == at[i])) ||
      (run[n] == run[0] && forall i :: 0 <= i < n ==> SignKept(run, at, g, i))
  {
    hide BracketAt;
    if n > 0 {
      ProbedEnd(run, at, g, faStart, n - 1);
      assert StepAt(run, at, g, n - 1);
    }
  }

  lemma AffineChanges(g: real -> real, faStart: real)
    ensures forall z: real :: 0.1 <= z <= 0.99 && IsAffine(g, faStart, z) ==> SignChange(faStart, g(1.0))
  {
    forall z: real | 0.1 <= z <= 0.99 && IsAffine(g, faStart, z)
      ensures SignChange(faStart, g(1.0))
    {
      OppositeEnds(g(1.0), z, faStart);
    }
  }

  lemma OppositeEnds(x: real, z: real, faStart: real)
    requires 0.1 <= z <= 0.99 && faStart != 0.0 && x * z == faStart * (z - 1.0)
    ensures SignChange(faStart, x)
  {
    if faStart > 0.0 {
      NegativeProduct(z - 1.0, faStart);
      if x >= 0.0 {
        SameSign(x, z);
      }
    } else {
      SameSign(z - 1.0, faStart);
      if x < 0.0 {
        NegativeProduct(x, z);
      }
    }
  }

  /** Every chord of a line is the line. */
  lemma AffineRun(run: seq<Bracket>, at: seq<real>, g: real -> real, faStart: real)
    requires IsRun(run, at, g, faStart)
    ensures forall z: real :: 0.1 <= z <= 0.99 && IsAffine(g, faStart, z) ==> at[|at| - 1] == z
  {
    var last := |run| - 1;
    assert BracketAt(run, at, g, faStart, last);
    forall z: real | 0.1 <= z <= 0.99 && IsAffine(g, faStart, z)
      ensures at[last] == z
    {
      ChordOfLine(run[last], g, faStart, z, at[last]);
    }
  }

  lemma ChordOfLine(k: Bracket, g: real -> real, faStart: real, z: real, x: real)
    requires IsBracket(k, g, faStart) && IsAffine(g, faStart, z) && 0.1 <= z && IsChordZero(k, x)
    ensures x == z
  {
    assert k.fa * z == faStart * (z - k.a) by {
      assert g(k.a) * z == faStart * (z - k.a);
    }
    assert k.fb * z == faStart * (z - k.b);
    LineMeetsZero(k, faStart, z, x);
  }

  lemma LineMeetsZero(k: Bracket, s: real, z: real, x: real)
    requires s != 0.0 && z != 0.0 && k.fa != k.fb && IsChordZero(k, x)
    requires k.fa * z == s * (z - k.a) && k.fb * z == s * (z - k.b)
    ensures x == z
  {
  }

  /** A linear residual on two domains with one value each. */
  function Springs(x: Vectors): Vectors {
    if |x| == 2 && |x[0]| == 1 && |x[1]| == 1 then [[2.0 * x[0][0]], [4.5 * x[1][0]]] else x
  }

  /** At rest, with increments 1 and 2, which are also the loads. */
  ghost predicate AtRest(U: Vectors, deltaU: Vectors) {
    U == [[0.0], [0.0]] && deltaU == [[1.0], [2.0]]
  }

  lemma AtRestShapes(U: Vectors, deltaU: Vectors)
    requires AtRest(U, deltaU)
    ensures SameShape(U, deltaU) && SameShape(deltaU, U) && KeepsShape(Springs, U) && Product(deltaU, deltaU, 2) == 5.0
  {
    ProductOfTwo(deltaU, deltaU);
  }

  lemma SpringsAt(U: Vectors, deltaU: Vectors, t: real)
    requires AtRest(U, deltaU) && SameShape(U, deltaU) && SameShape(deltaU, U) && KeepsShape(Springs, U)
    ensures Slope(U, deltaU, deltaU, Springs, t) == 5.0 - 20.0 * t
  {
    var solution := Combination(1.0, U, t, deltaU);
    assert solution[0][0] == t && solution[1][0] == 2.0 * t;
    var rest := Combination(1.0, deltaU, -1.0, Springs(solution));
    assert rest[0][0] == 1.0 - 2.0 * t && rest[1][0] == 2.0 - 9.0 * t;
    ProductOfTwo(deltaU, rest);
  }

  lemma ProductOfTwo(x: Vectors, y: Vectors)
    requires SameShape(x, y) && |x| == 2 && |x[0]| == |x[1]| == 1
    ensures Product(x, y, 2) == x[0][0] * y[0][0] + x[1][0] * y[1][0]
  {
    assert Dot(x[0], y[0], 1) == 0.0 + x[0][0] * y[0][0];
    assert Dot(x[1], y[1], 1) == 0.0 + x[1][0] * y[1][0];
    assert Product(x, y, 1) == 0.0 + Dot(x[0], y[0], 1);
  }

  lemma SpringsLine(U: Vectors, deltaU: Vectors)
    requires AtRest(U, deltaU) && SameShape(U, deltaU) && SameShape(deltaU, U) && KeepsShape(Springs, U)
    ensures IsAffine(SlopeAt(U, deltaU, deltaU, Springs), 5.0, 0.25)
  {
    hide AtRest, SameShape, Slope, Product, KeepsShape, Combination;
    forall t: real
      ensures Slope(U, deltaU, deltaU, Springs, t) == 5.0 - 20.0 * t
    {
      SpringsAt(U, deltaU, t);
    }
    LineOfSprings(SlopeAt(U, deltaU, deltaU, Springs));
  }

  lemma LineOfSprings(g: real -> real)
    requires forall t: real {:trigger g(t)} :: g(t) == 5.0 - 20.0 * t
    ensures IsAffine(g, 5.0, 0.25)
  {
  }

  lemma SpringsScaled(U: Vectors, deltaU: Vectors, alpha: real)
    requires AtRest(U, deltaU)
    ensures SameShape(U, deltaU) && Combination(0.0, U, alpha, deltaU) == [[alpha], [2.0 * alpha]]
  {
    var z := Combination(0.0, U, alpha, deltaU);
    assert z[0] == Combined(0.0, U[0], alpha, deltaU[0]) && z[1] == Combined(0.0, U[1], alpha, deltaU[1]);
    assert z[0][0] == alpha && z[1][0] == 2.0 * alpha;
    assert z[0] == [alpha] && z[1] == [2.0 * alpha];
  }

  /** The slope is 5 - 20 t: one chord finds its zero. */
  method SearchSprings() returns (alpha: real, increment: Vectors)
    ensures alpha == 0.25 && increment == [[0.25], [0.5]]
  {
    hide Searched, Slope, Product, KeepsShape, Combination, IsAffine, SlopeAt;
    var U: Vectors, deltaU: Vectors := [[0.0], [0.0]], [[1.0], [2.0]];
    AtRestShapes(U, deltaU);
    SpringsLine(U, deltaU);
    var assembler := new Assembler(U, deltaU, deltaU);
    ghost var run, at;
    alpha, run, at := assembler.LineSearch(U, deltaU, Springs);
    ghost var z, g := 0.25, SlopeAt(U, deltaU, deltaU, Springs);
    assert FindsZero(5.0, g, alpha) && 0.1 <= z <= 0.99 && IsAffine(g, 5.0, z);
    increment := assembler.deltaU;
    SpringsScaled(U, deltaU, alpha);
  }
}
