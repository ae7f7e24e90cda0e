/** `analyticRegularization`: the six kernel columns of a domain, written one after the other. */
module AnalyticRegularization {
  import opened Basis
  import opened DofNumbering
  import opened RigidMotions
  import opened RotationCoefficients
  import opened StructuralMechanics

  /** A field written node by node, three values each. */
  ghost function ColumnValues(k: Frame, f: Field, ps: seq<Point>): (r: seq<real>)
    ensures |r| == Multiple(3, |ps|)
  {
    if ps == [] then [] else var v := Of(k, f, ps[|ps| - 1]); ColumnValues(k, f, ps[..|ps| - 1]) + [v.x, v.y, v.z]
  }

  /** The first `c` columns. */
  ghost function KernelValues(k: Frame, ps: seq<Point>, c: nat): seq<real>
    requires c <= 6
  {
    if c == 0 then [] else KernelValues(k, ps, c - 1) + ColumnValues(k, Column(c - 1), ps)
  }

  /** One component of the sixth column before it is divided by its norm. */
  function Last(c: Coefficients, raw: real, col5: real, col4: real): real
    requires Ready(Norm6, c)
  {
    raw - c.r56 / c.r55 * col5 - c.r46 / c.r44 * col4
  }

  /** The rotation of a node in column `f`, from the coefficients. */
  function NodeValue(f: Field, c: Coefficients, q: Point): Point
    requires (f.Col4? || f.Col5? || f.Col6?) && Ready(Norm6, c) && c.norm.z != 0.0
  {
    var p, norm := Minus(q, c.center), c.norm;
    if f.Col4? then
      Point(Over(-p.y, norm.x), Over(p.x, norm.x), 0.0)
    else if f.Col5? then
      Point(Over(Five(c, -p.z, Over(-p.y, norm.x)), norm.y), Over(Five(c, 0.0, Over(p.x, norm.x)), norm.y),
        Over(Five(c, p.x, Over(0.0, norm.x)), norm.y))
    else
      Point(Over(Last(c, 0.0, Over(Five(c, -p.z, Over(-p.y, norm.x)), norm.y), Over(-p.y, norm.x)), norm.z),
        Over(Last(c, -p.z, Over(Five(c, 0.0, Over(p.x, norm.x)), norm.y), Over(p.x, norm.x)), norm.z),
        Over(Last(c, p.y, Over(Five(c, p.x, Over(0.0, norm.x)), norm.y), Over(0.0, norm.x)), norm.z))
  }

  lemma FiveOfNothing(c: Coefficients, x: real)
    requires Ready(Norm5, c)
    ensures Five(c, x, Over(0.0, c.norm.x)) == x - 0.0
  {
    Divided(0.0, c.norm.x);
  }

  lemma LastDivided(c: Coefficients, root: real, p: Point)
    requires Ready(Norm6, c)
    ensures var v, w := Col5At(FrameOf(c, root), p), Col4At(FrameOf(c, root), p);
      Rest6At(FrameOf(c, root), p) == Point(Last(c, 0.0, v.x, w.x), Last(c, -p.z, v.y, w.y), Last(c, p.y, v.z, w.z))
  {
    hide Col4At, Col5At, Reciprocal;
  }

  lemma Col6Divided(c: Coefficients, root: real, p: Point)
    requires c.norm.z != 0.0
    ensures var v := Rest6At(FrameOf(c, root), p);
      Col6At(FrameOf(c, root), p) == Point(Over(v.x, c.norm.z), Over(v.y, c.norm.z), Over(v.z, c.norm.z))
  {
    hide Rest6At, Over;
    var v := Rest6At(FrameOf(c, root), p);
    Divided(v.x, c.norm.z);
    Divided(v.y, c.norm.z);
    Divided(v.z, c.norm.z);
  }

  /** What is written is the column. */
  lemma NodeValueIsColumn(f: Field, c: Coefficients, root: real, q: Point)
    requires (f.Col4? || f.Col5? || f.Col6?) && Ready(Norm6, c) && c.norm.z != 0.0
    ensures NodeValue(f, c, q) == Of(FrameOf(c, root), f, q)
  {
    hide Col4At, Rest5At, Col5At, Rest6At, Col6At, FrameOf, Five, Last, Over;
    var p := Minus(q, c.center);
    assert FrameOf(c, root).center == c.center by {
      CenterOfFrame(c, root);
    }
    Col4Divided(c, root, p);
    Rest5Divided(c, root, p);
    Col5Divided(c, root, p);
    FiveOfNothing(c, p.x);
    LastDivided(c, root, p);
    Col6Divided(c, root, p);
  }

  lemma CenterOfFrame(c: Coefficients, root: real)
    ensures FrameOf(c, root).center == c.center
  {
  }

  lemma NextColumnNode(k: Frame, f: Field, before: seq<Point>, coordinates: seq<Point>, begin: nat, n: nat)
    requires begin <= n < |coordinates|
    ensures var v := Of(k, f, coordinates[n]);
      ColumnValues(k, f, before + coordinates[begin..n + 1]) == ColumnValues(k, f, before + coordinates[begin..n]) + [v.x, v.y, v.z]
  {
    hide Of;
    var longer := before + coordinates[begin..n + 1];
    assert longer[..|longer| - 1] == before + coordinates[begin..n];
  }

  /** The nodes of one interval. */
  method WriteInterval(coordinates: seq<Point>, begin: int, end: int, f: Field, c: Coefficients, ghost root: real, before: seq<real>,
      ghost ps: seq<Point>) returns (values: seq<real>)
    requires 0 <= begin <= end <= |coordinates| && (f.Col4? || f.Col5? || f.Col6?) && Ready(Norm6, c) && c.norm.z != 0.0
    requires before == ColumnValues(FrameOf(c, root), f, ps)
    ensures values == ColumnValues(FrameOf(c, root), f, ps + coordinates[begin..end])
  {
    hide Ready, FrameOf, NodeValue, Of, ColumnValues;
    values := before;
    assert ps + coordinates[begin..begin] == ps;
    for n := begin to end
      invariant values == ColumnValues(FrameOf(c, root), f, ps + coordinates[begin..n])
    {
      var v := NodeValue(f, c, coordinates[n]);
      values := values + [v.x, v.y, v.z];
      NodeValueIsColumn(f, c, root, coordinates[n]);
      NextColumnNode(FrameOf(c, root), f, ps, coordinates, begin, n);
    }
  }

  /** Writes one rotation, node by node. */
  method WriteRotation(m: Mesh, p: nat, f: Field, c: Coefficients, ghost root: real) returns (values: seq<real>)
    requires ValidMesh(m) && p < |m.dintervals| && (f.Col4? || f.Col5? || f.Col6?) && Ready(Norm6, c) && c.norm.z != 0.0
    ensures values == ColumnValues(FrameOf(c, root), f, DomainPoints(m, p))
  {
    hide Ready, ValidIntervals, FrameOf, NodeValue, Of;
    assert ValidDomain(m, p);
    var its := m.dintervals[p];
    values := [];
    for i := 0 to |its|
      invariant values == ColumnValues(FrameOf(c, root), f, PointsOf(m.coordinates, its[..i]))
    {
      assert its[..i + 1][..i] == its[..i];
      values := WriteInterval(m.coordinates, its[i].begin, its[i].end, f, c, root, values, PointsOf(m.coordinates, its[..i]));
    }
    assert its[..|its|] == its;
  }

  /** Writes one translation for every node of the domain. */
  method WriteTranslation(axis: nat, e: real, count: nat, ghost k: Frame, ghost ps: seq<Point>) returns (values: seq<real>)
    requires axis < 3 && count == |ps| && e == k.e
    ensures values == ColumnValues(k, Shift(axis), ps)
  {
    var kernel := [0.0, 0.0, 0.0][axis := e];
    values := [];
    for i := 0 to count
      invariant values == ColumnValues(k, Shift(axis), ps[..i])
    {
      values := values + kernel;
      assert ps[..i + 1][..i] == ps[..i];
    }
    assert ps[..count] == ps;
  }

  lemma CompleteStages(physics: StructuralMechanics, p: nat)
    requires physics.InStage(5) && p < |physics.domain|
    ensures |physics.mesh.dintervals| == |physics.mesh.clusters| == |physics.domain| && physics.mesh.clusters[p] < |physics.cluster|
    ensures Complete(physics.domain[p], DomainPoints(physics.mesh, p))
    ensures var c := physics.mesh.clusters[p];
      Complete(physics.cluster[c], ClusterPoints(physics.mesh, c, |physics.domain|))
  {
    hide Complete, DomainPoints, ClusterPoints;
    assert Stage(5, physics.domain[p], DomainLists(physics.mesh)[p]);
    var c := physics.mesh.clusters[p];
    assert Stage(5, physics.cluster[c], ClusterLists(physics.mesh, |physics.cluster|)[c]);
  }

  lemma CompleteIsReady(c: Coefficients, ps: seq<Point>)
    requires Complete(c, ps)
    ensures Ready(Norm6, c) && c.norm.z > 0.0 && c.np > 0
  {
    hide Total, Sum;
  }

  /** Number of nodes of a domain. */
  function NodesIn(its: seq<NodeInterval>): (r: nat)
    requires ValidIntervals(its)
    ensures r == Count(its)
  {
    if its == [] then 0 else OffsetsInside(its, |its| - 1); Count(its)
  }

  /** The values of column `c` at the degrees of freedom of node `n` are the displacement `v`. */
  ghost predicate HoldsAt(values: seq<real>, its: seq<NodeInterval>, c: nat, n: int, v: Point)
    requires ValidIntervals(its) && IsNode(its, n)
  {
    var at := Multiple(Multiple(3, NodesIn(its)), c) + Multiple(3, Number(its, n));
    at + 3 <= |values| && values[at] == v.x && values[at + 1] == v.y && values[at + 2] == v.z
  }

  lemma PrefixValid(its: seq<NodeInterval>, k: nat)
    requires ValidIntervals(its) && k <= |its|
    ensures ValidIntervals(its[..k])
  {
  }

  lemma PrefixIntervals(its: seq<NodeInterval>, k: nat, n: int)
    requires ValidIntervals(its) && k <= |its| && IsNode(its[..k], n)
    ensures ValidIntervals(its[..k]) && IsNode(its, n) && Number(its, n) == Number(its[..k], n)
  {
    PrefixValid(its, k);
    hide ValidIntervals, Number;
    var i: nat :| i < k && InInterval(its[..k][i], n);
    NumberFrom(its, i, n);
    NumberFrom(its[..k], i, n);
  }

  /** The nodes of a domain come in the order of their numbers. */
  lemma {:induction false} PointAtNumber(coordinates: seq<Point>, its: seq<NodeInterval>, n: int)
    requires ValidIntervals(its) && Within(coordinates, its) && IsNode(its, n)
    ensures 0 <= n < |coordinates| && Number(its, n) < |PointsOf(coordinates, its)|
    ensures PointsOf(coordinates, its)[Number(its, n)] == coordinates[n]
  {
    hide ValidIntervals, Number, Count, PointsOf;
    var l := |its| - 1;
    LastInterval(its);
    LastPoints(coordinates, its);
    if InInterval(its[l], n) {
      NumberFrom(its, l, n);
      BehindBefore(PointsOf(coordinates, its[..l]), coordinates, its[l].begin, its[l].end, n);
    } else {
      NodeBefore(its, n);
      PrefixIntervals(its, l, n);
      PointAtNumber(coordinates, its[..l], n);
    }
  }

  lemma LastPoints(coordinates: seq<Point>, its: seq<NodeInterval>)
    requires ValidIntervals(its) && Within(coordinates, its) && its != []
    ensures var l := |its| - 1;
      && Within(coordinates, its[..l]) && |PointsOf(coordinates, its[..l])| == its[l].offset
      && PointsOf(coordinates, its) == PointsOf(coordinates, its[..l]) + coordinates[its[l].begin..its[l].end]
  {
    LastInterval(its);
    PointsCounted(coordinates, its[..|its| - 1]);
  }

  lemma LastInterval(its: seq<NodeInterval>)
    requires ValidIntervals(its) && its != []
    ensures ValidIntervals(its[..|its| - 1]) && its[|its| - 1].offset == Count(its[..|its| - 1])
  {
    var l := |its| - 1;
    assert l > 0 ==> its[l].offset == its[l - 1].offset + Length(its[l - 1]);
  }

  lemma NodeBefore(its: seq<NodeInterval>, n: int)
    requires IsNode(its, n) && !InInterval(its[|its| - 1], n)
    ensures IsNode(its[..|its| - 1], n)
  {
    var i: nat :| i < |its| && InInterval(its[i], n);
    assert InInterval(its[..|its| - 1][i], n);
  }

  lemma BehindBefore(before: seq<Point>, coordinates: seq<Point>, begin: nat, end: nat, n: nat)
    requires begin <= n < end <= |coordinates|
    ensures (before + coordinates[begin..end])[|before| + n - begin] == coordinates[n]
  {
  }

  lemma {:induction false} ColumnValuesAt(k: Frame, f: Field, ps: seq<Point>, i: nat)
    requires i < |ps|
    ensures Multiple(3, i) + 3 <= |ColumnValues(k, f, ps)|
    ensures var v, at := Of(k, f, ps[i]), Multiple(3, i);
      ColumnValues(k, f, ps)[at] == v.x && ColumnValues(k, f, ps)[at + 1] == v.y && ColumnValues(k, f, ps)[at + 2] == v.z
    decreases ps
  {
    hide Of;
    MultipleMonotone(3, i + 1, |ps|);
    if i < |ps| - 1 {
      ColumnValuesAt(k, f, ps[..|ps| - 1], i);
    }
  }

  lemma ColumnOfAt(values: seq<real>, count: nat, c: nat, j: nat)
    requires |values| == Multiple(Multiple(3, count), 6) && c < 6 && j < Multiple(3, count)
    ensures Multiple(Multiple(3, count), c) + j < |values| && ColumnOf(values, count, c)[j] == values[Multiple(Multiple(3, count), c) + j]
  {
    ColumnAt(values, Multiple(3, count), c, j);
  }

  lemma ColumnAt(values: seq<real>, n: nat, c: nat, j: nat)
    requires |values| == Multiple(n, 6) && c < 6 && j < n
    ensures Multiple(n, c) + j < |values| && Multiple(n, c) <= Multiple(n, c + 1) <= |values|
    ensures values[Multiple(n, c)..Multiple(n, c + 1)][j] == values[Multiple(n, c) + j]
  {
    MultipleMonotone(n, c + 1, 6);
  }

  /** Every column has the displacement of every node at the degrees of freedom of that node. */
  lemma KernelAtNode(k: Frame, coordinates: seq<Point>, its: seq<NodeInterval>, c: nat, n: int)
    requires ValidIntervals(its) && Within(coordinates, its) && IsNode(its, n) && c < 6
    ensures 0 <= n < |coordinates|
    ensures HoldsAt(KernelValues(k, PointsOf(coordinates, its), 6), its, c, n, Of(k, Column(c), coordinates[n]))
  {
    hide Column, Of, KernelValues, ColumnValues, Number, Count, ColumnOf;
    var ps, i := PointsOf(coordinates, its), Number(its, n);
    PointsCounted(coordinates, its);
    PointAtNumber(coordinates, its, n);
    KernelColumn(k, ps, c);
    ColumnValuesAt(k, Column(c), ps, i);
    var all := KernelValues(k, ps, 6);
    ColumnOfAt(all, |ps|, c, Multiple(3, i));
    ColumnOfAt(all, |ps|, c, Multiple(3, i) + 1);
    ColumnOfAt(all, |ps|, c, Multiple(3, i) + 2);
  }

  /** The dense values of the kernel of domain `p`, orthonormal over the domain or over its cluster. */
  method Kernel(physics: StructuralMechanics, p: nat, orthogonalCluster: bool)
    returns (values: seq<real>)
    requires physics.InStage(5) && IsRoot(physics.root) && p < |physics.domain|
    ensures values == KernelValues(FrameFor(physics, p, orthogonalCluster), DomainPoints(physics.mesh, p), 6)
    ensures HoldsKernel(values, physics.mesh, p, FrameFor(physics, p, orthogonalCluster))
  {
    var c := if orthogonalCluster then physics.cluster[physics.mesh.clusters[p]] else physics.domain[p];
    CompleteStages(physics, p);
    CompleteIsReady(c, if orthogonalCluster then ClusterPoints(physics.mesh, physics.mesh.clusters[p], |physics.domain|) else DomainPoints(physics.mesh, p));
    var its := physics.mesh.dintervals[p];
    NodeCount(physics.mesh, p);
    var last := its[|its| - 1];
    var count: nat := last.offset + last.end - last.begin;
    var root := physics.root(c.np as real);
    ghost var k := FrameFor(physics, p, orthogonalCluster);
    assert k == FrameOf(c, root);
    ghost var ps := DomainPoints(physics.mesh, p);
    hide Complete, ValidMesh, FrameOf, DomainPoints, ColumnValues, AllOf, Ready;
    values := [];
    for axis := 0 to 3
      invariant values == KernelValues(k, ps, axis)
    {
      var translation := WriteTranslation(axis, 1.0 / root, count, k, ps);
      values := values + translation;
    }
    var rotation := WriteRotation(physics.mesh, p, Col4, c, root);
    values := values + rotation;
    assert values == KernelValues(k, ps, 4);
    rotation := WriteRotation(physics.mesh, p, Col5, c, root);
    values := values + rotation;
    assert values == KernelValues(k, ps, 5);
    rotation := WriteRotation(physics.mesh, p, Col6, c, root);
    values := values + rotation;
    assert values == KernelValues(k, ps, 6);
    KernelHeld(physics.mesh, p, k);
  }

  /** At the three degrees of freedom of every node of the domain, each column has its displacement there. */
  ghost predicate HoldsKernel(values: seq<real>, m: Mesh, p: nat, k: Frame) {
    && p < |m.dintervals| && ValidIntervals(m.dintervals[p])
    && |values| == Multiple(Multiple(3, NodesIn(m.dintervals[p])), 6)
    && forall c, n :: 0 <= c < 6 && 0 <= n < |m.coordinates| && IsNode(m.dintervals[p], n) ==>
      HoldsAt(values, m.dintervals[p], c, n, Of(k, Column(c), m.coordinates[n]))
  }

  lemma KernelHeld(m: Mesh, p: nat, k: Frame)
    requires ValidMesh(m) && p < |m.dintervals|
    ensures HoldsKernel(KernelValues(k, DomainPoints(m, p), 6), m, p, k)
  {
    assert ValidDomain(m, p);
    var its := m.dintervals[p];
    PointsCounted(m.coordinates, its);
    KernelLength(k, PointsOf(m.coordinates, its), 6);
    hide Column, Of, KernelValues, HoldsAt, IsNode, ValidIntervals;
    forall c, n | 0 <= c < 6 && 0 <= n < |m.coordinates| && IsNode(its, n)
      ensures HoldsAt(KernelValues(k, PointsOf(m.coordinates, its), 6), its, c, n, Of(k, Column(c), m.coordinates[n]))
    {
      KernelAtNode(k, m.coordinates, its, c, n);
    }
  }

  /** The displacement written for a node. */
  ghost function Written(values: seq<real>, its: seq<NodeInterval>, c: nat, n: int): Point
    requires ValidIntervals(its) && IsNode(its, n) && |values| == Multiple(Multiple(3, NodesIn(its)), 6) && c < 6
  {
    NodeInside(its, c, n);
    var at := Multiple(Multiple(3, NodesIn(its)), c) + Multiple(3, Number(its, n));
    Point(values[at], values[at + 1], values[at + 2])
  }

  lemma NodeInside(its: seq<NodeInterval>, c: nat, n: int)
    requires ValidIntervals(its) && IsNode(its, n) && c < 6
    ensures Multiple(Multiple(3, NodesIn(its)), c) + Multiple(3, Number(its, n)) + 3 <= Multiple(Multiple(3, NodesIn(its)), 6)
  {
    MultipleMonotone(3, Number(its, n) + 1, NodesIn(its));
    MultipleMonotone(Multiple(3, NodesIn(its)), c + 1, 6);
  }

  /** What a column has at the degrees of freedom of any two nodes of the domain moves them rigidly. */
  lemma WrittenIsRigid(values: seq<real>, m: Mesh, p: nat, k: Frame, c: nat, q: nat, n: nat)
    requires HoldsKernel(values, m, p, k) && c < 6 && q < |m.coordinates| && n < |m.coordinates|
    requires IsNode(m.dintervals[p], q) && IsNode(m.dintervals[p], n)
    ensures Inner(Minus(m.coordinates[q], m.coordinates[n]),
      Minus(Written(values, m.dintervals[p], c, q), Written(values, m.dintervals[p], c, n))) == 0.0
  {
    hide Inner, Column, Of, IsNode, ValidIntervals, Number, Count;
    var its := m.dintervals[p];
    assert HoldsAt(values, its, c, q, Of(k, Column(c), m.coordinates[q])) && HoldsAt(values, its, c, n, Of(k, Column(c), m.coordinates[n]));
    KernelIsRigid(k, c, m.coordinates[q], m.coordinates[n]);
  }

  /** The frame of a domain or of its cluster. */
  ghost function FrameFor(physics: StructuralMechanics, p: nat, orthogonalCluster: bool): Frame
    requires physics.InStage(5) && p < |physics.domain|
    reads physics
  {
    CompleteStages(physics, p);
    var c := if orthogonalCluster then physics.cluster[physics.mesh.clusters[p]] else physics.domain[p];
    FrameOf(c, physics.root(c.np as real))
  }

  function Multiplied(x: real, y: real): real {
    x * y
  }

  /** The inner product of two lists of values. */
  function Product(a: seq<real>, b: seq<real>): real
    requires |a| == |b|
  {
    if a == [] then 0.0 else Product(a[..|a| - 1], b[..|b| - 1]) + Multiplied(a[|a| - 1], b[|b| - 1])
  }

  lemma ProductOfThree(a: seq<real>, b: seq<real>, v: Point, w: Point)
    requires |a| == |b|
    ensures Product(a + [v.x, v.y, v.z], b + [w.x, w.y, w.z]) == Product(a, b) + Inner(v, w)
  {
    hide Product;
    InThree(a, v.x, v.y, v.z);
    InThree(b, w.x, w.y, w.z);
    ProductNext(a, b, v.x, w.x);
    ProductNext(a + [v.x], b + [w.x], v.y, w.y);
    ProductNext((a + [v.x]) + [v.y], (b + [w.x]) + [w.y], v.z, w.z);
  }

  lemma InThree(a: seq<real>, x: real, y: real, z: real)
    ensures a + [x, y, z] == ((a + [x]) + [y]) + [z]
  {
  }

  lemma ProductNext(a: seq<real>, b: seq<real>, x: real, y: real)
    requires |a| == |b|
    ensures Product(a + [x], b + [y]) == Product(a, b) + Multiplied(x, y)
  {
    hide Multiplied;
    var s, t := a + [x], b + [y];
    assert s[..|s| - 1] == a && t[..|t| - 1] == b;
    assert Multiplied(s[|s| - 1], t[|t| - 1]) == Multiplied(x, y);
  }

  /** Values of columns multiply like the displacements they are written from. */
  lemma {:induction false} ProductIsDot(k: Frame, f: Field, g: Field, ps: seq<Point>)
    ensures Product(ColumnValues(k, f, ps), ColumnValues(k, g, ps)) == Dot(k, f, g, ps)
  {
    hide Of, Inner;
    if ps != [] {
      hide Product;
      ProductIsDot(k, f, g, ps[..|ps| - 1]);
      var q := ps[|ps| - 1];
      ProductOfThree(ColumnValues(k, f, ps[..|ps| - 1]), ColumnValues(k, g, ps[..|ps| - 1]), Of(k, f, q), Of(k, g, q));
    }
  }

  /** Column `c` of a kernel of `count` nodes, column by column. */
  function ColumnOf(values: seq<real>, count: nat, c: nat): (r: seq<real>)
    requires |values| == Multiple(Multiple(3, count), 6) && c < 6
    ensures |r| == Multiple(3, count)
  {
    MultipleMonotone(Multiple(3, count), c + 1, 6);
    values[Multiple(Multiple(3, count), c)..Multiple(Multiple(3, count), c + 1)]
  }

  lemma {:induction false} KernelLength(k: Frame, ps: seq<Point>, c: nat)
    requires c <= 6
    ensures |KernelValues(k, ps, c)| == Multiple(Multiple(3, |ps|), c)
  {
    if c > 0 {
      KernelLength(k, ps, c - 1);
    }
  }

  lemma {:induction false} KernelPrefix(k: Frame, ps: seq<Point>, c: nat, n: nat)
    requires c <= n <= 6
    ensures KernelValues(k, ps, c) <= KernelValues(k, ps, n)
    decreases n
  {
    if c < n {
      KernelPrefix(k, ps, c, n - 1);
    }
  }

  lemma KernelColumn(k: Frame, ps: seq<Point>, c: nat)
    requires c < 6
    ensures |KernelValues(k, ps, 6)| == Multiple(Multiple(3, |ps|), 6)
    ensures ColumnOf(KernelValues(k, ps, 6), |ps|, c) == ColumnValues(k, Column(c), ps)
  {
    hide Column;
    KernelLength(k, ps, 6);
    KernelLength(k, ps, c);
    KernelLength(k, ps, c + 1);
    KernelPrefix(k, ps, c + 1, 6);
    var all, next := KernelValues(k, ps, 6), KernelValues(k, ps, c + 1);
    assert all[..|next|] == next;
    assert next == KernelValues(k, ps, c) + ColumnValues(k, Column(c), ps);
  }

  /** The product of two columns of the kernels of the domains of a cluster, summed. */
  ghost function ClusterProduct(k: Frame, m: Mesh, c: nat, p: nat, a: nat, b: nat): real
    requires ValidMesh(m) && p <= |m.dintervals| && a < 6 && b < 6
  {
    if p == 0 then 0.0 else
      ClusterProduct(k, m, c, p - 1, a, b) +
      if m.clusters[p - 1] == c then
        Product(ColumnValues(k, Column(a), DomainPoints(m, p - 1)), ColumnValues(k, Column(b), DomainPoints(m, p - 1)))
      else 0.0
  }

  lemma {:induction false} ClusterProductIsDot(k: Frame, m: Mesh, c: nat, p: nat, a: nat, b: nat)
    requires ValidMesh(m) && p <= |m.dintervals| && a < 6 && b < 6
    ensures ClusterProduct(k, m, c, p, a, b) == Dot(k, Column(a), Column(b), ClusterPoints(m, c, p))
  {
    hide Column, ColumnValues, Product, DomainPoints, ClusterPoints, Dot, Of;
    if p == 0 {
      NoClusterPoints(k, m, c, a, b);
    } else {
      ClusterProductIsDot(k, m, c, p - 1, a, b);
      PointsOfNext(m, c, p - 1);
      if m.clusters[p - 1] == c {
        ProductIsDot(k, Column(a), Column(b), DomainPoints(m, p - 1));
        DotAppend(k, Column(a), Column(b), ClusterPoints(m, c, p - 1), DomainPoints(m, p - 1));
      }
    }
  }

  lemma NoClusterPoints(k: Frame, m: Mesh, c: nat, a: nat, b: nat)
    requires ValidMesh(m) && a < 6 && b < 6
    ensures Dot(k, Column(a), Column(b), ClusterPoints(m, c, 0)) == 0.0
  {
  }

  /** Computed for a domain, its kernel is orthonormal. */
  lemma DomainKernelOrthonormal(physics: StructuralMechanics, p: nat, a: nat, b: nat)
    requires physics.InStage(5) && IsRoot(physics.root) && p < |physics.domain| && a < 6 && b < 6
    ensures var k, ps := FrameFor(physics, p, false), DomainPoints(physics.mesh, p);
      && |KernelValues(k, ps, 6)| == Multiple(Multiple(3, |ps|), 6)
      && Product(ColumnOf(KernelValues(k, ps, 6), |ps|, a), ColumnOf(KernelValues(k, ps, 6), |ps|, b)) == if a == b then 1.0 else 0.0
  {
    var k, ps := FrameFor(physics, p, false), DomainPoints(physics.mesh, p);
    CompleteStages(physics, p);
    RootOfCount(physics.domain[p], ps, physics.root);
    hide IsFrame, Complete, Column, DomainPoints;
    KernelColumn(k, ps, a);
    KernelColumn(k, ps, b);
    ProductIsDot(k, Column(a), Column(b), ps);
    KernelOrthonormal(k, ps, a, b);
  }

  lemma RootOfCount(c: Coefficients, ps: seq<Point>, root: real -> real)
    requires Complete(c, ps) && IsRoot(root)
    ensures IsFrame(FrameOf(c, root(c.np as real)), ps)
  {
    hide IsFrame, Total, Sum, Square;
    CompleteIsReady(c, ps);
    CompleteIsFrame(c, ps, root(c.np as real));
  }

  /** The columns `a` and `b` of the values `Kernel` writes for domain `p` with the coefficients of its cluster, multiplied. */
  ghost function WrittenProduct(physics: StructuralMechanics, p: nat, a: nat, b: nat): real
    requires physics.InStage(5) && p < |physics.domain| && a < 6 && b < 6
    reads physics
  {
    var k, ps := FrameFor(physics, p, true), DomainPoints(physics.mesh, p);
    KernelColumn(k, ps, a);
    KernelColumn(k, ps, b);
    Product(ColumnOf(KernelValues(k, ps, 6), |ps|, a), ColumnOf(KernelValues(k, ps, 6), |ps|, b))
  }

  /** The same summed over the first `q` domains, as far as they belong to cluster `c`. */
  ghost function WrittenTotal(physics: StructuralMechanics, c: nat, q: nat, a: nat, b: nat): real
    requires physics.InStage(5) && q <= |physics.domain| && a < 6 && b < 6
    reads physics
  {
    if q == 0 then 0.0 else
      CompleteStages(physics, q - 1);
      WrittenTotal(physics, c, q - 1, a, b) + if physics.mesh.clusters[q - 1] == c then WrittenProduct(physics, q - 1, a, b) else 0.0
  }

  /** Every domain of the cluster writes with the one frame of the cluster. */
  lemma {:induction false} WrittenIsCluster(physics: StructuralMechanics, p: nat, q: nat, a: nat, b: nat)
    requires physics.InStage(5) && p < |physics.domain| && q <= |physics.domain| && a < 6 && b < 6
    ensures |physics.mesh.dintervals| == |physics.mesh.clusters| == |physics.domain| && ValidMesh(physics.mesh)
    ensures WrittenTotal(physics, physics.mesh.clusters[p], q, a, b) ==
      ClusterProduct(FrameFor(physics, p, true), physics.mesh, physics.mesh.clusters[p], q, a, b)
  {
    CompleteStages(physics, p);
    hide Complete, DomainPoints, ColumnValues, KernelValues, Product, Column, AllOf, WrittenProduct, FrameFor, FrameOf, ClusterPoints;
    if q > 0 {
      WrittenIsCluster(physics, p, q - 1, a, b);
      if physics.mesh.clusters[q - 1] == physics.mesh.clusters[p] {
        WrittenColumns(physics, p, q - 1, a, b);
      }
    }
  }

  lemma WrittenColumns(physics: StructuralMechanics, p: nat, q: nat, a: nat, b: nat)
    requires physics.InStage(5) && p < |physics.domain| && q < |physics.domain| && a < 6 && b < 6
    requires |physics.mesh.clusters| == |physics.domain| && physics.mesh.clusters[q] == physics.mesh.clusters[p]
    ensures |physics.mesh.dintervals| == |physics.domain| && ValidMesh(physics.mesh)
    ensures WrittenProduct(physics, q, a, b) == Product(ColumnValues(FrameFor(physics, p, true), Column(a), DomainPoints(physics.mesh, q)),
      ColumnValues(FrameFor(physics, p, true), Column(b), DomainPoints(physics.mesh, q)))
  {
    CompleteStages(physics, p);
    var k, ps := FrameFor(physics, p, true), DomainPoints(physics.mesh, q);
    assert k == FrameFor(physics, q, true);
    hide Complete, DomainPoints, ColumnValues, KernelValues, Product, Column, AllOf, FrameFor;
    KernelColumn(k, ps, a);
    KernelColumn(k, ps, b);
  }

  /**
   * Computed for clusters, the kernels the domains of a cluster write are orthonormal together:
   * every domain contributes the columns it writes with its own call of `Kernel`.
   */
  lemma ClusterKernelOrthonormal(physics: StructuralMechanics, p: nat, a: nat, b: nat)
    requires physics.InStage(5) && IsRoot(physics.root) && p < |physics.domain| && a < 6 && b < 6
    ensures |physics.mesh.clusters| == |physics.domain|
    ensures WrittenTotal(physics, physics.mesh.clusters[p], |physics.domain|, a, b) == if a == b then 1.0 else 0.0
  {
    CompleteStages(physics, p);
    var c := physics.mesh.clusters[p];
    var k, ps := FrameFor(physics, p, true), ClusterPoints(physics.mesh, c, |physics.domain|);
    RootOfCount(physics.cluster[c], ps, physics.root);
    hide IsFrame, Complete, Column, DomainPoints, WrittenTotal, ClusterProduct;
    WrittenIsCluster(physics, p, |physics.domain|, a, b);
    ClusterProductIsDot(k, physics.mesh, c, |physics.domain|, a, b);
    KernelOrthonormal(k, ps, a, b);
  }
}
