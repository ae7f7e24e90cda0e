/**
 * Centres, norms and coefficients of the rotations, per domain and per cluster, and the kernel
 * columns that `analyticRegularization` builds from them.
 */
module StructuralMechanics {
  import opened DofNumbering
  import opened RigidMotions
  import opened RotationCoefficients

  datatype Mesh = Mesh(coordinates: seq<Point>, dintervals: seq<seq<NodeInterval>>, clusters: seq<nat>)

  ghost predicate Within(coordinates: seq<Point>, its: seq<NodeInterval>) {
    forall i :: 0 <= i < |its| ==> 0 <= its[i].begin <= its[i].end <= |coordinates|
  }

  /** The nodes of a domain in the order of its intervals. */
  ghost function PointsOf(coordinates: seq<Point>, its: seq<NodeInterval>): seq<Point>
    requires Within(coordinates, its)
  {
    if its == [] then [] else PointsOf(coordinates, its[..|its| - 1]) + coordinates[its[|its| - 1].begin..its[|its| - 1].end]
  }

  ghost predicate ValidDomain(m: Mesh, p: nat)
    requires p < |m.dintervals|
  {
    m.dintervals[p] != [] && ValidIntervals(m.dintervals[p]) && Within(m.coordinates, m.dintervals[p])
  }

  ghost predicate ValidMesh(m: Mesh) {
    |m.dintervals| == |m.clusters| > 0 && forall p :: 0 <= p < |m.dintervals| ==> ValidDomain(m, p)
  }

  ghost function DomainPoints(m: Mesh, p: nat): seq<Point>
    requires ValidMesh(m) && p < |m.dintervals|
  {
    assert ValidDomain(m, p);
    PointsOf(m.coordinates, m.dintervals[p])
  }

  /** The nodes of the domains of a cluster, those on several domains several times. */
  ghost function ClusterPoints(m: Mesh, c: nat, p: nat): seq<Point>
    requires ValidMesh(m) && p <= |m.dintervals|
  {
    if p == 0 then [] else ClusterPoints(m, c, p - 1) + if m.clusters[p - 1] == c then DomainPoints(m, p - 1) else []
  }

  ghost predicate ClusterCount(clusters: seq<nat>, n: nat) {
    && (forall p :: 0 <= p < |clusters| ==> clusters[p] < n)
    && exists p :: 0 <= p < |clusters| && clusters[p] == n - 1
  }

  /** No domain and no cluster has all its nodes on a line. */
  ghost predicate NonDegenerate(m: Mesh) {
    && ValidMesh(m)
    && (forall p :: 0 <= p < |m.dintervals| ==> !Collinear(DomainPoints(m, p)))
    && (forall n, c :: 0 <= c < n && ClusterCount(m.clusters, n) ==> !Collinear(ClusterPoints(m, c, |m.dintervals|)))
  }

  lemma {:induction false} PointsCounted(coordinates: seq<Point>, its: seq<NodeInterval>)
    requires ValidIntervals(its) && Within(coordinates, its)
    ensures |PointsOf(coordinates, its)| == Count(its)
  {
    if |its| > 1 {
      PointsCounted(coordinates, its[..|its| - 1]);
    } else if |its| == 1 {
      assert PointsOf(coordinates, its[..0]) == [];
    }
  }

  /** Sums around different centres. */
  lemma {:induction false} SumMoved(c: Point, ps: seq<Point>)
    ensures Sum(c, ps) == Minus(Sum(ORIGIN, ps), Times(|ps| as real, c))
  {
    if ps != [] {
      SumMoved(c, ps[..|ps| - 1]);
      TimesNext(|ps|, c);
    }
  }

  lemma {:induction false} SumAppend(c: Point, ps: seq<Point>, qs: seq<Point>)
    ensures Sum(c, ps + qs) == Plus(Sum(c, ps), Sum(c, qs))
  {
    hide Plus, Minus;
    if qs == [] {
      assert ps + qs == ps;
      NothingAdded(Sum(c, ps));
    } else {
      var init, last := qs[..|qs| - 1], qs[|qs| - 1];
      SumAppend(c, ps, init);
      SumOfLast(c, ps + init, last);
      SumOfLast(c, init, last);
      assert (ps + init) + [last] == ps + qs && init + [last] == qs;
      Regrouped(Sum(c, ps), Sum(c, init), Minus(last, c));
    }
  }

  lemma SumOfLast(c: Point, ps: seq<Point>, p: Point)
    ensures Sum(c, ps + [p]) == Plus(Sum(c, ps), Minus(p, c))
  {
    assert (ps + [p])[..|ps|] == ps;
  }

  lemma NothingAdded(a: Point)
    ensures Plus(a, ORIGIN) == a
  {
  }

  lemma Regrouped(a: Point, b: Point, d: Point)
    ensures Plus(Plus(a, b), d) == Plus(a, Plus(b, d))
  {
  }

  function PointOver(a: Point, n: nat): Point
    requires n > 0
  {
    Point(a.x / n as real, a.y / n as real, a.z / n as real)
  }

  lemma MeanCenters(ps: seq<Point>)
    requires ps != []
    ensures Sum(PointOver(Sum(ORIGIN, ps), |ps|), ps) == ORIGIN
  {
    SumMoved(PointOver(Sum(ORIGIN, ps), |ps|), ps);
    hide Sum;
  }

  lemma NotOnALine(ps: seq<Point>)
    requires !Collinear(ps)
    ensures ps != []
  {
    if ps == [] {
      assert LineThrough(ps, ORIGIN, Point(1.0, 0.0, 0.0));
    }
  }

  /** The state after a number of passes: centre, norm 4, coefficients 4, and so on. */
  ghost predicate Stage(n: nat, c: Coefficients, ps: seq<Point>) {
    match n
    case 0 => Centered(c, ps)
    case 1 => WithNorm4(c, ps)
    case 2 => WithFour(c, ps)
    case 3 => WithNorm5(c, ps)
    case 4 => WithFive(c, ps)
    case _ => Complete(c, ps)
  }

  ghost predicate AllOf(n: nat, cs: seq<Coefficients>, points: seq<seq<Point>>) {
    |cs| == |points| && forall i :: 0 <= i < |cs| ==> Stage(n, cs[i], points[i])
  }

  ghost predicate TotalsOf(t: Term, cs: seq<Coefficients>, points: seq<seq<Point>>, sums: seq<real>) {
    && |sums| == |cs| == |points|
    && forall i :: 0 <= i < |cs| ==> Ready(t, cs[i]) && sums[i] == Total(t, cs[i], points[i])
  }

  ghost predicate NoneOnALine(points: seq<seq<Point>>) {
    forall i :: 0 <= i < |points| ==> !Collinear(points[i])
  }

  function StoreNormX(cs: seq<Coefficients>, sums: seq<real>, root: real -> real): (r: seq<Coefficients>)
    requires |sums| == |cs|
    ensures |r| == |cs|
  {
    seq(|cs|, i requires 0 <= i < |cs| => cs[i].(norm := cs[i].norm.(x := root(sums[i]))))
  }

  function StoreFour(cs: seq<Coefficients>, r44: seq<real>, r45: seq<real>): (r: seq<Coefficients>)
    requires |r44| == |r45| == |cs|
    ensures |r| == |cs|
  {
    seq(|cs|, i requires 0 <= i < |cs| => cs[i].(r44 := r44[i], r45 := r45[i]))
  }

  function StoreNormY(cs: seq<Coefficients>, sums: seq<real>, root: real -> real): (r: seq<Coefficients>)
    requires |sums| == |cs|
    ensures |r| == |cs|
  {
    seq(|cs|, i requires 0 <= i < |cs| => cs[i].(norm := cs[i].norm.(y := root(sums[i]))))
  }

  function StoreFive(cs: seq<Coefficients>, r46: seq<real>, r55: seq<real>, r56: seq<real>): (r: seq<Coefficients>)
    requires |r46| == |r55| == |r56| == |cs|
    ensures |r| == |cs|
  {
    seq(|cs|, i requires 0 <= i < |cs| => cs[i].(r46 := r46[i], r55 := r55[i], r56 := r56[i]))
  }

  function StoreNormZ(cs: seq<Coefficients>, sums: seq<real>, root: real -> real): (r: seq<Coefficients>)
    requires |sums| == |cs|
    ensures |r| == |cs|
  {
    seq(|cs|, i requires 0 <= i < |cs| => cs[i].(norm := cs[i].norm.(z := root(sums[i]))))
  }

  lemma NormXStored(cs: seq<Coefficients>, points: seq<seq<Point>>, sums: seq<real>, root: real -> real)
    requires AllOf(0, cs, points) && NoneOnALine(points) && IsRoot(root) && TotalsOf(Norm4, cs, points, sums)
    ensures AllOf(1, StoreNormX(cs, sums, root), points)
  {
    hide Centered, WithNorm4, Collinear, Total, IsRoot;
    forall i | 0 <= i < |cs|
      ensures Stage(1, StoreNormX(cs, sums, root)[i], points[i])
    {
      assert Stage(0, cs[i], points[i]) && !Collinear(points[i]);
      Norm4Found(cs[i], points[i], root);
    }
  }

  lemma FourStored(cs: seq<Coefficients>, points: seq<seq<Point>>, r44: seq<real>, r45: seq<real>)
    requires AllOf(1, cs, points) && TotalsOf(R44, cs, points, r44) && TotalsOf(R45, cs, points, r45)
    ensures AllOf(2, StoreFour(cs, r44, r45), points)
  {
    hide WithNorm4, WithFour, Collinear, Total;
    forall i | 0 <= i < |cs|
      ensures Stage(2, StoreFour(cs, r44, r45)[i], points[i])
    {
      assert Stage(1, cs[i], points[i]);
      FourFound(cs[i], points[i]);
    }
  }

  lemma NormYStored(cs: seq<Coefficients>, points: seq<seq<Point>>, sums: seq<real>, root: real -> real)
    requires AllOf(2, cs, points) && NoneOnALine(points) && IsRoot(root) && TotalsOf(Norm5, cs, points, sums)
    ensures AllOf(3, StoreNormY(cs, sums, root), points)
  {
    hide WithFour, WithNorm5, Collinear, Total, IsRoot;
    forall i | 0 <= i < |cs|
      ensures Stage(3, StoreNormY(cs, sums, root)[i], points[i])
    {
      assert Stage(2, cs[i], points[i]) && !Collinear(points[i]);
      Norm5Found(cs[i], points[i], root);
    }
  }

  lemma FiveStored(cs: seq<Coefficients>, points: seq<seq<Point>>, r46: seq<real>, r55: seq<real>, r56: seq<real>)
    requires AllOf(3, cs, points) && TotalsOf(R46, cs, points, r46) && TotalsOf(R55, cs, points, r55) && TotalsOf(R56, cs, points, r56)
    ensures AllOf(4, StoreFive(cs, r46, r55, r56), points)
  {
    hide WithNorm5, WithFive, Collinear, Total;
    forall i | 0 <= i < |cs|
      ensures Stage(4, StoreFive(cs, r46, r55, r56)[i], points[i])
    {
      assert Stage(3, cs[i], points[i]);
      FiveFound(cs[i], points[i]);
    }
  }

  lemma NormZStored(cs: seq<Coefficients>, points: seq<seq<Point>>, sums: seq<real>, root: real -> real)
    requires AllOf(4, cs, points) && NoneOnALine(points) && IsRoot(root) && TotalsOf(Norm6, cs, points, sums)
    ensures AllOf(5, StoreNormZ(cs, sums, root), points)
  {
    hide WithFive, Complete, Collinear, Total, IsRoot;
    forall i | 0 <= i < |cs|
      ensures Stage(5, StoreNormZ(cs, sums, root)[i], points[i])
    {
      assert Stage(4, cs[i], points[i]) && !Collinear(points[i]);
      Norm6Found(cs[i], points[i], root);
    }
  }

  lemma StageReady(n: nat, c: Coefficients, ps: seq<Point>, t: Term)
    requires Stage(n, c, ps) && Passes(t) <= n
    ensures Ready(t, c)
  {
    hide Total, Sum;
  }

  /** The number of passes whose results a term uses. */
  function Passes(t: Term): nat {
    match t
    case Norm4 => 0
    case R44 => 1
    case R45 => 1
    case Norm5 => 2
    case R46 => 3
    case R55 => 3
    case R56 => 3
    case Norm6 => 4
  }

  /** Domain by domain and cluster by cluster. */
  ghost function DomainLists(m: Mesh): (r: seq<seq<Point>>)
    requires ValidMesh(m)
    ensures |r| == |m.dintervals|
  {
    seq(|m.dintervals|, p requires 0 <= p < |m.dintervals| => DomainPoints(m, p))
  }

  ghost function ClusterLists(m: Mesh, n: nat): (r: seq<seq<Point>>)
    requires ValidMesh(m)
    ensures |r| == n
  {
    seq(n, c requires 0 <= c < n => ClusterPoints(m, c, |m.dintervals|))
  }

  class StructuralMechanics {
    const mesh: Mesh
    const root: real -> real
    var domain: seq<Coefficients>
    var cluster: seq<Coefficients>

    constructor (mesh: Mesh, root: real -> real)
      ensures this.mesh == mesh && this.root == root
    {
      this.mesh, this.root := mesh, root;
      this.domain, this.cluster := [], [];
    }

    ghost predicate Sized()
      reads this
    {
      ValidMesh(mesh) && |domain| == |mesh.dintervals| && ClusterCount(mesh.clusters, |cluster|)
    }

    /** After `n` passes every domain and every cluster is in the same stage. */
    ghost predicate InStage(n: nat)
      reads this
    {
      Sized() && AllOf(n, domain, DomainLists(mesh)) && AllOf(n, cluster, ClusterLists(mesh, |cluster|))
    }

    /** Sums a term over the nodes of a domain, for the domain and for its cluster. */
    method SumOverDomain(t: Term, p: nat) returns (d: real, b: real)
      requires Sized() && p < |domain| && Ready(t, domain[p]) && Ready(t, cluster[mesh.clusters[p]])
      ensures d == Total(t, domain[p], DomainPoints(mesh, p)) && b == Total(t, cluster[mesh.clusters[p]], DomainPoints(mesh, p))
    {
      hide Total, Ready, ValidIntervals;
      assert ValidDomain(mesh, p);
      var its, dc, cc := mesh.dintervals[p], domain[p], cluster[mesh.clusters[p]];
      NothingTotal(t, dc);
      NothingTotal(t, cc);
      d, b := 0.0, 0.0;
      for i := 0 to |its|
        invariant d == Total(t, dc, PointsOf(mesh.coordinates, its[..i])) && b == Total(t, cc, PointsOf(mesh.coordinates, its[..i]))
      {
        var begin, end := its[i].begin, its[i].end;
        ghost var before := PointsOf(mesh.coordinates, its[..i]);
        assert its[..i + 1][..i] == its[..i];
        assert before + mesh.coordinates[begin..begin] == before;
        for n := begin to end
          invariant d == Total(t, dc, before + mesh.coordinates[begin..n]) && b == Total(t, cc, before + mesh.coordinates[begin..n])
        {
          d := d + Value(t, dc, mesh.coordinates[n]);
          b := b + Value(t, cc, mesh.coordinates[n]);
          NextNode(t, dc, before, mesh.coordinates, begin, n);
          NextNode(t, cc, before, mesh.coordinates, begin, n);
        }
      }
      assert its[..|its|] == its;
    }

    /** The sums of all domains, and what the domains add to their clusters. */
    method SumOverDomains(t: Term) returns (ds: seq<real>, buffer: seq<real>)
      requires Sized() && forall i :: 0 <= i < |domain| ==> Ready(t, domain[i])
      requires forall i :: 0 <= i < |cluster| ==> Ready(t, cluster[i])
      ensures TotalsOf(t, domain, DomainLists(mesh), ds)
      ensures |buffer| == |domain|
      ensures forall i :: 0 <= i < |domain| ==> buffer[i] == Total(t, cluster[mesh.clusters[i]], DomainPoints(mesh, i))
    {
      hide Total, Ready, DomainPoints;
      ds, buffer := [], [];
      for p := 0 to |domain|
        invariant |ds| == |buffer| == p
        invariant forall i :: 0 <= i < p ==> ds[i] == Total(t, domain[i], DomainPoints(mesh, i))
        invariant forall i :: 0 <= i < p ==> buffer[i] == Total(t, cluster[mesh.clusters[i]], DomainPoints(mesh, i))
      {
        var d, b := SumOverDomain(t, p);
        ds, buffer := ds + [d], buffer + [b];
      }
    }

    method SumOverClusters(t: Term, buffer: seq<real>) returns (cs: seq<real>)
      requires Sized() && |buffer| == |domain| && forall i :: 0 <= i < |cluster| ==> Ready(t, cluster[i])
      requires forall i :: 0 <= i < |domain| ==> buffer[i] == Total(t, cluster[mesh.clusters[i]], DomainPoints(mesh, i))
      ensures TotalsOf(t, cluster, ClusterLists(mesh, |cluster|), cs)
    {
      hide Total, Ready, DomainPoints, ClusterPoints, ValidMesh, TotalsOf;
      assert |mesh.clusters| == |domain| && forall p :: 0 <= p < |domain| ==> mesh.clusters[p] < |cluster| by {
        SizesOf(mesh, |cluster|);
      }
      hide ClusterCount;
      cs := seq(|cluster|, _ => 0.0);
      NoClusterSums(t, mesh, cluster, cs);
      for p := 0 to |domain|
        invariant ClusterSums(t, mesh, cluster, p, cs)
      {
        NextClusterSums(t, mesh, cluster, p, cs);
        cs := cs[mesh.clusters[p] := cs[mesh.clusters[p]] + buffer[p]];
      }
      AllClusterSums(t, mesh, cluster, cs);
    }

    /** One pass over all nodes: the sums of all domains and of all clusters. */
    method Pass(t: Term, ghost n: nat) returns (ds: seq<real>, cs: seq<real>)
      requires InStage(n) && Passes(t) <= n
      ensures |ds| == |domain| && TotalsOf(t, domain, DomainLists(mesh), ds)
      ensures |cs| == |cluster| && TotalsOf(t, cluster, ClusterLists(mesh, |cluster|), cs)
    {
      hide Total, Ready, Stage, ValidMesh, ClusterCount, ClusterPoints, DomainPoints, Passes;
      AllReady(t, n, domain, DomainLists(mesh));
      AllReady(t, n, cluster, ClusterLists(mesh, |cluster|));
      var buffer: seq<real>;
      ds, buffer := SumOverDomains(t);
      cs := SumOverClusters(t, buffer);
    }

    /** Sums the coordinates of a domain. */
    method SumCoordinates(p: nat) returns (center: Point)
      requires ValidMesh(mesh) && p < |mesh.dintervals|
      ensures center == Sum(ORIGIN, DomainPoints(mesh, p))
    {
      hide ValidIntervals, Sum;
      assert ValidDomain(mesh, p);
      var its := mesh.dintervals[p];
      center := ORIGIN;
      NothingSummed(ORIGIN);
      for i := 0 to |its|
        invariant center == Sum(ORIGIN, PointsOf(mesh.coordinates, its[..i]))
      {
        var begin, end := its[i].begin, its[i].end;
        ghost var before := PointsOf(mesh.coordinates, its[..i]);
        assert its[..i + 1][..i] == its[..i];
        assert before + mesh.coordinates[begin..begin] == before;
        for n := begin to end
          invariant center == Sum(ORIGIN, before + mesh.coordinates[begin..n])
        {
          center := Plus(center, mesh.coordinates[n]);
          NextSummed(before, mesh.coordinates, begin, n);
        }
      }
      assert its[..|its|] == its;
    }

    /** The number of clusters is one more than the largest cluster. */
    method CountClusters() returns (n: nat)
      requires mesh.clusters != []
      ensures ClusterCount(mesh.clusters, n)
    {
      n := mesh.clusters[0] + 1;
      ghost var largest := 0;
      for p := 0 to |mesh.clusters|
        invariant largest < |mesh.clusters| && n == mesh.clusters[largest] + 1
        invariant forall i :: 0 <= i < p ==> mesh.clusters[i] < n
      {
        if n < mesh.clusters[p] + 1 {
          n := mesh.clusters[p] + 1;
          largest := p;
        }
      }
    }

    /** The centres of all domains and clusters. */
    method Centers()
      requires NonDegenerate(mesh)
      modifies this
      ensures InStage(0)
    {
      hide Collinear, DomainPoints, ClusterPoints, Sum, Centered, ValidDomain, ClusterLists, DomainLists, AllOf;
      var zero := Coefficients(ORIGIN, ORIGIN, 0.0, 0.0, 0.0, 0.0, 0.0, 0);
      var n := CountClusters();
      NoneOfThem(mesh, n);
      SizesOf(mesh, n);
      hide NonDegenerate, ClusterCount, NoneOnALine;
      domain, cluster := [], seq(n, _ => zero);
      NoClusterCenters(mesh, cluster);
      for p := 0 to |mesh.dintervals|
        invariant |domain| == p && ClusterCenters(mesh, cluster, p) && |cluster| == n
        invariant DomainsCentered(mesh, domain)
      {
        var center := SumCoordinates(p);
        NodeCount(mesh, p);
        var last := mesh.dintervals[p][|mesh.dintervals[p]| - 1];
        var np: nat := last.offset + last.end - last.begin;
        var c := mesh.clusters[p];
        NextClusterCenters(mesh, cluster, p);
        cluster := cluster[c := cluster[c].(center := Plus(cluster[c].center, center), np := cluster[c].np + np)];
        DomainHasNodes(mesh, p);
        NextDomainCentered(mesh, domain, zero, center, np);
        domain := domain + [zero.(center := PointOver(center, np), np := np)];
      }
      AllDomainsCentered(mesh, domain);
      ClustersCentered(mesh, cluster);
      cluster := DivideCenters(cluster);
    }

    /** `prepare`: all coefficients of all domains and clusters. */
    method Prepare()
      requires NonDegenerate(mesh) && IsRoot(root)
      modifies this
      ensures InStage(5)
    {
      hide AllOf, NonDegenerate, IsRoot, TotalsOf, NoneOnALine, DomainLists, ClusterLists;
      Centers();
      NoneOfThem(mesh, |cluster|);
      ghost var ds, cs := DomainLists(mesh), ClusterLists(mesh, |cluster|);
      var a, b := Pass(Norm4, 0);
      NormXStored(domain, ds, a, root);
      NormXStored(cluster, cs, b, root);
      domain, cluster := StoreNormX(domain, a, root), StoreNormX(cluster, b, root);
      a, b := Pass(R44, 1);
      var c, d := Pass(R45, 1);
      FourStored(domain, ds, a, c);
      FourStored(cluster, cs, b, d);
      domain, cluster := StoreFour(domain, a, c), StoreFour(cluster, b, d);
      a, b := Pass(Norm5, 2);
      NormYStored(domain, ds, a, root);
      NormYStored(cluster, cs, b, root);
      domain, cluster := StoreNormY(domain, a, root), StoreNormY(cluster, b, root);
      a, b := Pass(R46, 3);
      c, d := Pass(R55, 3);
      var e, f := Pass(R56, 3);
      FiveStored(domain, ds, a, c, e);
      FiveStored(cluster, cs, b, d, f);
      domain, cluster := StoreFive(domain, a, c, e), StoreFive(cluster, b, d, f);
      a, b := Pass(Norm6, 4);
      NormZStored(domain, ds, a, root);
      NormZStored(cluster, cs, b, root);
      domain, cluster := StoreNormZ(domain, a, root), StoreNormZ(cluster, b, root);
    }
  }

  lemma NoneOfThem(m: Mesh, n: nat)
    requires NonDegenerate(m) && ClusterCount(m.clusters, n)
    ensures ValidMesh(m) && NoneOnALine(DomainLists(m)) && NoneOnALine(ClusterLists(m, n))
  {
    hide Collinear, DomainPoints, ClusterPoints;
  }

  lemma NothingTotal(t: Term, c: Coefficients)
    requires Ready(t, c)
    ensures Total(t, c, []) == 0.0
  {
  }

  lemma NothingTotals(t: Term, cs: seq<Coefficients>)
    requires forall i :: 0 <= i < |cs| ==> Ready(t, cs[i])
    ensures forall i :: 0 <= i < |cs| ==> Total(t, cs[i], []) == 0.0
  {
  }

  lemma NextNode(t: Term, c: Coefficients, before: seq<Point>, coordinates: seq<Point>, begin: nat, n: nat)
    requires Ready(t, c) && begin <= n < |coordinates|
    ensures Total(t, c, before + coordinates[begin..n + 1]) == Total(t, c, before + coordinates[begin..n]) + Value(t, c, coordinates[n])
  {
    hide Ready, Value;
    var longer := before + coordinates[begin..n + 1];
    assert longer[..|longer| - 1] == before + coordinates[begin..n];
  }

  lemma AllReady(t: Term, n: nat, cs: seq<Coefficients>, points: seq<seq<Point>>)
    requires AllOf(n, cs, points) && Passes(t) <= n
    ensures forall i :: 0 <= i < |cs| ==> Ready(t, cs[i])
  {
    hide Stage, Ready, Passes;
    forall i | 0 <= i < |cs|
      ensures Ready(t, cs[i])
    {
      assert Stage(n, cs[i], points[i]);
      StageReady(n, cs[i], points[i], t);
    }
  }

  lemma SizesOf(m: Mesh, n: nat)
    requires ValidMesh(m) && ClusterCount(m.clusters, n)
    ensures |m.dintervals| == |m.clusters| && forall p :: 0 <= p < |m.clusters| ==> m.clusters[p] < n
  {
  }

  /** The sums of the clusters over the domains before `p`. */
  ghost predicate ClusterSums(t: Term, m: Mesh, cluster: seq<Coefficients>, p: nat, sums: seq<real>)
    requires ValidMesh(m) && p <= |m.dintervals| && forall i :: 0 <= i < |cluster| ==> Ready(t, cluster[i])
  {
    |sums| == |cluster| && forall c :: 0 <= c < |cluster| ==> ClusterSumAt(t, m, cluster, p, sums, c)
  }

  ghost predicate ClusterSumAt(t: Term, m: Mesh, cluster: seq<Coefficients>, p: nat, sums: seq<real>, c: nat)
    requires ValidMesh(m) && p <= |m.dintervals| && c < |cluster| == |sums| && Ready(t, cluster[c])
  {
    sums[c] == Total(t, cluster[c], ClusterPoints(m, c, p))
  }

  lemma NoClusterSums(t: Term, m: Mesh, cluster: seq<Coefficients>, sums: seq<real>)
    requires ValidMesh(m) && forall i :: 0 <= i < |cluster| ==> Ready(t, cluster[i])
    requires |sums| == |cluster| && forall c :: 0 <= c < |cluster| ==> sums[c] == 0.0
    ensures ClusterSums(t, m, cluster, 0, sums)
  {
    hide Ready, Total, ValidMesh;
    NothingTotals(t, cluster);
  }

  lemma NextClusterSums(t: Term, m: Mesh, cluster: seq<Coefficients>, p: nat, sums: seq<real>)
    requires ValidMesh(m) && p < |m.dintervals| && (forall i :: 0 <= i < |cluster| ==> Ready(t, cluster[i])) && m.clusters[p] < |cluster|
    requires ClusterSums(t, m, cluster, p, sums)
    ensures var c := m.clusters[p];
      ClusterSums(t, m, cluster, p + 1, sums[c := sums[c] + Total(t, cluster[c], DomainPoints(m, p))])
  {
    hide Ready, Total, DomainPoints;
    var c := m.clusters[p];
    var next := sums[c := sums[c] + Total(t, cluster[c], DomainPoints(m, p))];
    TotalAppend(t, cluster[c], ClusterPoints(m, c, p), DomainPoints(m, p));
    var q := p + 1;
    forall i | 0 <= i < |cluster|
      ensures ClusterSumAt(t, m, cluster, q, next, i)
    {
      assert ClusterSumAt(t, m, cluster, p, sums, i);
      PointsOfNext(m, i, p);
    }
  }

  lemma PointsOfNext(m: Mesh, c: nat, p: nat)
    requires ValidMesh(m) && p < |m.dintervals|
    ensures ClusterPoints(m, c, p + 1) == if m.clusters[p] == c then ClusterPoints(m, c, p) + DomainPoints(m, p) else ClusterPoints(m, c, p)
  {
    hide DomainPoints;
  }

  lemma AllClusterSums(t: Term, m: Mesh, cluster: seq<Coefficients>, sums: seq<real>)
    requires ValidMesh(m) && (forall i :: 0 <= i < |cluster| ==> Ready(t, cluster[i]))
    requires ClusterSums(t, m, cluster, |m.dintervals|, sums)
    ensures TotalsOf(t, cluster, ClusterLists(m, |cluster|), sums)
  {
    hide Ready, Total, ClusterPoints;
    forall c | 0 <= c < |cluster|
      ensures sums[c] == Total(t, cluster[c], ClusterPoints(m, c, |m.dintervals|))
    {
      assert ClusterSumAt(t, m, cluster, |m.dintervals|, sums, c);
    }
  }

  lemma NothingSummed(c: Point)
    ensures Sum(c, []) == ORIGIN
  {
  }

  lemma NextSummed(before: seq<Point>, coordinates: seq<Point>, begin: nat, n: nat)
    requires begin <= n < |coordinates|
    ensures Sum(ORIGIN, before + coordinates[begin..n + 1]) == Plus(Sum(ORIGIN, before + coordinates[begin..n]), coordinates[n])
  {
    var longer := before + coordinates[begin..n + 1];
    assert longer[..|longer| - 1] == before + coordinates[begin..n];
  }

  /** The last interval knows the number of nodes. */
  lemma NodeCount(m: Mesh, p: nat)
    requires ValidMesh(m) && p < |m.dintervals|
    ensures m.dintervals[p] != [] && Count(m.dintervals[p]) == |DomainPoints(m, p)|
  {
    assert ValidDomain(m, p);
    PointsCounted(m.coordinates, m.dintervals[p]);
  }

  lemma DomainHasNodes(m: Mesh, p: nat)
    requires ValidMesh(m) && NoneOnALine(DomainLists(m)) && p < |m.dintervals|
    ensures DomainPoints(m, p) != []
  {
    hide Collinear, DomainPoints;
    assert !Collinear(DomainLists(m)[p]);
    NotOnALine(DomainPoints(m, p));
  }

  lemma MeanIsCentered(c: Coefficients, ps: seq<Point>)
    requires c.np == |ps| > 0 && c.center == PointOver(Sum(ORIGIN, ps), c.np)
    ensures Centered(c, ps)
  {
    MeanCenters(ps);
  }

  ghost predicate DomainsCentered(m: Mesh, domain: seq<Coefficients>)
    requires ValidMesh(m)
  {
    |domain| <= |m.dintervals| && forall i :: 0 <= i < |domain| ==> Centered(domain[i], DomainPoints(m, i))
  }

  lemma NextDomainCentered(m: Mesh, domain: seq<Coefficients>, zero: Coefficients, center: Point, np: nat)
    requires ValidMesh(m) && DomainsCentered(m, domain) && |domain| < |m.dintervals|
    requires center == Sum(ORIGIN, DomainPoints(m, |domain|)) && np == |DomainPoints(m, |domain|)| > 0
    ensures DomainsCentered(m, domain + [zero.(center := PointOver(center, np), np := np)])
  {
    hide DomainPoints, Centered;
    MeanIsCentered(zero.(center := PointOver(center, np), np := np), DomainPoints(m, |domain|));
  }

  lemma AllDomainsCentered(m: Mesh, domain: seq<Coefficients>)
    requires ValidMesh(m) && DomainsCentered(m, domain) && |domain| == |m.dintervals|
    ensures AllOf(0, domain, DomainLists(m))
  {
    hide DomainPoints, Centered;
  }

  /** The summed coordinates and the node counts of the clusters over the domains before `p`. */
  ghost predicate ClusterCenters(m: Mesh, cluster: seq<Coefficients>, p: nat)
    requires ValidMesh(m) && p <= |m.dintervals|
  {
    forall c :: 0 <= c < |cluster| ==> ClusterCenterAt(m, cluster, p, c)
  }

  ghost predicate ClusterCenterAt(m: Mesh, cluster: seq<Coefficients>, p: nat, c: nat)
    requires ValidMesh(m) && p <= |m.dintervals| && c < |cluster|
  {
    cluster[c].center == Sum(ORIGIN, ClusterPoints(m, c, p)) && cluster[c].np == |ClusterPoints(m, c, p)|
  }

  lemma NoClusterCenters(m: Mesh, cluster: seq<Coefficients>)
    requires ValidMesh(m) && forall c :: 0 <= c < |cluster| ==> cluster[c].center == ORIGIN && cluster[c].np == 0
    ensures ClusterCenters(m, cluster, 0)
  {
    hide ValidMesh;
  }

  lemma NextClusterCenters(m: Mesh, cluster: seq<Coefficients>, p: nat)
    requires ValidMesh(m) && p < |m.dintervals| && m.clusters[p] < |cluster| && ClusterCenters(m, cluster, p)
    ensures var c := m.clusters[p];
      var next := cluster[c].(center := Plus(cluster[c].center, Sum(ORIGIN, DomainPoints(m, p))), np := cluster[c].np + |DomainPoints(m, p)|);
      ClusterCenters(m, cluster[c := next], p + 1)
  {
    hide DomainPoints, Sum;
    var c := m.clusters[p];
    var next := cluster[c].(center := Plus(cluster[c].center, Sum(ORIGIN, DomainPoints(m, p))), np := cluster[c].np + |DomainPoints(m, p)|);
    var q, updated := p + 1, cluster[c := next];
    SumAppend(ORIGIN, ClusterPoints(m, c, p), DomainPoints(m, p));
    forall i | 0 <= i < |updated|
      ensures ClusterCenterAt(m, updated, q, i)
    {
      assert ClusterCenterAt(m, cluster, p, i);
      PointsOfNext(m, i, p);
    }
  }

  function DivideCenters(cluster: seq<Coefficients>): (r: seq<Coefficients>)
    requires forall c :: 0 <= c < |cluster| ==> cluster[c].np > 0
    ensures |r| == |cluster|
  {
    seq(|cluster|, c requires 0 <= c < |cluster| => cluster[c].(center := PointOver(cluster[c].center, cluster[c].np)))
  }

  lemma ClustersCentered(m: Mesh, cluster: seq<Coefficients>)
    requires ValidMesh(m) && ClusterCenters(m, cluster, |m.dintervals|) && NoneOnALine(ClusterLists(m, |cluster|))
    ensures forall c :: 0 <= c < |cluster| ==> cluster[c].np > 0
    ensures AllOf(0, DivideCenters(cluster), ClusterLists(m, |cluster|))
  {
    hide Sum, ClusterPoints, Collinear, Centered, ValidMesh;
    forall c | 0 <= c < |cluster|
      ensures cluster[c].np > 0
    {
      ClusterHasNodes(m, cluster, c);
    }
    var r := DivideCenters(cluster);
    forall c | 0 <= c < |cluster|
      ensures Centered(r[c], ClusterPoints(m, c, |m.dintervals|))
    {
      ClusterHasNodes(m, cluster, c);
      MeanIsCentered(r[c], ClusterPoints(m, c, |m.dintervals|));
    }
  }

  lemma ClusterHasNodes(m: Mesh, cluster: seq<Coefficients>, c: nat)
    requires ValidMesh(m) && ClusterCenters(m, cluster, |m.dintervals|) && NoneOnALine(ClusterLists(m, |cluster|)) && c < |cluster|
    ensures cluster[c].np == |ClusterPoints(m, c, |m.dintervals|)| > 0
    ensures cluster[c].center == Sum(ORIGIN, ClusterPoints(m, c, |m.dintervals|))
  {
    hide Sum, ClusterPoints, Collinear, ValidMesh;
    assert ClusterCenterAt(m, cluster, |m.dintervals|, c);
    assert !Collinear(ClusterLists(m, |cluster|)[c]);
    NotOnALine(ClusterPoints(m, c, |m.dintervals|));
  }
}
