/** `Constraints::computeIntervalsOffsets`: global row ranges handed out by the interval owners. */
module Offsets {
  import opened Basis
  import opened Decomposition
  import Communication

  /** What each listed interval adds to the running offset of process `p`. */
  ghost function LocalSizes(m: Mesh, sizes: seq<nat>, p: nat): (s: seq<nat>)
    requires Valid(m) && |sizes| == |m.intervals| && p < Processes(m)
  {
    seq(|m.order[p]|, k requires 0 <= k < |m.order[p]| =>
      if Owns(m, p, m.order[p][k]) then sizes[m.order[p][k]] else 0)
  }

  ghost function ProcessSizes(m: Mesh, sizes: seq<nat>): (s: seq<nat>)
    requires Valid(m) && |sizes| == |m.intervals|
  {
    seq(Processes(m), p requires 0 <= p < Processes(m) => Prefix(LocalSizes(m, sizes, p), |m.order[p]|))
  }

  ghost function Total(m: Mesh, sizes: seq<nat>): nat
    requires Valid(m) && |sizes| == |m.intervals|
  {
    Prefix(ProcessSizes(m, sizes), Processes(m))
  }

  /** Offset of interval `i` inside the rows of process `p`, its owner. */
  ghost function LocalOffset(m: Mesh, sizes: seq<nat>, p: nat, i: nat): nat
    requires Valid(m) && |sizes| == |m.intervals| && p < Processes(m) && i in m.order[p]
  {
    Prefix(LocalSizes(m, sizes, p), IndexOf(m.order[p], i))
  }

  /** The one offset of interval `i` that all its processes must agree on. */
  ghost function GlobalOffset(m: Mesh, sizes: seq<nat>, i: nat): nat
    requires Valid(m) && |sizes| == |m.intervals|
  {
    if i >= |m.intervals| then 0 else
    OwnerOwns(m, i);
    Prefix(ProcessSizes(m, sizes), Owner(m, i)) + LocalOffset(m, sizes, Owner(m, i), i)
  }

  /** The offsets process `p` sends to `q` while walking over its first `k` intervals. */
  ghost function SentOffsets(m: Mesh, sizes: seq<nat>, p: nat, q: nat, k: nat): seq<int>
    requires Valid(m) && |sizes| == |m.intervals| && p < Processes(m) && k <= |m.order[p]|
  {
    if k == 0 then [] else
      var i := m.order[p][k - 1];
      SentOffsets(m, sizes, p, q, k - 1) +
      if Owns(m, p, i) && Sees(m, q, i) then [Prefix(LocalSizes(m, sizes, p), k - 1)] else []
  }

  lemma IndexOfDistinct(s: seq<nat>, k: nat)
    requires Distinct(s) && k < |s|
    ensures IndexOf(s, s[k]) == k
  {
  }

  /** The j-th offset sent is the offset of the j-th shared interval. */
  lemma {:induction false} SentOffsetsOfShared(m: Mesh, sizes: seq<nat>, p: nat, q: nat, k: nat)
    requires Valid(m) && |sizes| == |m.intervals| && p < Processes(m) && k <= |m.order[p]|
    ensures |SentOffsets(m, sizes, p, q, k)| == |SharedIds(m, p, q, m.order[p][..k])|
    ensures forall j :: 0 <= j < |SentOffsets(m, sizes, p, q, k)| ==>
      var i := SharedIds(m, p, q, m.order[p][..k])[j];
      i in m.order[p] && SentOffsets(m, sizes, p, q, k)[j] == LocalOffset(m, sizes, p, i)
  {
    if k > 0 {
      SentOffsetsOfShared(m, sizes, p, q, k - 1);
      assert ListsItsIntervals(m, p);
      assert m.order[p][..k][..k - 1] == m.order[p][..k - 1];
      IndexOfDistinct(m.order[p], k - 1);
    }
  }

  /** The k-th interval is found in the shared list right after the shared ones before it. */
  lemma {:induction false} SharedPosition(m: Mesh, p: nat, q: nat, ids: seq<nat>, k: nat)
    requires k < |ids| && Owns(m, p, ids[k]) && Sees(m, q, ids[k])
    ensures |SharedIds(m, p, q, ids[..k])| < |SharedIds(m, p, q, ids)|
    ensures SharedIds(m, p, q, ids)[|SharedIds(m, p, q, ids[..k])|] == ids[k]
    decreases |ids|
  {
    if k < |ids| - 1 {
      SharedPosition(m, p, q, ids[..|ids| - 1], k);
      assert ids[..|ids| - 1][..k] == ids[..k];
    }
  }

  lemma ProcessOfMonotone(m: Mesh, a: nat, b: nat)
    requires Valid(m) && a <= b < Domains(m)
    ensures 0 <= ProcessOf(m, a) <= ProcessOf(m, b) < Processes(m)
  {
    ProcessOfDomain(m, a);
    ProcessOfDomain(m, b);
    var r := LowerBound(m.first, b + 1);
    assert b + 1 <= m.first[r];
    assert a + 1 <= m.first[r];
  }

  /** Process `q` holds one of the first `k` domains. */
  ghost predicate MetBefore(m: Mesh, domains: seq<nat>, q: nat, k: nat)
    requires k <= |domains|
  {
    exists j :: 0 <= j < k && Holds(m, q, domains[j])
  }

  /** Domains are sorted, so process `q` is met first where the owning process changes to `q`. */
  lemma MetAtChange(m: Mesh, i: nat, q: nat, k: nat)
    requires Valid(m) && i < |m.intervals| && 0 < k < |m.intervals[i].domains|
    ensures var domains := m.intervals[i].domains;
      var from, to := ProcessOf(m, domains[k - 1]), ProcessOf(m, domains[k]);
      0 <= from <= to < Processes(m) &&
      (MetBefore(m, domains, q, k + 1) <==> MetBefore(m, domains, q, k) || q == to) &&
      (from < to ==> !MetBefore(m, domains, to, k)) && (from == to ==> MetBefore(m, domains, to, k))
  {
    var domains := m.intervals[i].domains;
    assert ValidInterval(m, i);
    forall j | 0 <= j <= k
      ensures domains[j] <= domains[k] < Domains(m)
    {
      assert domains[k] in domains;
    }
    assert domains[k - 1] < domains[k];
    ProcessOfMonotone(m, domains[k - 1], domains[k]);
    ProcessOfDomain(m, domains[k - 1]);
    ProcessOfDomain(m, domains[k]);
    assert Holds(m, ProcessOf(m, domains[k]), domains[k]);
    assert Holds(m, ProcessOf(m, domains[k - 1]), domains[k - 1]);
    forall j | 0 <= j < k
      ensures ProcessOf(m, domains[j]) <= ProcessOf(m, domains[k - 1])
      ensures forall r: nat :: Holds(m, r, domains[j]) <==> r == ProcessOf(m, domains[j])
    {
      assert domains[j] <= domains[k - 1];
      ProcessOfMonotone(m, domains[j], domains[k - 1]);
      ProcessOfDomain(m, domains[j]);
    }
  }

  /** The domains of an owned interval up to the last local one are all local. */
  lemma LocalDomainsComeFirst(m: Mesh, p: nat, i: nat)
    requires Valid(m) && p < Processes(m) && Owns(m, p, i)
    ensures var domains := m.intervals[i].domains; var last := LowerBound(domains, m.first[p + 1]) - 1;
      0 <= last < |domains| && Holds(m, p, domains[last]) &&
      ProcessOf(m, domains[last]) == p &&
      forall q: nat, j :: 0 <= j <= last && Holds(m, q, domains[j]) ==> q == p
  {
    var domains := m.intervals[i].domains;
    assert ValidInterval(m, i);
    var last := LowerBound(domains, m.first[p + 1]) - 1;
    forall j | 0 <= j <= last
      ensures forall q: nat :: Holds(m, q, domains[j]) ==> q == p
    {
      assert domains[0] <= domains[j];
      assert domains[j] in domains;
      ProcessOfDomain(m, domains[j]);
      assert Holds(m, p, domains[j]);
    }
    ProcessOfDomain(m, domains[last]);
  }

  /** After the walk reached `k`, the offset is in the buffers of all processes met so far. */
  ghost predicate PushedUpTo(m: Mesh, p: nat, domains: seq<nat>, k: nat, offset: int, before: seq<seq<int>>, after: seq<seq<int>>)
    requires k <= |domains|
  {
    |after| == |before| && p < |after| && after[p] == before[p] &&
    forall q :: 0 <= q < |after| && q != p ==>
      after[q] == before[q] + if MetBefore(m, domains, q, k) then [offset] else []
  }

  lemma PushedStep(m: Mesh, p: nat, i: nat, k: nat, offset: int, before: seq<seq<int>>, s: seq<seq<int>>)
    requires Valid(m) && |before| == Processes(m) && Owns(m, p, i) && 0 < k < |m.intervals[i].domains|
    requires PushedUpTo(m, p, m.intervals[i].domains, k, offset, before, s)
    requires p <= ProcessOf(m, m.intervals[i].domains[k - 1])
    ensures var domains := m.intervals[i].domains;
      var from, to := ProcessOf(m, domains[k - 1]), ProcessOf(m, domains[k]);
      p <= from <= to < |s| &&
      PushedUpTo(m, p, domains, k + 1, offset, before, if from < to then s[to := s[to] + [offset]] else s)
  {
    var domains := m.intervals[i].domains;
    forall q: nat | q < |s|
      ensures MetBefore(m, domains, q, k + 1) <==> MetBefore(m, domains, q, k) || q == ProcessOf(m, domains[k])
    {
      MetAtChange(m, i, q, k);
    }
    MetAtChange(m, i, p, k);
  }

  /**
   * The walk over the domains of one owned interval: its running offset goes once into the
   * buffer of every other process that has one of its domains.
   */
  method PushOffset(m: Mesh, p: nat, i: nat, offset: int, buffers: seq<seq<int>>) returns (s: seq<seq<int>>)
    requires Valid(m) && p < Processes(m) && Owns(m, p, i) && |buffers| == Processes(m)
    ensures PushedUpTo(m, p, m.intervals[i].domains, |m.intervals[i].domains|, offset, buffers, s)
  {
    var domains := m.intervals[i].domains;
    LocalDomainsComeFirst(m, p, i);
    var last := LowerBound(domains, m.first[p + 1]) - 1;
    var begin := last;
    s := buffers;
    for n := last to |domains|
      invariant begin == if n == last then last else n - 1
      invariant p <= ProcessOf(m, domains[begin])
      invariant PushedUpTo(m, p, domains, begin + 1, offset, buffers, s)
    {
      NextIsCurrent(m, i, begin, n);
      var next := begin + LowerBound(domains[begin..], domains[n]);
      if begin < next {
        PushedStep(m, p, i, next, offset, buffers, s);
      }
      if ProcessOf(m, domains[begin]) < ProcessOf(m, domains[next]) {
        var target := ProcessOf(m, domains[next]);
        s := s[target := s[target] + [offset]];
      }
      begin := next;
    }
  }

  lemma NextIsCurrent(m: Mesh, i: nat, begin: nat, n: nat)
    requires Valid(m) && i < |m.intervals| && begin <= n < |m.intervals[i].domains| && n <= begin + 1
    ensures LowerBound(m.intervals[i].domains[begin..], m.intervals[i].domains[n]) == n - begin
  {
    assert ValidInterval(m, i);
  }

  lemma MetAreSeen(m: Mesh, q: nat, i: nat)
    requires i < |m.intervals|
    ensures MetBefore(m, m.intervals[i].domains, q, |m.intervals[i].domains|) <==> Sees(m, q, i)
  {
    if Sees(m, q, i) {
      var d :| d in m.intervals[i].domains && Holds(m, q, d);
      assert Holds(m, q, m.intervals[i].domains[IndexOf(m.intervals[i].domains, d)]);
    }
  }

  lemma ListedIsSeen(m: Mesh, p: nat, k: nat)
    requires Valid(m) && p < Processes(m) && k < |m.order[p]|
    ensures Sees(m, p, m.order[p][k]) && m.order[p][..k + 1][..k] == m.order[p][..k]
  {
    assert ListsItsIntervals(m, p);
    assert m.order[p][k] in m.order[p];
  }

  lemma OwnerIsLowest(m: Mesh, q: nat, i: nat)
    requires Valid(m) && q < Processes(m) && Sees(m, q, i)
    ensures 0 <= Owner(m, i) <= q
  {
    var domains := m.intervals[i].domains;
    assert ValidInterval(m, i);
    var d :| d in domains && Holds(m, q, d);
    assert domains[0] <= d;
    ProcessOfMonotone(m, domains[0], d);
    ProcessOfDomain(m, d);
  }

  /** `table[i]` is the global offset of interval `i`. */
  ghost predicate IsOffsetTable(m: Mesh, sizes: seq<nat>, table: seq<int>)
    requires Valid(m) && |sizes| == |m.intervals|
  {
    |table| == |m.intervals| &&
    forall i: nat {:trigger GlobalOffset(m, sizes, i)} :: i < |table| ==> table[i] == GlobalOffset(m, sizes, i)
  }

  /** Buffer `r` holds, in the order in which `q` reads it, the global offsets of what `p` owns. */
  ghost predicate Delivered(m: Mesh, table: seq<int>, p: nat, q: nat, r: seq<int>)
    requires q < Processes(m)
  {
    var shared := SharedIds(m, p, q, m.order[q]);
    |r| == |shared| && forall j :: 0 <= j < |r| ==> shared[j] < |table| && r[j] == table[shared[j]]
  }

  lemma SentAreDelivered(m: Mesh, sizes: seq<nat>, table: seq<int>, p: nat, q: nat, r: seq<int>)
    requires Valid(m) && |sizes| == |m.intervals| && IsOffsetTable(m, sizes, table)
    requires p < Processes(m) && q < Processes(m)
    requires var sent := SentOffsets(m, sizes, p, q, |m.order[p]|);
      |r| == |sent| && forall j :: 0 <= j < |r| ==> r[j] == sent[j] + Prefix(ProcessSizes(m, sizes), p)
    ensures Delivered(m, table, p, q, r)
  {
    SentOffsetsOfShared(m, sizes, p, q, |m.order[p]|);
    assert m.order[p][..|m.order[p]|] == m.order[p];
    assert ConsistentOrder(m, p, q);
    var shared := SharedIds(m, p, q, m.order[p]);
    SharedAreOwned(m, p, q, m.order[p]);
    forall j | 0 <= j < |shared|
      ensures shared[j] < |table| && r[j] == table[shared[j]]
    {
      OwnerOwns(m, shared[j]);
      var offset := GlobalOffset(m, sizes, shared[j]);
    }
  }

  lemma {:induction false} SharedAreOwned(m: Mesh, p: nat, q: nat, ids: seq<nat>)
    ensures forall j :: 0 <= j < |SharedIds(m, p, q, ids)| ==> Owns(m, p, SharedIds(m, p, q, ids)[j])
  {
    if ids != [] {
      SharedAreOwned(m, p, q, ids[..|ids| - 1]);
    }
  }

  /** The first loop on process `p`: buffers for the sharers, sizes to receive, own total. */
  method CountOwned(m: Mesh, sizes: seq<nat>, p: nat)
    returns (sent: seq<seq<int>>, expected: seq<nat>, offset: nat)
    requires Valid(m) && |sizes| == |m.intervals| && p < Processes(m)
    ensures |sent| == |expected| == Processes(m)
    ensures offset == ProcessSizes(m, sizes)[p]
    ensures forall q :: 0 <= q < Processes(m) && q != p ==>
      sent[q] == SentOffsets(m, sizes, p, q, |m.order[p]|) && expected[q] == |SharedIds(m, q, p, m.order[p])|
  {
    hide Valid, Sees, ProcessOf;
    var ids := m.order[p];
    sent, expected, offset := seq(Processes(m), _ => []), seq(Processes(m), _ => 0), 0;
    for k := 0 to |ids|
      invariant |sent| == |expected| == Processes(m)
      invariant offset == Prefix(LocalSizes(m, sizes, p), k)
      invariant forall q :: 0 <= q < Processes(m) && q != p ==>
        sent[q] == SentOffsets(m, sizes, p, q, k) && expected[q] == |SharedIds(m, q, p, ids[..k])|
    {
      var i := ids[k];
      ListedIsSeen(m, p, k);
      OwnerOwns(m, i);
      if Owns(m, p, i) {
        forall q: nat | q < Processes(m)
          ensures MetBefore(m, m.intervals[i].domains, q, |m.intervals[i].domains|) <==> Sees(m, q, i)
        {
          MetAreSeen(m, q, i);
        }
        sent := PushOffset(m, p, i, offset, sent);
        offset := offset + sizes[i];
      } else {
        expected := expected[Owner(m, i) := expected[Owner(m, i)] + 1];
      }
    }
    assert ids[..|ids|] == ids;
  }

  lemma OwnedOffset(m: Mesh, sizes: seq<nat>, table: seq<int>, p: nat, k: nat)
    requires Valid(m) && |sizes| == |m.intervals| && IsOffsetTable(m, sizes, table)
    requires p < Processes(m) && k < |m.order[p]| && Owns(m, p, m.order[p][k])
    ensures table[m.order[p][k]] ==
      Prefix(ProcessSizes(m, sizes), p) + Prefix(LocalSizes(m, sizes, p), k)
  {
    assert ListsItsIntervals(m, p);
    OwnerOwns(m, m.order[p][k]);
    IndexOfDistinct(m.order[p], k);
    var offset := GlobalOffset(m, sizes, m.order[p][k]);
  }

  /** How many offsets of process `p` have been read before the k-th interval of process `q`. */
  ghost function ReadBefore(m: Mesh, p: nat, q: nat, k: nat): nat
    requires q < Processes(m) && k <= |m.order[q]|
  {
    |SharedIds(m, p, q, m.order[q][..k])|
  }

  lemma ReadNext(m: Mesh, table: seq<int>, p: nat, q: nat, k: nat, r: seq<int>)
    requires Valid(m) && p < Processes(m) && q < Processes(m) && k < |m.order[q]|
    requires Delivered(m, table, p, q, r)
    ensures ReadBefore(m, p, q, k + 1) == ReadBefore(m, p, q, k) + if Owns(m, p, m.order[q][k]) then 1 else 0
    ensures Owns(m, p, m.order[q][k]) ==>
      ReadBefore(m, p, q, k) < |r| && m.order[q][k] < |table| && r[ReadBefore(m, p, q, k)] == table[m.order[q][k]]
  {
    ListedIsSeen(m, q, k);
    if Owns(m, p, m.order[q][k]) {
      SharedPosition(m, p, q, m.order[q], k);
    }
  }

  /** The read positions in the buffers of the lower processes before the k-th interval. */
  ghost predicate CursorsAt(m: Mesh, q: nat, k: nat, cursor: seq<nat>)
    requires q < Processes(m) && k <= |m.order[q]|
  {
    |cursor| == Processes(m) && forall p :: 0 <= p < q ==> cursor[p] == ReadBefore(m, p, q, k)
  }

  /** The next interval moves at most one cursor, that of its owner, which stands at its offset. */
  lemma CursorStep(m: Mesh, table: seq<int>, q: nat, k: nat, cursor: seq<nat>, received: seq<seq<int>>)
    requires Valid(m) && q < Processes(m) && k < |m.order[q]| && CursorsAt(m, q, k, cursor)
    requires ReceivesItsOffsets(m, table, q, received)
    ensures m.order[q][k] < |m.intervals| && |received| == Processes(m)
    ensures Owns(m, q, m.order[q][k]) ==> CursorsAt(m, q, k + 1, cursor)
    ensures !Owns(m, q, m.order[q][k]) ==> (var p := Owner(m, m.order[q][k]);
      0 <= p < q && cursor[p] < |received[p]| && m.order[q][k] < |table| && received[p][cursor[p]] == table[m.order[q][k]] &&
      CursorsAt(m, q, k + 1, cursor[p := cursor[p] + 1]))
  {
    var i := m.order[q][k];
    ListedIsSeen(m, q, k);
    OwnerIsLowest(m, q, i);
    OwnerOwns(m, i);
    hide Valid, Sees, ProcessOf, ReadBefore, Owner;
    forall p: nat | p < q
      ensures ReadBefore(m, p, q, k + 1) == ReadBefore(m, p, q, k) + if p == Owner(m, i) then 1 else 0
    {
      assert Delivered(m, table, p, q, received[p]);
      ReadNext(m, table, p, q, k, received[p]);
    }
    if !Owns(m, q, i) {
      assert Delivered(m, table, Owner(m, i), q, received[Owner(m, i)]);
      ReadNext(m, table, Owner(m, i), q, k, received[Owner(m, i)]);
    }
  }

  lemma NothingRead(m: Mesh, q: nat, cursor: seq<nat>)
    requires q < Processes(m) && |cursor| == Processes(m) && forall p :: 0 <= p < |cursor| ==> cursor[p] == 0
    ensures CursorsAt(m, q, 0, cursor)
  {
    assert m.order[q][..0] == [];
  }

  /** The second loop on process `q`: own intervals are numbered on, the others read from buffers. */
  method AssignOffsets(m: Mesh, sizes: seq<nat>, ghost table: seq<int>, q: nat, start: nat, received: seq<seq<int>>)
    returns (offsets: seq<int>, offset: nat)
    requires Valid(m) && |sizes| == |m.intervals| && IsOffsetTable(m, sizes, table)
    requires q < Processes(m) && start == Prefix(ProcessSizes(m, sizes), q)
    requires ReceivesItsOffsets(m, table, q, received)
    ensures HoldsOffsets(m, table, q, offsets)
    ensures offset == Prefix(ProcessSizes(m, sizes), q + 1)
  {
    hide Valid, Sees, Owner, Owns, ReadBefore, ReceivesItsOffsets;
    var ids := m.order[q];
    var cursor: seq<nat> := seq(Processes(m), _ => 0);
    NothingRead(m, q, cursor);
    offsets, offset := [], start;
    for k := 0 to |ids|
      invariant |offsets| == k && CursorsAt(m, q, k, cursor)
      invariant offset == start + Prefix(LocalSizes(m, sizes, q), k)
      invariant forall j :: 0 <= j < k ==> ids[j] < |table| && offsets[j] == table[ids[j]]
    {
      CursorStep(m, table, q, k, cursor, received);
      var i := ids[k];
      if Owns(m, q, i) {
        OwnedOffset(m, sizes, table, q, k);
        offsets := offsets + [offset];
        offset := offset + sizes[i];
      } else {
        var p := Owner(m, i);
        offsets := offsets + [received[p][cursor[p]]];
        cursor := cursor[p := cursor[p] + 1];
      }
    }
  }

  /** The first loop on all processes. */
  method CountAll(m: Mesh, sizes: seq<nat>)
    returns (sent: seq<seq<seq<int>>>, expected: seq<seq<nat>>, local: seq<nat>)
    requires Valid(m) && |sizes| == |m.intervals|
    ensures |sent| == |expected| == Processes(m) && local == ProcessSizes(m, sizes)
    ensures forall p :: 0 <= p < Processes(m) ==> |sent[p]| == |expected[p]| == Processes(m)
    ensures forall p, q :: 0 <= p < Processes(m) && 0 <= q < Processes(m) && q != p ==>
      sent[p][q] == SentOffsets(m, sizes, p, q, |m.order[p]|) && expected[p][q] == |SharedIds(m, q, p, m.order[p])|
  {
    sent, expected, local := [], [], [];
    for p := 0 to Processes(m)
      invariant |sent| == |expected| == |local| == p
      invariant forall r :: 0 <= r < p ==> |sent[r]| == |expected[r]| == Processes(m)
      invariant forall r :: 0 <= r < p ==> local[r] == ProcessSizes(m, sizes)[r]
      invariant forall r, q :: 0 <= r < p && 0 <= q < Processes(m) && q != r ==>
        sent[r][q] == SentOffsets(m, sizes, r, q, |m.order[r]|) && expected[r][q] == |SharedIds(m, q, r, m.order[r])|
    {
      var s, e, o := CountOwned(m, sizes, p);
      sent, expected, local := sent + [s], expected + [e], local + [o];
    }
  }

  /** Every process moves the offsets it sends by its own start. */
  method ShiftByStart(sent: seq<seq<seq<int>>>, starts: seq<nat>) returns (shifted: seq<seq<seq<int>>>)
    requires |starts| == |sent| && forall p :: 0 <= p < |sent| ==> |sent[p]| == |sent|
    ensures |shifted| == |sent|
    ensures forall p :: 0 <= p < |sent| ==> |shifted[p]| == |sent|
    ensures forall p, q :: 0 <= p < |sent| && 0 <= q < |sent| ==> |shifted[p][q]| == |sent[p][q]|
    ensures forall p, q, j :: 0 <= p < |sent| && 0 <= q < |sent| && 0 <= j < |sent[p][q]| ==>
      shifted[p][q][j] == sent[p][q][j] + starts[p]
  {
    shifted := seq(|sent|, p requires 0 <= p < |sent| =>
      seq(|sent|, q requires 0 <= q < |sent| =>
        seq(|sent[p][q]|, j requires 0 <= j < |sent[p][q]| => sent[p][q][j] + starts[p])));
  }

  /** What all processes sharing an interval must end up with. */
  ghost function OffsetTable(m: Mesh, sizes: seq<nat>): (table: seq<int>)
    requires Valid(m) && |sizes| == |m.intervals|
    ensures IsOffsetTable(m, sizes, table)
  {
    seq(|m.intervals|, i requires 0 <= i < |m.intervals| => GlobalOffset(m, sizes, i))
  }

  ghost predicate ReceivesItsOffsets(m: Mesh, table: seq<int>, q: nat, received: seq<seq<int>>)
    requires q < Processes(m)
  {
    |received| == Processes(m) && forall p :: 0 <= p < q ==> Delivered(m, table, p, q, received[p])
  }

  /** The first loop and the exchange: every process receives what the owners below it computed. */
  method ExchangeOffsets(m: Mesh, sizes: seq<nat>, ghost table: seq<int>)
    returns (starts: seq<nat>, received: seq<seq<seq<int>>>)
    requires Valid(m) && |sizes| == |m.intervals| && IsOffsetTable(m, sizes, table)
    ensures |starts| == |received| == Processes(m)
    ensures forall q :: 0 <= q < Processes(m) ==> starts[q] == Prefix(ProcessSizes(m, sizes), q)
    ensures forall q :: 0 <= q < Processes(m) ==> ReceivesItsOffsets(m, table, q, received[q])
  {
    var sent, expected, local := CountAll(m, sizes);
    starts := Communication.Exscan(local);
    var shifted := ShiftByStart(sent, starts);
    forall p, q | 0 <= p < q < Processes(m)
      ensures expected[q][p] == |shifted[p][q]| && Delivered(m, table, p, q, shifted[p][q])
    {
      SentAreDelivered(m, sizes, table, p, q, shifted[p][q]);
    }
    received := Communication.ReceiveLowerKnownSize(shifted, expected);
    forall q | 0 <= q < Processes(m)
      ensures ReceivesItsOffsets(m, table, q, received[q])
    {
      forall p | 0 <= p < q
        ensures Delivered(m, table, p, q, received[q][p])
      {
        assert received[q][p] == shifted[p][q];
      }
    }
  }

  ghost predicate HoldsOffsets(m: Mesh, table: seq<int>, p: nat, offsets: seq<int>)
    requires p < Processes(m)
  {
    |offsets| == |m.order[p]| &&
    forall k :: 0 <= k < |offsets| ==> m.order[p][k] < |table| && offsets[k] == table[m.order[p][k]]
  }

  /**
   * All processes sharing an interval end up with its one global offset, and all of them
   * return the same total.
   */
  method ComputeIntervalsOffsets(m: Mesh, sizes: seq<nat>) returns (offsets: seq<seq<int>>, totals: seq<int>)
    requires Valid(m) && |sizes| == |m.intervals|
    ensures |offsets| == |totals| == Processes(m)
    ensures forall p :: 0 <= p < Processes(m) ==> HoldsOffsets(m, OffsetTable(m, sizes), p, offsets[p])
    ensures forall p :: 0 <= p < Processes(m) ==> totals[p] == Total(m, sizes)
  {
    ghost var table := OffsetTable(m, sizes);
    var starts, received := ExchangeOffsets(m, sizes, table);
    offsets := [];
    var last := 0;
    for q := 0 to Processes(m)
      invariant |offsets| == q
      invariant forall p :: 0 <= p < q ==> HoldsOffsets(m, table, p, offsets[p])
      invariant last == Prefix(ProcessSizes(m, sizes), q)
    {
      assert ReceivesItsOffsets(m, table, q, received[q]);
      var o, end := AssignOffsets(m, sizes, table, q, starts[q], received[q]);
      offsets, last := offsets + [o], end;
    }
    totals := seq(Processes(m), _ => last);
  }

  /** The range of an interval lies inside the range of its owner. */
  lemma {:induction false} RangeOfInterval(m: Mesh, sizes: seq<nat>, i: nat)
    requires Valid(m) && |sizes| == |m.intervals| && i < |m.intervals|
    ensures 0 <= Owner(m, i) < Processes(m) && i in m.order[Owner(m, i)]
    ensures var p, k := Owner(m, i), IndexOf(m.order[Owner(m, i)], i);
      GlobalOffset(m, sizes, i) == Prefix(ProcessSizes(m, sizes), p) + Prefix(LocalSizes(m, sizes, p), k) &&
      GlobalOffset(m, sizes, i) + sizes[i] == Prefix(ProcessSizes(m, sizes), p) + Prefix(LocalSizes(m, sizes, p), k + 1)
    ensures Prefix(ProcessSizes(m, sizes), Owner(m, i)) <= GlobalOffset(m, sizes, i)
    ensures GlobalOffset(m, sizes, i) + sizes[i] <= Prefix(ProcessSizes(m, sizes), Owner(m, i) + 1) <= Total(m, sizes)
  {
    hide Valid, Sees;
    OwnerOwns(m, i);
    var p := Owner(m, i);
    var k := IndexOf(m.order[p], i);
    PrefixMonotone(LocalSizes(m, sizes, p), k + 1, |m.order[p]|);
    PrefixMonotone(ProcessSizes(m, sizes), p + 1, Processes(m));
  }

  /** The row ranges of distinct intervals do not overlap. */
  lemma {:induction false} RangesDisjoint(m: Mesh, sizes: seq<nat>, i: nat, j: nat)
    requires Valid(m) && |sizes| == |m.intervals| && i < |m.intervals| && j < |m.intervals| && i != j
    ensures GlobalOffset(m, sizes, i) + sizes[i] <= GlobalOffset(m, sizes, j)
         || GlobalOffset(m, sizes, j) + sizes[j] <= GlobalOffset(m, sizes, i)
  {
    hide Valid, Owner, Prefix, GlobalOffset;
    RangeOfInterval(m, sizes, i);
    RangeOfInterval(m, sizes, j);
    var p, q := Owner(m, i), Owner(m, j);
    if p < q {
      PrefixMonotone(ProcessSizes(m, sizes), p + 1, q);
    } else if q < p {
      PrefixMonotone(ProcessSizes(m, sizes), q + 1, p);
    } else {
      var k, l := IndexOf(m.order[p], i), IndexOf(m.order[p], j);
      if k < l {
        PrefixMonotone(LocalSizes(m, sizes, p), k + 1, l);
      } else {
        PrefixMonotone(LocalSizes(m, sizes, p), l + 1, k);
      }
    }
  }

  /** The row ranges cover everything up to the total: with `RangesDisjoint`, they tile it. */
  lemma RangesCover(m: Mesh, sizes: seq<nat>, x: nat) returns (i: nat)
    requires Valid(m) && |sizes| == |m.intervals| && x < Total(m, sizes)
    ensures i < |m.intervals| && GlobalOffset(m, sizes, i) <= x < GlobalOffset(m, sizes, i) + sizes[i]
  {
    var p := PrefixCovers(ProcessSizes(m, sizes), x, Processes(m));
    var k := PrefixCovers(LocalSizes(m, sizes, p), x - Prefix(ProcessSizes(m, sizes), p), |m.order[p]|);
    i := m.order[p][k];
    assert ListsItsIntervals(m, p);
    OwnerOwns(m, i);
    IndexOfDistinct(m.order[p], k);
    RangeOfInterval(m, sizes, i);
  }
}
