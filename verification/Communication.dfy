/** What the collective calls deliver, for all processes at once. */
module Communication {
  import opened Basis

  /** Exclusive scan: every process gets the sum of the lower ranks, and the total. */
  function Exscan(values: seq<nat>): seq<nat> {
    seq(|values|, p requires 0 <= p < |values| => Prefix(values, p))
  }

  /**
   * `receiveLowerKnownSize`: process `q` receives from every lower process `p` what `p` put
   * into its buffer for `q`. The receiver capacity its buffers before the call, so their
   * sizes must already agree with what is sent.
   */
  method ReceiveLowerKnownSize(sent: seq<seq<seq<int>>>, capacity: seq<seq<nat>>) returns (received: seq<seq<seq<int>>>)
    requires |capacity| == |sent|
    requires forall p :: 0 <= p < |sent| ==> |sent[p]| == |sent| && |capacity[p]| == |sent|
    requires forall p, q :: 0 <= p < q < |sent| ==> capacity[q][p] == |sent[p][q]|
    ensures |received| == |sent|
    ensures forall q :: 0 <= q < |sent| ==> |received[q]| == |sent|
    ensures forall p, q :: 0 <= p < q < |sent| ==> received[q][p] == sent[p][q]
  {
    received := seq(|sent|, q requires 0 <= q < |sent| =>
      seq(|sent|, p requires 0 <= p < |sent| => if p < q then sent[p][q] else []));
  }
}
