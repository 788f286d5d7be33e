/** The equal-split check on an experiment's variation weights. */
module TrafficAllocation {
  import opened Wrappers
  import opened Optimizely

  /** All of an experiment's traffic, in basis points. */
  const TotalTraffic: nat := 10000

  /** `remainder`: `None` stands for `false`, the case where `n` equal
      integer shares make up the total; otherwise the weight left for the one
      variation that absorbs what `n - 1` truncated shares leave over. */
  function Remainder(total: nat, n: nat): (r: Option<int>)
    requires n > 0
    ensures r.None? <==> total % n == 0
    ensures r.Some? ==> r.value == total / n + total % n && r.value > 0
  {
    var split := total / n;
    if split * n == total then None
    else
      assert split * (n - 1) == split * n - split;
      Some(total - split * (n - 1))
  }

  /** `trafficAllocation`: the weights an equal split allows. The source
      keeps the remainder only when it is truthy; it is never 0. */
  function AllowedWeights(total: nat, n: nat): (allowed: seq<int>)
    requires n > 0
    ensures 1 <= |allowed| <= 2 && allowed[0] == total / n
    ensures |allowed| == 2 <==> total % n != 0
    ensures |allowed| == 2 ==> allowed[1] == total - (total / n) * (n - 1)
  {
    var split := total / n;
    match Remainder(total, n)
    case None => [split]
    case Some(rem) => if rem != 0 then [split, rem] else [split]
  }

  /** `checkTrafficAllocation(total, variants)`: every variation carries one
      of the allowed weights. An empty list passes, as `every` on an empty
      array does. Neither the sum of the weights nor how many variations
      carry the remainder is checked. */
  function CheckTrafficAllocation(total: nat, variants: seq<Variation>): (r: bool)
    ensures |variants| == 0 ==> r
    ensures |variants| > 0 && total % |variants| == 0 ==>
      (r <==> forall i :: 0 <= i < |variants| ==> variants[i].weight == total / |variants|)
    ensures |variants| > 0 && total % |variants| != 0 ==>
      (r <==> forall i :: 0 <= i < |variants| ==>
                variants[i].weight == total / |variants| ||
                variants[i].weight == total - (total / |variants|) * (|variants| - 1))
  {
    if |variants| == 0 then true
    else
      var n := |variants|;
      var allowed := AllowedWeights(total, n);
      forall v <- variants :: v.weight == allowed[0] || (|allowed| > 1 && v.weight == allowed[1])
  }

  /** The sum of the variation weights. */
  function TotalWeight(variants: seq<Variation>): int
  {
    if variants == [] then 0 else TotalWeight(variants[..|variants| - 1]) + variants[|variants| - 1].weight
  }

  lemma {:induction false} UniformTotal(variants: seq<Variation>, w: int)
    requires forall i :: 0 <= i < |variants| ==> variants[i].weight == w
    ensures TotalWeight(variants) == |variants| * w
  {
    if variants != [] {
      UniformTotal(variants[..|variants| - 1], w);
    }
  }

  /** When the total splits evenly, an accepted allocation adds up to the
      total. */
  lemma EvenSplitAddsUp(total: nat, variants: seq<Variation>)
    requires |variants| > 0 && total % |variants| == 0
    requires CheckTrafficAllocation(total, variants)
    ensures TotalWeight(variants) == total
  {
    UniformTotal(variants, total / |variants|);
  }

  /** Three variations: the share is 3333 and the remainder 3334, and each
      weight is tested on its own, so an allocation adding up to 10002
      passes while 5000/3000/2000 fails. */
  lemma ThreeWaySplits()
    ensures CheckTrafficAllocation(TotalTraffic, [Variation(3334, None), Variation(3333, None), Variation(3333, None)])
    ensures CheckTrafficAllocation(TotalTraffic, [Variation(3334, None), Variation(3334, None), Variation(3334, None)])
    ensures TotalWeight([Variation(3334, None), Variation(3334, None), Variation(3334, None)]) == 10002
    ensures !CheckTrafficAllocation(TotalTraffic, [Variation(5000, None), Variation(3000, None), Variation(2000, None)])
  {
    var over := [Variation(3334, None), Variation(3334, None), Variation(3334, None)];
    UniformTotal(over, 3334);
    var bad := [Variation(5000, None), Variation(3000, None), Variation(2000, None)];
    assert bad[1].weight != 3333 && bad[1].weight != 3334;
  }
}
