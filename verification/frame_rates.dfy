/** Nearest-match frame-rate selection, as the `frame_rate` setter performs it. */
module FrameRates {
  import opened Results
  import opened Reals
  import opened Lists

  /** Python's `min` over a non-empty list of distances, scanning left to right. */
  function MinOf(xs: seq<real>): (m: real)
    requires |xs| > 0
    ensures m in xs
    ensures forall i :: 0 <= i < |xs| ==> m <= xs[i]
  {
    if |xs| == 1 then xs[0]
    else
      var front := xs[..|xs| - 1];
      var m := MinOf(front);
      assert forall i :: 0 <= i < |front| ==> front[i] == xs[i];
      if xs[|xs| - 1] < m then xs[|xs| - 1] else m
  }

  /** The list `[abs(r - target) for r in rates]`. */
  function Distances(rates: seq<real>, target: real): (ds: seq<real>)
    ensures |ds| == |rates|
    ensures forall i :: 0 <= i < |rates| ==> ds[i] == Abs(rates[i] - target)
  {
    seq(|rates|, i requires 0 <= i < |rates| => Abs(rates[i] - target))
  }

  /** `k` is a position of a rate no farther from `target` than any other
      rate and strictly nearer than every earlier one. */
  predicate IsNearestFirst(rates: seq<real>, target: real, k: int)
  {
    && 0 <= k < |rates|
    && (forall j :: 0 <= j < |rates| ==> Abs(rates[k] - target) <= Abs(rates[j] - target))
    && (forall j :: 0 <= j < k ==> Abs(rates[j] - target) > Abs(rates[k] - target))
  }

  /** The setter's decision: which supported rate it applies, at which
      position, and whether it warns that the request was not available. */
  datatype RateChoice = RateChoice(index: nat, selected: real, warned: bool)

  /** `rates.index(min(distances))`; `None` stands for the ValueError that
      `min` raises on an empty rate list. */
  function ChooseFrameRate(rates: seq<real>, requested: real): (r: Option<RateChoice>)
    ensures r.None? <==> |rates| == 0
    ensures r.Some? ==> IsNearestFirst(rates, requested, r.value.index) && r.value.selected == rates[r.value.index]
    ensures r.Some? ==> (r.value.warned <==> r.value.selected != requested)
  {
    if |rates| == 0 then None
    else
      var ds := Distances(rates, requested);
      var k := IndexOf(ds, MinOf(ds));
      assert forall j :: 0 <= j < k ==> ds[..k][j] == ds[j];
      Some(RateChoice(k, rates[k], rates[k] != requested))
  }

  /** At most one position is the nearest-first one: the tie-break decides. */
  lemma NearestFirstUnique(rates: seq<real>, target: real, k1: int, k2: int)
    requires IsNearestFirst(rates, target, k1) && IsNearestFirst(rates, target, k2)
    ensures k1 == k2
  {
    assert Abs(rates[k1] - target) == Abs(rates[k2] - target);
  }

  /** A supported rate is applied exactly, and no warning is given. */
  lemma ExactRateSelected(rates: seq<real>, requested: real)
    requires requested in rates
    ensures ChooseFrameRate(rates, requested).Some?
    ensures ChooseFrameRate(rates, requested).value.selected == requested
    ensures !ChooseFrameRate(rates, requested).value.warned
  {
    var i :| 0 <= i < |rates| && rates[i] == requested;
    var c := ChooseFrameRate(rates, requested).value;
    assert Abs(rates[i] - requested) == 0.0;
    assert Abs(rates[c.index] - requested) <= 0.0;
  }
}
