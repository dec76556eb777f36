/** The volume-tiered gate fee: an early-exit scan over tiers sorted by volume. */
module FeeSchedule {
  import opened Options
  import opened Tokens

  datatype FeeTier = FeeTier(minVolume: nat, fee: int)

  const MAX_FEE_TIERS := 10
  const MAX_GATE_FEE_TIER := 1_000_000_000

  /** What `set_fee_tier_schedule` accepts. */
  predicate ValidSchedule(tiers: seq<FeeTier>) {
    && |tiers| <= MAX_FEE_TIERS
    && (forall i :: 0 <= i < |tiers| ==> 0 <= tiers[i].fee <= MAX_GATE_FEE_TIER && tiers[i].minVolume <= U32_MAX)
    && (forall i, j :: 0 <= i < j < |tiers| ==> tiers[i].minVolume < tiers[j].minVolume)
  }

  /** The loop of `set_fee_tier_schedule`: it accepts exactly the valid schedules. */
  method CheckSchedule(tiers: seq<FeeTier>) returns (ok: bool)
    requires forall i :: 0 <= i < |tiers| ==> tiers[i].minVolume <= U32_MAX
    ensures ok <==> ValidSchedule(tiers)
    ensures ok <==> && |tiers| <= 10 && (forall i :: 0 <= i < |tiers| ==> 0 <= tiers[i].fee <= 1_000_000_000)
                    && (forall i :: 0 < i < |tiers| ==> tiers[i - 1].minVolume < tiers[i].minVolume)
  {
    if |tiers| > MAX_FEE_TIERS {
      return false;
    }
    var prev: Option<nat> := None;
    for i := 0 to |tiers|
      invariant ValidSchedule(tiers[..i])
      invariant prev == if i == 0 then None else Some(tiers[i - 1].minVolume)
    {
      var tier := tiers[i];
      if tier.fee < 0 || tier.fee > MAX_GATE_FEE_TIER {
        return false;
      }
      if prev.Some? && tier.minVolume <= prev.value {
        return false;
      }
      prev := Some(tier.minVolume);
    }
    assert tiers[..|tiers|] == tiers;
    ok := true;
  }

  /** The fee of the last tier whose threshold `volume` reaches, 0 if it reaches none. */
  function FeeAt(tiers: seq<FeeTier>, volume: nat): int {
    if tiers == [] then 0
    else
      var last := tiers[|tiers| - 1];
      if volume >= last.minVolume then last.fee else FeeAt(tiers[..|tiers| - 1], volume)
  }

  lemma {:induction false} FeeAtPrefix(tiers: seq<FeeTier>, k: nat, volume: nat)
    requires ValidSchedule(tiers) && k <= |tiers|
    requires k < |tiers| ==> volume < tiers[k].minVolume
    ensures FeeAt(tiers, volume) == FeeAt(tiers[..k], volume)
    decreases |tiers|
  {
    if k < |tiers| {
      var n := |tiers| - 1;
      assert tiers[..n][..k] == tiers[..k];
      FeeAtPrefix(tiers[..n], k, volume);
    } else {
      assert tiers[..k] == tiers;
    }
  }

  /** On a valid schedule the early exit loses nothing. */
  method ComputeGateFee(tiers: seq<FeeTier>, volume: nat) returns (fee: int)
    requires ValidSchedule(tiers)
    ensures fee == FeeAt(tiers, volume)
  {
    fee := 0;
    for i := 0 to |tiers|
      invariant fee == FeeAt(tiers[..i], volume)
    {
      if volume >= tiers[i].minVolume {
        assert tiers[..i + 1][..i] == tiers[..i];
        fee := tiers[i].fee;
      } else {
        FeeAtPrefix(tiers, i, volume);
        return;
      }
    }
    assert tiers[..|tiers|] == tiers;
  }

  /** Fees lie between 0 and the hard ceiling. */
  lemma {:induction false} FeeBounds(tiers: seq<FeeTier>, volume: nat)
    requires ValidSchedule(tiers)
    ensures 0 <= FeeAt(tiers, volume) <= MAX_GATE_FEE_TIER
  {
    if tiers != [] {
      FeeBounds(tiers[..|tiers| - 1], volume);
    }
  }

  /** Every threshold fits in `u32`, so a saturated counter is priced like the true one. */
  lemma {:induction false} FeeAtSaturates(tiers: seq<FeeTier>, volume: nat)
    requires ValidSchedule(tiers)
    ensures FeeAt(tiers, Min(volume, U32_MAX)) == FeeAt(tiers, volume)
  {
    if tiers != [] {
      FeeAtSaturates(tiers[..|tiers| - 1], volume);
    }
  }

  // The price of a run of calls, tier by tier.

  /** Sum of the fees of the calls made at volumes `v, v+1, ..., v+n-1`. */
  ghost function FeesPaid(tiers: seq<FeeTier>, v: nat, n: nat): int {
    if n == 0 then 0 else FeesPaid(tiers, v, n - 1) + FeeAt(tiers, v + n - 1)
  }

  /** How many of the volumes `v..v+n` lie in `lo..hi`; `hi` is None for the last tier. */
  function Overlap(lo: nat, hi: Option<nat>, v: nat, n: nat): nat {
    var from := Max(lo, v);
    var upto := if hi.Some? then Min(hi.value, v + n) else v + n;
    if from < upto then upto - from else 0
  }

  /** Sum over tiers of fee times overlap, where the last tier ends at `end`. */
  ghost function TierTotal(tiers: seq<FeeTier>, end: Option<nat>, v: nat, n: nat): int {
    if tiers == [] then 0
    else
      var k := |tiers| - 1;
      TierTotal(tiers[..k], Some(tiers[k].minVolume), v, n) + tiers[k].fee * Overlap(tiers[k].minVolume, end, v, n)
  }

  lemma {:induction false} TierTotalEmpty(tiers: seq<FeeTier>, end: Option<nat>, v: nat)
    ensures TierTotal(tiers, end, v, 0) == 0
  {
    if tiers != [] {
      TierTotalEmpty(tiers[..|tiers| - 1], Some(tiers[|tiers| - 1].minVolume), v);
    }
  }

  /** One more call, at a volume no tier reaches beyond `end`, adds nothing there. */
  lemma {:induction false} TierTotalBeyond(tiers: seq<FeeTier>, end: nat, v: nat, n: nat)
    requires ValidSchedule(tiers) && v + n >= end
    requires forall i :: 0 <= i < |tiers| ==> tiers[i].minVolume < end
    ensures TierTotal(tiers, Some(end), v, n + 1) == TierTotal(tiers, Some(end), v, n)
  {
    if tiers != [] {
      var k := |tiers| - 1;
      TierTotalBeyond(tiers[..k], tiers[k].minVolume, v, n);
      assert Overlap(tiers[k].minVolume, Some(end), v, n + 1) == Overlap(tiers[k].minVolume, Some(end), v, n);
    }
  }

  /** One more call, at volume `v + n`, adds exactly its fee. */
  lemma {:induction false} TierTotalStep(tiers: seq<FeeTier>, end: Option<nat>, v: nat, n: nat)
    requires ValidSchedule(tiers)
    requires end.Some? ==> v + n < end.value
    ensures TierTotal(tiers, end, v, n + 1) == TierTotal(tiers, end, v, n) + FeeAt(tiers, v + n)
  {
    if tiers != [] {
      var k := |tiers| - 1;
      var lo, fee := tiers[k].minVolume, tiers[k].fee;
      if v + n >= lo {
        TierTotalBeyond(tiers[..k], lo, v, n);
        assert Overlap(lo, end, v, n + 1) == Overlap(lo, end, v, n) + 1;
        assert fee * (Overlap(lo, end, v, n) + 1) == fee * Overlap(lo, end, v, n) + fee;
      } else {
        TierTotalStep(tiers[..k], Some(lo), v, n);
        assert Overlap(lo, end, v, n + 1) == 0 == Overlap(lo, end, v, n);
      }
    }
  }

  /** The fees of `n` successive calls starting at volume `v` are the sum over tiers of the
      tier's fee times the overlap of its range with `[v, v + n)`. */
  lemma {:induction false} FeesByTier(tiers: seq<FeeTier>, v: nat, n: nat)
    requires ValidSchedule(tiers)
    ensures FeesPaid(tiers, v, n) == TierTotal(tiers, None, v, n)
  {
    if n == 0 {
      TierTotalEmpty(tiers, None, v);
    } else {
      FeesByTier(tiers, v, n - 1);
      TierTotalStep(tiers, None, v, n - 1);
    }
  }
}
