/** The weighted average of a wallet's pair scores. */
module WeightedAggregate {
  import opened Options
  import opened Sequences
  import opened ScoreDecay

  type Pair = string

  /** A pair's effective weight, after decay, and its score. */
  datatype Row = Row(weight: nat, score: nat)

  /** A pair's weight, 1 unless set, scaled down by a decay factor. */
  function Decayed(weights: map<Pair, nat>, pair: Pair, factor: nat): nat {
    (if pair in weights then weights[pair] else 1) * factor / SCALE
  }

  function EffectiveWeight(weights: map<Pair, nat>, decays: map<Pair, nat>, pair: Pair): nat {
    Decayed(weights, pair, if pair in decays then decays[pair] else SCALE)
  }

  function RowOf(scored: (Pair, nat), weights: map<Pair, nat>, decays: map<Pair, nat>): Row {
    Row(EffectiveWeight(weights, decays, scored.0), scored.1)
  }

  function Rows(scored: seq<(Pair, nat)>, weights: map<Pair, nat>, decays: map<Pair, nat>): (rows: seq<Row>)
    ensures |rows| == |scored| && forall i :: 0 <= i < |rows| ==> rows[i] == RowOf(scored[i], weights, decays)
  {
    seq(|scored|, i requires 0 <= i < |scored| => RowOf(scored[i], weights, decays))
  }

  function WeightSum(rows: seq<Row>): nat {
    if rows == [] then 0 else WeightSum(rows[..|rows| - 1]) + rows[|rows| - 1].weight
  }

  function WeightedSum(rows: seq<Row>): nat {
    if rows == [] then 0 else WeightedSum(rows[..|rows| - 1]) + rows[|rows| - 1].weight * rows[|rows| - 1].score
  }

  function Divide(total: nat, weights: nat): nat
    requires weights > 0
  {
    total / weights
  }

  /** None stands for the error "all weights are zero". */
  function Average(rows: seq<Row>): Option<nat> {
    if WeightSum(rows) == 0 then None else Some(Divide(WeightedSum(rows), WeightSum(rows)))
  }

  /** `aggregate`. */
  method Aggregate(scored: seq<(Pair, nat)>, weights: map<Pair, nat>, decays: map<Pair, nat>) returns (r: Option<nat>)
    ensures r == Average(Rows(scored, weights, decays))
  {
    var weightedSum, weightSum := 0, 0;
    ghost var rows := Rows(scored, weights, decays);
    for i := 0 to |scored|
      invariant weightedSum == WeightedSum(rows[..i]) && weightSum == WeightSum(rows[..i])
    {
      assert rows[..i + 1][..i] == rows[..i];
      var (pair, score) := scored[i];
      var w := EffectiveWeight(weights, decays, pair);
      weightedSum := weightedSum + w * score;
      weightSum := weightSum + w;
    }
    assert rows[..|scored|] == rows;
    if weightSum == 0 {
      return None;
    }
    r := Some(Divide(weightedSum, weightSum));
  }

  // What the weights are.

  /** A pair that does not decay weighs what was configured, 1 by default; one with a decay
      factor weighs that fraction of it, rounded down. */
  lemma EffectiveWeightMeans(weights: map<Pair, nat>, decays: map<Pair, nat>, pair: Pair)
    ensures var configured := if pair in weights then weights[pair] else 1;
            var w := EffectiveWeight(weights, decays, pair);
            if pair in decays then SCALE * w <= configured * decays[pair] < SCALE * (w + 1) else w == configured
  {
    var configured := if pair in weights then weights[pair] else 1;
    FloorOf(configured * (if pair in decays then decays[pair] else SCALE), SCALE);
  }

  /** The sums of the configured weights and of the scores they weigh. */
  ghost function ConfiguredSums(scored: seq<(Pair, nat)>, weights: map<Pair, nat>): (nat, nat) {
    if scored == [] then (0, 0)
    else
      var ((pair, score), before) := (scored[|scored| - 1], ConfiguredSums(scored[..|scored| - 1], weights));
      var w := if pair in weights then weights[pair] else 1;
      (before.0 + w, before.1 + w * score)
  }

  lemma {:induction false} UndecayedSums(scored: seq<(Pair, nat)>, weights: map<Pair, nat>, decays: map<Pair, nat>)
    requires forall i :: 0 <= i < |scored| ==> scored[i].0 !in decays
    ensures var rows := Rows(scored, weights, decays);
            ConfiguredSums(scored, weights) == (WeightSum(rows), WeightedSum(rows))
  {
    if scored != [] {
      var n := |scored| - 1;
      UndecayedSums(scored[..n], weights, decays);
      EffectiveWeightMeans(weights, decays, scored[n].0);
      assert Rows(scored, weights, decays)[..n] == Rows(scored[..n], weights, decays);
    }
  }

  /** Without decay the aggregate is the quotient, rounded down, of the two sums over the
      configured weights. */
  lemma UndecayedAverage(scored: seq<(Pair, nat)>, weights: map<Pair, nat>, decays: map<Pair, nat>)
    requires forall i :: 0 <= i < |scored| ==> scored[i].0 !in decays
    ensures var (total, weighted) := ConfiguredSums(scored, weights);
            var r := Average(Rows(scored, weights, decays));
            if total == 0 then r.None? else r.Some? && r.value * total <= weighted < (r.value + 1) * total
  {
    UndecayedSums(scored, weights, decays);
    AverageTruncates(Rows(scored, weights, decays));
  }

  /** The average is the quotient of the sums, rounded down. */
  lemma AverageTruncates(rows: seq<Row>)
    ensures if WeightSum(rows) == 0 then Average(rows).None?
            else && Average(rows).Some?
                 && Average(rows).value * WeightSum(rows) <= WeightedSum(rows) < (Average(rows).value + 1) * WeightSum(rows)
  {
    if WeightSum(rows) > 0 {
      Truncates(WeightedSum(rows), WeightSum(rows));
    }
  }

  lemma Truncates(n: nat, d: nat)
    requires d > 0
    ensures n / d * d <= n < (n / d + 1) * d
  {
    FloorOf(n, d);
    assert (n / d + 1) * d == n / d * d + d;
  }

  // Failure.

  /** The average fails exactly when every effective weight is zero. */
  lemma {:induction false} FailsOnlyWithoutWeight(rows: seq<Row>)
    ensures Average(rows).None? <==> forall i :: 0 <= i < |rows| ==> rows[i].weight == 0
  {
    if rows != [] {
      var n := |rows| - 1;
      FailsOnlyWithoutWeight(rows[..n]);
      assert forall i :: 0 <= i < n ==> rows[..n][i] == rows[i];
    }
  }

  // Bounds.

  /** Every row that weighs anything has its score between `lo` and `hi`. */
  ghost predicate Within(rows: seq<Row>, lo: nat, hi: nat) {
    forall i :: 0 <= i < |rows| && rows[i].weight > 0 ==> lo <= rows[i].score <= hi
  }

  lemma {:induction false} SumsWithin(rows: seq<Row>, lo: nat, hi: nat)
    requires Within(rows, lo, hi)
    ensures lo * WeightSum(rows) <= WeightedSum(rows) <= hi * WeightSum(rows)
  {
    if rows != [] {
      var n := |rows| - 1;
      assert Within(rows[..n], lo, hi);
      SumsWithin(rows[..n], lo, hi);
      Blend(lo, hi, WeightSum(rows[..n]), WeightedSum(rows[..n]), rows[n].weight, rows[n].score);
    }
  }

  lemma Blend(lo: nat, hi: nat, weights: nat, total: nat, w: nat, s: nat)
    requires lo * weights <= total <= hi * weights && (w > 0 ==> lo <= s <= hi)
    ensures lo * (weights + w) <= total + w * s <= hi * (weights + w)
  {
    assert lo * (weights + w) == lo * weights + lo * w && hi * (weights + w) == hi * weights + hi * w;
    if w > 0 {
      Products(lo, w, s);
      Products(s, w, hi);
    }
  }

  lemma Products(s: nat, r: nat, top: nat)
    requires s <= top
    ensures 0 <= s * r <= top * r
  {
  }

  lemma Quotient(n: nat, d: nat, lo: nat)
    requires d > 0
    ensures n / d >= lo <==> n >= lo * d
  {
    FloorOf(n, d);
    if n / d >= lo {
      assert d * (n / d) >= d * lo;
    } else {
      assert d * (n / d + 1) <= d * lo;
    }
  }

  /** The average lies between the lowest and the highest score that carry weight. */
  lemma AverageWithin(rows: seq<Row>, lo: nat, hi: nat)
    requires Within(rows, lo, hi) && Average(rows).Some?
    ensures lo <= Average(rows).value <= hi
  {
    SumsWithin(rows, lo, hi);
    Quotient(WeightedSum(rows), WeightSum(rows), lo);
    Quotient(WeightedSum(rows), WeightSum(rows), hi + 1);
    assert (hi + 1) * WeightSum(rows) == hi * WeightSum(rows) + WeightSum(rows);
  }

  // Order and zero weights.

  lemma {:induction false} SumsSplit(a: seq<Row>, b: seq<Row>)
    ensures WeightSum(a + b) == WeightSum(a) + WeightSum(b)
    ensures WeightedSum(a + b) == WeightedSum(a) + WeightedSum(b)
  {
    if b == [] {
      assert a + b == a;
    } else {
      assert (a + b)[..|a + b| - 1] == a + b[..|b| - 1];
      SumsSplit(a, b[..|b| - 1]);
    }
  }

  lemma SumsRemove(rows: seq<Row>, k: nat)
    requires k < |rows|
    ensures var rest := rows[..k] + rows[k + 1..];
            && WeightSum(rows) == WeightSum(rest) + rows[k].weight
            && WeightedSum(rows) == WeightedSum(rest) + rows[k].weight * rows[k].score
  {
    SumsSplit(rows[..k], rows[k + 1..]);
    SumsSplit(rows[..k + 1], rows[k + 1..]);
    assert rows == rows[..k + 1] + rows[k + 1..];
    assert rows[..k + 1][..k] == rows[..k];
  }

  lemma {:induction false} SumsPermute(a: seq<Row>, b: seq<Row>)
    requires multiset(a) == multiset(b)
    ensures WeightSum(a) == WeightSum(b) && WeightedSum(a) == WeightedSum(b)
    decreases |a|
  {
    if a == [] {
      assert |b| == |multiset(b)| == 0;
    } else {
      var k := LastHasPlace(a, b);
      SumsPermute(a[..|a| - 1], b[..k] + b[k + 1..]);
      SumsRemove(b, k);
    }
  }

  /** Reordering the rows changes nothing. */
  lemma OrderIsIrrelevant(a: seq<Row>, b: seq<Row>)
    requires multiset(a) == multiset(b)
    ensures WeightSum(a) == WeightSum(b) && WeightedSum(a) == WeightedSum(b) && Average(a) == Average(b)
  {
    SumsPermute(a, b);
  }

  function WithoutZeros(rows: seq<Row>): seq<Row> {
    if rows == [] then []
    else
      var n := |rows| - 1;
      if rows[n].weight == 0 then WithoutZeros(rows[..n]) else WithoutZeros(rows[..n]) + [rows[n]]
  }

  /** Rows of weight zero can be dropped. */
  lemma ZerosAreIrrelevant(rows: seq<Row>)
    ensures WeightSum(WithoutZeros(rows)) == WeightSum(rows) && WeightedSum(WithoutZeros(rows)) == WeightedSum(rows)
    ensures Average(WithoutZeros(rows)) == Average(rows)
  {
    SumsWithoutZeros(rows);
  }

  lemma SumsSnoc(rows: seq<Row>, row: Row)
    ensures WeightSum(rows + [row]) == WeightSum(rows) + row.weight
    ensures WeightedSum(rows + [row]) == WeightedSum(rows) + row.weight * row.score
  {
    assert (rows + [row])[..|rows|] == rows;
  }

  lemma {:induction false} SumsWithoutZeros(rows: seq<Row>)
    ensures WeightSum(WithoutZeros(rows)) == WeightSum(rows) && WeightedSum(WithoutZeros(rows)) == WeightedSum(rows)
  {
    if rows != [] {
      var n := |rows| - 1;
      SumsWithoutZeros(rows[..n]);
      if rows[n].weight == 0 {
        assert rows[n].weight * rows[n].score == 0;
      } else {
        SumsSnoc(WithoutZeros(rows[..n]), rows[n]);
      }
    }
  }

  // Monotonicity.

  lemma SumsUpdate(rows: seq<Row>, k: nat, row: Row)
    requires k < |rows|
    ensures WeightSum(rows[k := row]) == WeightSum(rows) - rows[k].weight + row.weight
    ensures WeightedSum(rows[k := row]) == WeightedSum(rows) - rows[k].weight * rows[k].score + row.weight * row.score
  {
    var after := rows[k := row];
    SumsRemove(rows, k);
    SumsRemove(after, k);
    assert after[..k] + after[k + 1..] == rows[..k] + rows[k + 1..];
  }

  /** Raising one score never lowers the average. */
  lemma MonotoneInScores(rows: seq<Row>, k: nat, score: nat)
    requires k < |rows| && score >= rows[k].score && Average(rows).Some?
    ensures var after := Average(rows[k := rows[k].(score := score)]);
            after.Some? && after.value >= Average(rows).value
  {
    var row := rows[k].(score := score);
    SumsUpdate(rows, k, row);
    Raised(rows[k].weight, rows[k].score, score);
    QuotientsGrow(WeightedSum(rows), WeightedSum(rows[k := row]), WeightSum(rows));
  }

  /** Raising the weight of a pair that scores at or above the average never lowers it;
      at or below the average, never raises it. */
  lemma Reweighting(rows: seq<Row>, k: nat, extra: nat)
    requires k < |rows| && Average(rows).Some?
    ensures var after := Average(rows[k := rows[k].(weight := rows[k].weight + extra)]);
            && after.Some?
            && (rows[k].score >= Average(rows).value ==> after.value >= Average(rows).value)
            && (rows[k].score <= Average(rows).value ==> after.value <= Average(rows).value)
  {
    SumsUpdate(rows, k, rows[k].(weight := rows[k].weight + extra));
    assert (rows[k].weight + extra) * rows[k].score == rows[k].weight * rows[k].score + extra * rows[k].score;
    Shift(WeightedSum(rows), WeightSum(rows), extra, rows[k].score);
  }

  /** Adding `extra` units of score `s` moves the quotient towards `s`. */
  lemma Shift(total: nat, weights: nat, extra: nat, s: nat)
    requires weights > 0
    ensures var a := total / weights;
            && (s >= a ==> (total + extra * s) / (weights + extra) >= a)
            && (s <= a ==> (total + extra * s) / (weights + extra) <= a)
  {
    var a := total / weights;
    Truncates(total, weights);
    if s >= a {
      ShiftUp(total, weights, extra, s, a);
      Quotient(total + extra * s, weights + extra, a);
    }
    if s <= a {
      ShiftDown(total, weights, extra, s, a);
      Quotient(total + extra * s, weights + extra, a + 1);
    }
  }

  lemma ShiftUp(total: nat, weights: nat, extra: nat, s: nat, a: nat)
    requires a * weights <= total && s >= a
    ensures a * (weights + extra) <= total + extra * s
  {
    Distribute(a, weights, extra);
    Raised(extra, a, s);
    assert extra * a == a * extra;
  }

  lemma ShiftDown(total: nat, weights: nat, extra: nat, s: nat, a: nat)
    requires total < (a + 1) * weights && s <= a
    ensures total + extra * s < (a + 1) * (weights + extra)
  {
    Distribute(a + 1, weights, extra);
    Raised(extra, s, a + 1);
    assert extra * (a + 1) == (a + 1) * extra;
  }

  lemma Distribute(a: nat, b: nat, c: nat)
    ensures a * (b + c) == a * b + a * c
  {
  }

  lemma Raised(w: nat, s: nat, top: nat)
    requires s <= top
    ensures w * s <= w * top
  {
  }

  /** One pair that outweighs all the others together by more than the largest score decides
      the average, up to the truncation. */
  lemma DominantPairDecides(rows: seq<Row>, k: nat, top: nat)
    requires k < |rows| && Within(rows, 0, top) && rows[k].weight > top * (WeightSum(rows) - rows[k].weight)
    ensures Average(rows).Some?
    ensures rows[k].score - 1 <= Average(rows).value <= rows[k].score
  {
    var rest := rows[..k] + rows[k + 1..];
    SumsRemove(rows, k);
    assert Within(rest, 0, top);
    SumsWithin(rest, 0, top);
    Dominates(WeightedSum(rest), WeightSum(rest), rows[k].weight, rows[k].score, top);
  }

  lemma Dominates(total: nat, weights: nat, w: nat, s: nat, top: nat)
    requires total <= top * weights && s <= top && w > top * weights
    ensures s - 1 <= (total + w * s) / (weights + w) <= s
  {
    Products(s, weights, top);
    assert s * (weights + w) == s * weights + w * s;
    assert (s + 1) * (weights + w) == s * (weights + w) + weights + w;
    Quotient(total + w * s, weights + w, s + 1);
    if s > 0 {
      assert (s - 1) * (weights + w) == s * (weights + w) - weights - w;
      Quotient(total + w * s, weights + w, s - 1);
    }
  }
}
