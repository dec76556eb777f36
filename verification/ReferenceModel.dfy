/** The reference model of the registry: an object that stores scores, weights and a decay
    rate, and answers score, aggregate and gate queries. */
module ReferenceModel {
  import opened Options
  import opened Sequences
  import opened Tokens
  import opened ScoreDecay
  import opened WeightedAggregate

  const START_TIME := 1_700_000_000
  const RISK_THRESHOLD := 75
  const HYSTERESIS_MARGIN := 0
  const INVALID_SCORE := 4
  const INVALID_CONFIDENCE := 5

  datatype Stored = Stored(score: nat, conf: nat, at: nat)

  datatype Reply = Done | Err(code: nat)

  datatype Aggregated = NotFound | Aggregated(average: nat, count: nat, highest: nat)

  type Key = (nat, Pair)

  // One wallet's rows, in any order.

  /** `listing` names every pair in `rows` once. */
  ghost predicate Lists(listing: seq<Pair>, rows: map<Pair, Row>) {
    && (forall i, j :: 0 <= i < j < |listing| ==> listing[i] != listing[j])
    && (forall p :: p in listing <==> p in rows)
  }

  function Pick(rows: map<Pair, Row>, listing: seq<Pair>): (picked: seq<Row>)
    ensures |picked| == |listing|
    ensures forall i :: 0 <= i < |listing| ==> picked[i] == RowOr(rows, listing[i])
  {
    seq(|listing|, i requires 0 <= i < |listing| => RowOr(rows, listing[i]))
  }

  function RowOr(rows: map<Pair, Row>, p: Pair): Row {
    if p in rows then rows[p] else Row(0, 0)
  }

  function Highest(rows: seq<Row>): (h: nat)
    ensures forall i :: 0 <= i < |rows| ==> rows[i].score <= h
    ensures rows != [] ==> exists i :: 0 <= i < |rows| && rows[i].score == h
  {
    if rows == [] then 0
    else
      var n := |rows| - 1;
      var h := Highest(rows[..n]);
      assert forall i :: 0 <= i < n ==> rows[..n][i] == rows[i];
      if rows[n].score > h then rows[n].score
      else if n == 0 then assert rows[0].score == h; h
      else
        assert exists i :: 0 <= i < n && rows[..n][i].score == h;
        h
  }

  function Summary(rows: seq<Row>): Aggregated {
    var average := Average(rows);
    if average.None? then NotFound else Aggregated(average.value, |rows|, Highest(rows))
  }

  /** `r` is the summary of the rows in whatever order they are listed. */
  ghost predicate Summarizes(rows: map<Pair, Row>, r: Aggregated) {
    forall listing :: Lists(listing, rows) ==> r == Summary(Pick(rows, listing))
  }

  lemma ListingsPermute(a: seq<Pair>, b: seq<Pair>, rows: map<Pair, Row>)
    requires Lists(a, rows) && Lists(b, rows)
    ensures multiset(a) == multiset(b)
  {
    forall p ensures multiset(a)[p] == multiset(b)[p] {
      OnceEach(a, p);
      OnceEach(b, p);
    }
  }

  lemma {:induction false} OnceEach(listing: seq<Pair>, p: Pair)
    requires forall i, j :: 0 <= i < j < |listing| ==> listing[i] != listing[j]
    ensures multiset(listing)[p] == if p in listing then 1 else 0
  {
    if listing != [] {
      var n := |listing| - 1;
      OnceEach(listing[..n], p);
      assert listing == listing[..n] + [listing[n]];
    }
  }

  lemma {:induction false} PickPermutes(rows: map<Pair, Row>, a: seq<Pair>, b: seq<Pair>)
    requires multiset(a) == multiset(b)
    ensures multiset(Pick(rows, a)) == multiset(Pick(rows, b))
    decreases |a|
  {
    if a == [] {
      assert |b| == |multiset(b)| == 0;
    } else {
      var n := |a| - 1;
      var k := LastHasPlace(a, b);
      PickPermutes(rows, a[..n], b[..k] + b[k + 1..]);
      PickRemove(rows, b, k);
      PickRemove(rows, a, n);
      assert a[..n] + a[n + 1..] == a[..n];
    }
  }

  lemma PickRemove(rows: map<Pair, Row>, b: seq<Pair>, k: nat)
    requires k < |b|
    ensures multiset(Pick(rows, b)) == multiset(Pick(rows, b[..k] + b[k + 1..])) + multiset{RowOr(rows, b[k])}
  {
    var all, rest := Pick(rows, b), Pick(rows, b[..k] + b[k + 1..]);
    assert rest == all[..k] + all[k + 1..];
    assert all == all[..k] + [all[k]] + all[k + 1..];
  }

  /** The summary does not depend on the order in which the pairs are listed. */
  lemma SummaryIsOrderIndependent(rows: map<Pair, Row>, a: seq<Pair>, b: seq<Pair>)
    requires Lists(a, rows) && Lists(b, rows)
    ensures Summary(Pick(rows, a)) == Summary(Pick(rows, b))
  {
    ListingsPermute(a, b, rows);
    PickPermutes(rows, a, b);
    var x, y := Pick(rows, a), Pick(rows, b);
    OrderIsIrrelevant(x, y);
    assert |a| == |multiset(a)| == |multiset(b)| == |b|;
    HighestOf(x, y);
    HighestOf(y, x);
  }

  lemma HighestOf(x: seq<Row>, y: seq<Row>)
    requires multiset(x) == multiset(y)
    ensures Highest(x) <= Highest(y)
  {
    if x != [] {
      var i :| 0 <= i < |x| && x[i].score == Highest(x);
      assert x[i] in multiset(y);
      var j :| 0 <= j < |y| && y[j] == x[i];
    }
  }

  /** The average never exceeds the highest score, and never falls below the lowest. */
  lemma SummaryBounds(rows: seq<Row>, low: nat, top: nat)
    requires Summary(rows).Aggregated? && forall i :: 0 <= i < |rows| ==> low <= rows[i].score <= top
    ensures low <= Summary(rows).average <= Summary(rows).highest <= top
  {
    AverageWithin(rows, low, Highest(rows));
  }

  class Model {
    var now: nat
    var scores: map<Key, Stored>
    var weights: map<Pair, nat>
    var decayNum: nat
    var decayDen: nat
    var floor: nat
    var inBand: set<Key>

    /** The band holds exactly the scores at or above the risk threshold; scores and
        confidences are percentages; nothing was stored in the future. */
    ghost predicate Valid()
      reads this
    {
      && decayDen > 0 && floor <= 100
      && (forall k :: k in scores ==> scores[k].score <= 100 && scores[k].conf <= 100 && scores[k].at <= now)
      && (forall k :: k in inBand <==> k in scores && scores[k].score >= RISK_THRESHOLD)
    }

    constructor ()
      ensures Valid() && scores == map[] && now == START_TIME
    {
      now, scores, weights, decayNum, decayDen, floor, inBand := START_TIME, map[], map[], 0, 1, 0, {};
    }

    method Advance(secs: nat)
      requires Valid()
      modifies this`now
      ensures Valid() && now == old(now) + secs
    {
      now := now + secs;
    }

    method Submit(w: nat, p: Pair, score: nat, conf: nat) returns (r: Reply)
      requires Valid()
      modifies this`scores, this`inBand
      ensures Valid()
      ensures r == if score > 100 then Err(INVALID_SCORE) else if conf > 100 then Err(INVALID_CONFIDENCE) else Done
      ensures scores == if r == Done then old(scores)[(w, p) := Stored(score, conf, now)] else old(scores)
    {
      if score > 100 {
        return Err(INVALID_SCORE);
      }
      if conf > 100 {
        return Err(INVALID_CONFIDENCE);
      }
      scores := scores[(w, p) := Stored(score, conf, now)];
      if score >= RISK_THRESHOLD {
        inBand := inBand + {(w, p)};
      } else if score < RISK_THRESHOLD - HYSTERESIS_MARGIN {
        inBand := inBand - {(w, p)};
      }
      r := Done;
    }

    method SetWeight(p: Pair, weight: nat)
      requires Valid()
      modifies this`weights
      ensures Valid() && weights == old(weights)[p := weight]
    {
      weights := weights[p := weight];
    }

    method SetDecay(num: nat, den: nat)
      requires Valid() && den > 0
      modifies this`decayNum, this`decayDen
      ensures Valid() && decayNum == num && decayDen == den
    {
      decayNum, decayDen := num, den;
    }

    method SetFloor(v: nat) returns (r: Reply)
      requires Valid()
      modifies this`floor
      ensures Valid()
      ensures r == if v > 100 then Err(INVALID_CONFIDENCE) else Done
      ensures floor == if r == Done then v else old(floor)
    {
      if v > 100 {
        return Err(INVALID_CONFIDENCE);
      }
      floor := v;
      r := Done;
    }

    function Factor(k: Key): nat
      requires decayDen > 0 && k in scores && scores[k].at <= now
      reads this
    {
      DecayBounds(now - scores[k].at, decayNum, decayDen);
      DecayFactor(now - scores[k].at, decayNum, decayDen)
    }

    /** The row a stored score contributes to its wallet's aggregate. */
    function RowFor(k: Key): Row
      requires decayDen > 0 && k in scores && scores[k].at <= now
      reads this
    {
      Row(Decayed(weights, k.1, Factor(k)), scores[k].score)
    }

    ghost function RowsOf(w: nat): (rows: map<Pair, Row>)
      requires Valid()
      reads this
      ensures forall p :: p in rows <==> (w, p) in scores
      ensures forall p :: p in rows ==> rows[p] == RowFor((w, p))
    {
      var pairs := set k | k in scores && k.0 == w :: k.1;
      assert forall p :: p in pairs ==> (w, p) in scores;
      assert forall p :: (w, p) in scores ==> (w, p).1 in pairs;
      map p | p in pairs :: RowFor((w, p))
    }

    /** A pair has a row exactly when the wallet has a score of it; the row weighs the pair's
        weight, 1 by default, scaled down by the decay at the score's age. */
    lemma RowsMean(w: nat, p: Pair)
      requires Valid()
      ensures p in RowsOf(w) <==> (w, p) in scores
      ensures (w, p) in scores ==>
                var stored := scores[(w, p)];
                var factor := DecayFactor(now - stored.at, decayNum, decayDen);
                RowsOf(w)[p] == Row((if p in weights then weights[p] else 1) * factor / SCALE, stored.score)
    {
    }

    /** The decayed score never exceeds the stored one. */
    method EffectiveScore(w: nat, p: Pair) returns (r: Option<nat>)
      requires Valid()
      ensures r.None? <==> (w, p) !in scores
      ensures r.Some? ==> r.value == scores[(w, p)].score * DecayFactor(now - scores[(w, p)].at, decayNum, decayDen) / SCALE
      ensures r.Some? ==> r.value <= scores[(w, p)].score
    {
      if (w, p) !in scores {
        return None;
      }
      var stored := scores[(w, p)];
      var factor := DecayFactor(now - stored.at, decayNum, decayDen);
      DecayBounds(now - stored.at, decayNum, decayDen);
      ScaledDown(stored.score, factor);
      r := Some(stored.score * factor / SCALE);
    }

    /** The wallet's scores and decay factors, pair by pair, and its highest score. */
    method Collect(w: nat) returns (scored: seq<(Pair, nat)>, decays: map<Pair, nat>, highest: nat, ghost listing: seq<Pair>)
      requires Valid()
      ensures Lists(listing, RowsOf(w))
      ensures Rows(scored, weights, decays) == Pick(RowsOf(w), listing) && highest == Highest(Pick(RowsOf(w), listing))
    {
      scored, decays, highest, listing := [], map[], 0, [];
      var left := set k | k in scores && k.0 == w;
      ghost var rows := RowsOf(w);
      while left != {}
        invariant ListedSoFar(rows, w, left, listing)
        invariant Gathers(rows, weights, listing, scored, decays) && highest == Highest(Pick(rows, listing))
        decreases |left|
      {
        var k :| k in left;
        assert k == (w, k.1) && rows[k.1] == RowFor(k);
        ListOne(rows, w, left, listing, k);
        GatherOne(rows, weights, listing, scored, decays, k.1, scores[k].score, Factor(k));
        if scores[k].score > highest {
          highest := scores[k].score;
        }
        scored, decays := scored + [(k.1, scores[k].score)], decays[k.1 := Factor(k)];
        listing := listing + [k.1];
        left := left - {k};
      }
    }

    /** The aggregate over all of a wallet's pairs, whichever way they are listed. */
    method AggregateScore(w: nat) returns (r: Aggregated)
      requires Valid()
      ensures Summarizes(RowsOf(w), r)
      ensures Totals(RowsOf(w), r)
      ensures r.Aggregated? ==> r.average <= r.highest <= 100
    {
      var scored, decays, highest;
      ghost var listing;
      scored, decays, highest, listing := Collect(w);
      var average := Aggregate(scored, weights, decays);
      r := if average.None? then NotFound else Aggregated(average.value, |scored|, highest);
      SummaryFromListing(RowsOf(w), listing, 100);
      ListingCounts(RowsOf(w), listing);
    }

    /** The gate is open exactly for a stored score below both the risk threshold and the
        queried one, whose confidence reaches both floors. */
    method Gate(w: nat, p: Pair, threshold: nat, minConf: nat) returns (open: bool)
      requires Valid()
      ensures open <==> && (w, p) in scores && scores[(w, p)].score < Min(threshold, RISK_THRESHOLD)
                        && scores[(w, p)].conf >= Max(minConf, floor)
    {
      if (w, p) !in scores || (w, p) in inBand {
        return false;
      }
      var stored := scores[(w, p)];
      open := stored.score < threshold && stored.conf >= minConf && stored.conf >= floor;
    }
  }

  /** The wallet's pairs are those listed, once each, and those in `left`. */
  ghost predicate ListedSoFar(rows: map<Pair, Row>, w: nat, left: set<Key>, listing: seq<Pair>) {
    && (forall k :: k in left ==> k.0 == w && k.1 in rows)
    && (forall i, j :: 0 <= i < j < |listing| ==> listing[i] != listing[j])
    && (forall p :: p in listing <==> p in rows && (w, p) !in left)
  }

  lemma ListOne(rows: map<Pair, Row>, w: nat, left: set<Key>, listing: seq<Pair>, k: Key)
    requires ListedSoFar(rows, w, left, listing) && k in left
    ensures ListedSoFar(rows, w, left - {k}, listing + [k.1])
  {
    assert k == (w, k.1);
  }

  /** The collected scores and factors give the rows of the pairs listed. */
  ghost predicate Gathers(rows: map<Pair, Row>, weights: map<Pair, nat>, listing: seq<Pair>,
                          scored: seq<(Pair, nat)>, decays: map<Pair, nat>)
  {
    && Rows(scored, weights, decays) == Pick(rows, listing)
    && |scored| == |listing| && forall i :: 0 <= i < |listing| ==> scored[i].0 == listing[i] && listing[i] in decays
  }

  lemma GatherOne(rows: map<Pair, Row>, weights: map<Pair, nat>, listing: seq<Pair>,
                  scored: seq<(Pair, nat)>, decays: map<Pair, nat>, p: Pair, score: nat, factor: nat)
    requires Gathers(rows, weights, listing, scored, decays) && p !in listing
    requires p in rows && rows[p] == Row(Decayed(weights, p, factor), score)
    ensures Gathers(rows, weights, listing + [p], scored + [(p, score)], decays[p := factor])
    ensures Highest(Pick(rows, listing + [p])) == Max(score, Highest(Pick(rows, listing)))
  {
    var more, factors, all := scored + [(p, score)], decays[p := factor], Pick(rows, listing + [p]);
    forall i | 0 <= i < |more| ensures Rows(more, weights, factors)[i] == all[i] {
      if i < |scored| {
        assert Rows(scored, weights, decays)[i] == Pick(rows, listing)[i];
        assert listing[i] != p;
      }
    }
    assert all[..|listing|] == Pick(rows, listing);
  }

  lemma SummaryFromListing(rows: map<Pair, Row>, listing: seq<Pair>, top: nat)
    requires Lists(listing, rows) && forall p :: p in rows ==> rows[p].score <= top
    ensures Summarizes(rows, Summary(Pick(rows, listing)))
    ensures var r := Summary(Pick(rows, listing));
            r.Aggregated? ==> r.average <= r.highest <= top
  {
    var picked := Pick(rows, listing);
    forall other | Lists(other, rows) ensures Summary(picked) == Summary(Pick(rows, other)) {
      SummaryIsOrderIndependent(rows, listing, other);
    }
    if Summary(picked).Aggregated? {
      SummaryBounds(picked, 0, top);
    }
  }

  /** There is a summary exactly when some row weighs anything; it counts the rows and names
      the highest score. */
  ghost predicate Totals(rows: map<Pair, Row>, r: Aggregated) {
    && (r == NotFound <==> forall p :: p in rows ==> rows[p].weight == 0)
    && (r.Aggregated? ==> r.count == |rows| && exists p :: p in rows && rows[p].score == r.highest)
    && (r.Aggregated? ==> forall p :: p in rows ==> rows[p].score <= r.highest)
  }

  lemma ListingCounts(rows: map<Pair, Row>, listing: seq<Pair>)
    requires Lists(listing, rows)
    ensures Totals(rows, Summary(Pick(rows, listing)))
  {
    var picked := Pick(rows, listing);
    FailsOnlyWithoutWeight(picked);
    assert forall i :: 0 <= i < |listing| ==> listing[i] in rows && picked[i] == rows[listing[i]];
    forall p | p in rows ensures exists i :: 0 <= i < |listing| && listing[i] == p && picked[i] == rows[p] {
      assert p in listing;
    }
    OnceEachCount(listing, rows.Keys);
    assert |rows.Keys| == |rows|;
  }

  lemma {:induction false} OnceEachCount(listing: seq<Pair>, names: set<Pair>)
    requires forall i, j :: 0 <= i < j < |listing| ==> listing[i] != listing[j]
    requires forall p :: p in listing <==> p in names
    ensures |listing| == |names|
  {
    if listing == [] {
      assert names == {};
    } else {
      var n := |listing| - 1;
      assert listing == listing[..n] + [listing[n]];
      OnceEachCount(listing[..n], names - {listing[n]});
    }
  }

  lemma ScaledDown(score: nat, factor: nat)
    requires factor <= SCALE
    ensures score * factor / SCALE <= score
  {
    Products(factor, score, SCALE);
  }
}
