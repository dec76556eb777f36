/** Duration-balanced test sharding: tests are ordered by decreasing weight and each is
    given to the least-loaded shard. Durations are reals, and a test is identified by its
    rank in (binary, name) order. */
module TestPartition {
  import opened Options
  import opened Sequences

  type Test = nat

  datatype Weighted = Weighted(weight: real, test: Test)

  const DEFAULT_WEIGHT: real := 0.05

  // Ordering.

  /** The sort key `(-weight, test)`. */
  predicate Before(x: Weighted, y: Weighted) {
    x.weight > y.weight || (x.weight == y.weight && x.test <= y.test)
  }

  ghost predicate Ordered(xs: seq<Weighted>) {
    forall i :: 0 < i < |xs| ==> Before(xs[i - 1], xs[i])
  }

  function InsertOrdered(x: Weighted, xs: seq<Weighted>): (ys: seq<Weighted>)
    ensures multiset(ys) == multiset(xs) + multiset{x}
    ensures |ys| == |xs| + 1
    ensures ys[0] == x || (xs != [] && ys[0] == xs[0])
    ensures Ordered(xs) ==> Ordered(ys)
  {
    if xs == [] then [x]
    else
      assert xs == [xs[0]] + xs[1..];
      if Before(x, xs[0]) then [x] + xs
      else [xs[0]] + InsertOrdered(x, xs[1..])
  }

  /** Python's `sorted` on the key above. */
  function SortOrdered(xs: seq<Weighted>): (ys: seq<Weighted>)
    ensures multiset(ys) == multiset(xs) && |ys| == |xs|
    ensures Ordered(ys)
  {
    if xs == [] then []
    else
      assert xs == [xs[0]] + xs[1..];
      InsertOrdered(xs[0], SortOrdered(xs[1..]))
  }

  // Weights.

  function Known(tests: seq<Test>, durations: map<Test, real>): (known: seq<Weighted>)
    ensures forall k :: 0 <= k < |known| ==> known[k].test in durations && known[k].weight == durations[known[k].test]
  {
    if tests == [] then []
    else
      var rest := Known(tests[..|tests| - 1], durations);
      var t := tests[|tests| - 1];
      if t in durations then rest + [Weighted(durations[t], t)] else rest
  }

  /** `statistics.median`. */
  function Median(known: seq<Weighted>): (m: real)
    requires known != []
    ensures exists k :: 0 <= k < |known| && m <= known[k].weight
    ensures exists k :: 0 <= k < |known| && known[k].weight <= m
  {
    var s := SortOrdered(known);
    var h := |s| / 2;
    assert s[h] in multiset(known);
    if |s| % 2 == 1 then s[h].weight
    else
      assert s[h - 1] in multiset(known);
      assert Before(s[h - 1], s[h]);
      (s[h - 1].weight + s[h].weight) / 2.0
  }

  /** The weight of a test without history: never negative when the history is not. */
  function Fallback(tests: seq<Test>, durations: map<Test, real>): real {
    var known := Known(tests, durations);
    if known == [] then DEFAULT_WEIGHT else Median(known)
  }

  function WeightOf(t: Test, durations: map<Test, real>, fallback: real): real {
    if t in durations then durations[t] else fallback
  }

  function WeightedTests(tests: seq<Test>, durations: map<Test, real>, fallback: real): (ws: seq<Weighted>)
    ensures |ws| == |tests|
    ensures forall k :: 0 <= k < |ws| ==> ws[k] == Weighted(WeightOf(tests[k], durations, fallback), tests[k])
  {
    seq(|tests|, k requires 0 <= k < |tests| => Weighted(WeightOf(tests[k], durations, fallback), tests[k]))
  }

  ghost predicate NonNegative(ws: seq<real>) {
    forall k :: 0 <= k < |ws| ==> ws[k] >= 0.0
  }

  function Weights(order: seq<Weighted>): (ws: seq<real>)
    ensures |ws| == |order|
    ensures forall k :: 0 <= k < |ws| ==> ws[k] == order[k].weight
  {
    seq(|order|, k requires 0 <= k < |order| => order[k].weight)
  }

  // Assignments of the ordered tests to shards.

  /** Total weight that assignment `a` gives to shard `i`. */
  ghost function Load(ws: seq<real>, a: seq<nat>, i: nat): real
    requires |ws| == |a|
  {
    if ws == [] then 0.0
    else
      var k := |ws| - 1;
      Load(ws[..k], a[..k], i) + (if a[k] == i then ws[k] else 0.0)
  }

  ghost function Total(ws: seq<real>): real {
    if ws == [] then 0.0 else Total(ws[..|ws| - 1]) + ws[|ws| - 1]
  }

  ghost predicate IsAssignment(a: seq<nat>, shards: nat) {
    forall k :: 0 <= k < |a| ==> a[k] < shards
  }

  /** Each test went to the first of the least-loaded shards of its moment. */
  ghost predicate Greedy(ws: seq<real>, a: seq<nat>, shards: nat)
    requires |ws| == |a|
  {
    ws == [] ||
    var k := |ws| - 1;
    && Greedy(ws[..k], a[..k], shards)
    && a[k] < shards
    && forall i :: 0 <= i < shards ==> LeastLoaded(ws[..k], a[..k], a[k], i)
  }

  ghost predicate LeastLoaded(ws: seq<real>, a: seq<nat>, chosen: nat, i: nat)
    requires |ws| == |a|
  {
    && Load(ws, a, chosen) <= Load(ws, a, i)
    && (i < chosen ==> Load(ws, a, chosen) < Load(ws, a, i))
  }

  /** The tests assigned to shard `i`, in order. */
  ghost function Bucket(order: seq<Weighted>, a: seq<nat>, i: nat): seq<Test>
    requires |order| == |a|
  {
    if order == [] then []
    else
      var k := |order| - 1;
      Bucket(order[..k], a[..k], i) + (if a[k] == i then [order[k].test] else [])
  }

  /** All the tests held by the first `m` buckets, with repetitions. */
  ghost function Held(buckets: seq<seq<Test>>): multiset<Test> {
    if buckets == [] then multiset{} else Held(buckets[..|buckets| - 1]) + multiset(buckets[|buckets| - 1])
  }

  lemma {:induction false} HeldGrows(buckets: seq<seq<Test>>, i: nat, t: Test)
    requires i < |buckets|
    ensures Held(buckets[i := buckets[i] + [t]]) == Held(buckets) + multiset{t}
  {
    var k := |buckets| - 1;
    var grown := buckets[i := buckets[i] + [t]];
    if i == k {
      assert grown[..k] == buckets[..k];
    } else {
      assert grown[..k] == buckets[..k][i := buckets[..k][i] + [t]];
      HeldGrows(buckets[..k], i, t);
    }
  }

  lemma {:induction false} HeldEmpty(buckets: seq<seq<Test>>)
    requires forall i :: 0 <= i < |buckets| ==> buckets[i] == []
    ensures Held(buckets) == multiset{}
  {
    if buckets != [] {
      HeldEmpty(buckets[..|buckets| - 1]);
    }
  }

  function Tests(order: seq<Weighted>): (ts: seq<Test>)
    ensures |ts| == |order|
    ensures forall k :: 0 <= k < |ts| ==> ts[k] == order[k].test
  {
    seq(|order|, k requires 0 <= k < |order| => order[k].test)
  }

  /** `min(range(shards), key=lambda s: (loads[s], s))`. */
  method LeastLoadedShard(loads: seq<real>) returns (i: nat)
    requires loads != []
    ensures i < |loads|
    ensures forall j :: 0 <= j < |loads| ==> loads[i] <= loads[j] && (j < i ==> loads[i] < loads[j])
  {
    i := 0;
    for s := 1 to |loads|
      invariant i < s
      invariant forall j :: 0 <= j < s ==> loads[i] <= loads[j] && (j < i ==> loads[i] < loads[j])
    {
      if loads[s] < loads[i] {
        i := s;
      }
    }
  }

  lemma {:induction false} InsertTests(x: Weighted, xs: seq<Weighted>)
    ensures multiset(Tests(InsertOrdered(x, xs))) == multiset(Tests(xs)) + multiset{x.test}
  {
    if xs == [] {
      assert Tests(InsertOrdered(x, xs)) == [x.test];
    } else {
      if Before(x, xs[0]) {
        TestsCons(x, xs);
      } else {
        assert xs == [xs[0]] + xs[1..];
        InsertTests(x, xs[1..]);
        TestsCons(xs[0], xs[1..]);
        TestsCons(xs[0], InsertOrdered(x, xs[1..]));
      }
    }
  }

  lemma TestsCons(x: Weighted, xs: seq<Weighted>)
    ensures multiset(Tests([x] + xs)) == multiset{x.test} + multiset(Tests(xs))
  {
    assert Tests([x] + xs) == [x.test] + Tests(xs);
  }

  lemma {:induction false} SortTests(xs: seq<Weighted>)
    ensures multiset(Tests(SortOrdered(xs))) == multiset(Tests(xs))
  {
    if xs != [] {
      SortTests(xs[1..]);
      InsertTests(xs[0], SortOrdered(xs[1..]));
      assert Tests(xs) == [xs[0].test] + Tests(xs[1..]);
    }
  }

  /** The loop's state after placing the tests of `order`. */
  ghost predicate Placed(order: seq<Weighted>, a: seq<nat>, shards: nat, loads: seq<real>, buckets: seq<seq<Test>>)
  {
    && |a| == |order| && |loads| == |buckets| == shards
    && GreedyLoads(Weights(order), a, loads)
    && (forall i :: 0 <= i < shards ==> buckets[i] == Bucket(order, a, i))
    && Held(buckets) == multiset(Tests(order))
  }

  ghost predicate GreedyLoads(ws: seq<real>, a: seq<nat>, loads: seq<real>)
    requires |ws| == |a|
  {
    && Greedy(ws, a, |loads|)
    && forall i :: 0 <= i < |loads| ==> loads[i] == Load(ws, a, i)
  }

  lemma LoadOne(ws: seq<real>, a: seq<nat>, loads: seq<real>, w: real, i: nat)
    requires |ws| == |a| && GreedyLoads(ws, a, loads)
    requires i < |loads|
    requires forall j :: 0 <= j < |loads| ==> loads[i] <= loads[j] && (j < i ==> loads[i] < loads[j])
    ensures GreedyLoads(ws + [w], a + [i], loads[i := loads[i] + w])
  {
    var k := |ws|;
    var ws', a' := ws + [w], a + [i];
    assert ws'[..k] == ws && a'[..k] == a;
    forall j | 0 <= j < |loads| ensures LeastLoaded(ws, a, i, j) {
      assert loads[i] <= loads[j];
    }
  }

  lemma PlaceOne(order: seq<Weighted>, a: seq<nat>, shards: nat, loads: seq<real>, buckets: seq<seq<Test>>,
                 x: Weighted, i: nat)
    requires Placed(order, a, shards, loads, buckets)
    requires i < shards
    requires forall j :: 0 <= j < shards ==> loads[i] <= loads[j] && (j < i ==> loads[i] < loads[j])
    ensures Placed(order + [x], a + [i], shards, loads[i := loads[i] + x.weight], buckets[i := buckets[i] + [x.test]])
  {
    LoadOne(Weights(order), a, loads, x.weight, i);
    assert Weights(order + [x]) == Weights(order) + [x.weight];
    HeldGrows(buckets, i, x.test);
    assert Tests(order + [x]) == Tests(order) + [x.test];
    forall j | 0 <= j < shards
      ensures buckets[i := buckets[i] + [x.test]][j] == Bucket(order + [x], a + [i], j)
    {
      BucketGrows(order, a, x, i, j);
    }
  }

  lemma BucketGrows(order: seq<Weighted>, a: seq<nat>, x: Weighted, i: nat, j: nat)
    requires |order| == |a|
    ensures Bucket(order + [x], a + [i], j) == Bucket(order, a, j) + if i == j then [x.test] else []
  {
    assert (order + [x])[..|order|] == order && (a + [i])[..|order|] == a;
  }

  /** The loop over the ordered tests. */
  method PlaceAll(weighted: seq<Weighted>, shards: nat) returns (buckets: seq<seq<Test>>, loads: seq<real>, ghost a: seq<nat>)
    requires shards > 0
    ensures Placed(weighted, a, shards, loads, buckets)
    ensures |loads| == |buckets| == shards && Held(buckets) == multiset(Tests(weighted))
  {
    loads := seq(shards, _ => 0.0);
    buckets := seq(shards, _ => []);
    a := [];
    HeldEmpty(buckets);
    for k := 0 to |weighted|
      invariant Placed(weighted[..k], a, shards, loads, buckets)
    {
      ghost var placed := weighted[..k];
      assert weighted[..k + 1] == placed + [weighted[k]];
      var i := LeastLoadedShard(loads);
      PlaceOne(placed, a, shards, loads, buckets, weighted[k], i);
      loads := loads[i := loads[i] + weighted[k].weight];
      buckets := buckets[i := buckets[i] + [weighted[k].test]];
      a := a + [i];
    }
    assert weighted[..|weighted|] == weighted;
  }

  // What the shards take.

  /** What the tests of a bucket take together: each its recorded duration, or `m` without
      one. */
  ghost function TimeOf(bucket: seq<Test>, durations: map<Test, real>, m: real): real {
    if bucket == [] then 0.0
    else
      var t := bucket[|bucket| - 1];
      TimeOf(bucket[..|bucket| - 1], durations, m) + if t in durations then durations[t] else m
  }

  /** What the listed tests take, one by one. */
  ghost function Times(tests: seq<Test>, durations: map<Test, real>, m: real): (times: seq<real>)
    ensures |times| == |tests|
    ensures forall k :: 0 <= k < |tests| ==> times[k] == if tests[k] in durations then durations[tests[k]] else m
  {
    seq(|tests|, k requires 0 <= k < |tests| => if tests[k] in durations then durations[tests[k]] else m)
  }

  /** The weights are the recorded durations, and `m` where there is none. */
  ghost predicate WeighedBy(order: seq<Weighted>, durations: map<Test, real>, m: real) {
    forall k :: 0 <= k < |order| ==>
      order[k].weight == if order[k].test in durations then durations[order[k].test] else m
  }

  lemma {:induction false} LoadIsTime(order: seq<Weighted>, a: seq<nat>, i: nat, durations: map<Test, real>, m: real)
    requires |order| == |a| && WeighedBy(order, durations, m)
    ensures Load(Weights(order), a, i) == TimeOf(Bucket(order, a, i), durations, m)
  {
    if order != [] {
      var k := |order| - 1;
      assert WeighedBy(order[..k], durations, m);
      LoadIsTime(order[..k], a[..k], i, durations, m);
      assert Weights(order)[..k] == Weights(order[..k]);
      var bucket := Bucket(order[..k], a[..k], i);
      if a[k] == i {
        assert Bucket(order, a, i)[..|bucket|] == bucket;
      } else {
        assert Bucket(order, a, i) == bucket;
      }
    }
  }

  lemma SortedIsWeighed(tests: seq<Test>, durations: map<Test, real>, m: real)
    ensures WeighedBy(SortOrdered(WeightedTests(tests, durations, m)), durations, m)
  {
    var listed := WeightedTests(tests, durations, m);
    var order := SortOrdered(listed);
    forall k | 0 <= k < |order|
      ensures order[k].weight == if order[k].test in durations then durations[order[k].test] else m
    {
      assert order[k] in multiset(listed);
    }
  }

  /** Every listed test lands in exactly one bucket (counting repetitions). The tests are placed
      in decreasing order of weight, ties by rank, each on the first least-loaded shard. Each
      load is what the tests of its bucket take, a test without history counting as the median
      of the others. For every non-negative history the loads are near-optimal among all ways to
      spread these times. */
  method Partition(tests: seq<Test>, durations: map<Test, real>, shards: nat)
    returns (buckets: seq<seq<Test>>, loads: seq<real>, ghost order: seq<Weighted>, ghost a: seq<nat>)
    requires shards > 0
    ensures order == SortOrdered(WeightedTests(tests, durations, Fallback(tests, durations)))
    ensures Placed(order, a, shards, loads, buckets)
    ensures Held(buckets) == multiset(tests)
    ensures forall j, k :: 0 <= j < k < |order| ==>
              order[j].weight > order[k].weight || (order[j].weight == order[k].weight && order[j].test <= order[k].test)
    ensures forall i :: 0 <= i < shards ==> loads[i] == TimeOf(buckets[i], durations, Fallback(tests, durations))
    ensures NonNegativeDurations(durations) ==> NearOptimal(Times(tests, durations, Fallback(tests, durations)), loads)
  {
    var listed := WeightedTests(tests, durations, Fallback(tests, durations));
    var weighted := SortOrdered(listed);
    order := weighted;
    buckets, loads, a := PlaceAll(weighted, shards);
    SortTests(listed);
    assert Tests(listed) == tests;
    OrderedThroughout(order);
    SortedIsWeighed(tests, durations, Fallback(tests, durations));
    forall i | 0 <= i < shards ensures loads[i] == TimeOf(buckets[i], durations, Fallback(tests, durations)) {
      LoadIsTime(order, a, i, durations, Fallback(tests, durations));
    }
    if NonNegativeDurations(durations) {
      PartitionNearOptimal(tests, durations, order, a, shards, loads, buckets);
    }
  }

  // What any assignment can achieve. `m` shards, every load at most `T`.

  ghost function SumLoads(ws: seq<real>, a: seq<nat>, m: nat): real
    requires |ws| == |a|
  {
    if m == 0 then 0.0 else SumLoads(ws, a, m - 1) + Load(ws, a, m - 1)
  }

  lemma {:induction false} SumLoadsSnoc(ws: seq<real>, a: seq<nat>, m: nat)
    requires |ws| == |a| && ws != []
    ensures var k := |ws| - 1;
            SumLoads(ws, a, m) == SumLoads(ws[..k], a[..k], m) + (if a[k] < m then ws[k] else 0.0)
    decreases m
  {
    if m > 0 {
      SumLoadsSnoc(ws, a, m - 1);
    }
  }

  lemma {:induction false} SumLoadsEmpty(a: seq<nat>, m: nat)
    requires a == []
    ensures SumLoads([], a, m) == 0.0
  {
    if m > 0 {
      SumLoadsEmpty(a, m - 1);
    }
  }

  /** Shards partition the work: the loads add up to the total weight. */
  lemma {:induction false} LoadsAddUp(ws: seq<real>, a: seq<nat>, m: nat)
    requires |ws| == |a| && IsAssignment(a, m)
    ensures SumLoads(ws, a, m) == Total(ws)
  {
    if ws == [] {
      SumLoadsEmpty(a, m);
    } else {
      var k := |ws| - 1;
      LoadsAddUp(ws[..k], a[..k], m);
      SumLoadsSnoc(ws, a, m);
    }
  }

  ghost predicate AllLoadsAtMost(ws: seq<real>, a: seq<nat>, m: nat, bound: real)
    requires |ws| == |a|
  {
    forall i :: 0 <= i < m ==> Load(ws, a, i) <= bound
  }

  ghost predicate AllLoadsAtLeast(ws: seq<real>, a: seq<nat>, m: nat, bound: real)
    requires |ws| == |a|
  {
    forall i :: 0 <= i < m ==> bound <= Load(ws, a, i)
  }

  lemma {:induction false} SumAtMost(ws: seq<real>, a: seq<nat>, m: nat, bound: real)
    requires |ws| == |a| && AllLoadsAtMost(ws, a, m, bound)
    ensures SumLoads(ws, a, m) <= m as real * bound
  {
    if m > 0 {
      SumAtMost(ws, a, m - 1, bound);
    }
  }

  lemma {:induction false} SumAtLeast(ws: seq<real>, a: seq<nat>, m: nat, bound: real)
    requires |ws| == |a| && AllLoadsAtLeast(ws, a, m, bound)
    ensures m as real * bound <= SumLoads(ws, a, m)
  {
    if m > 0 {
      SumAtLeast(ws, a, m - 1, bound);
    }
  }

  lemma {:induction false} GreedyIsAssignment(ws: seq<real>, a: seq<nat>, m: nat)
    requires |ws| == |a| && Greedy(ws, a, m)
    ensures IsAssignment(a, m)
  {
    if ws != [] {
      var k := |ws| - 1;
      GreedyIsAssignment(ws[..k], a[..k], m);
      assert forall j :: 0 <= j < k ==> a[j] == a[..k][j];
    }
  }

  lemma {:induction false} LoadNonNegative(ws: seq<real>, a: seq<nat>, i: nat)
    requires |ws| == |a| && NonNegative(ws)
    ensures 0.0 <= Load(ws, a, i)
  {
    if ws != [] {
      LoadNonNegative(ws[..|ws| - 1], a[..|ws| - 1], i);
    }
  }

  /** Any two shards' loads differ by at most the largest weight. */
  lemma {:induction false} LoadsAreClose(ws: seq<real>, a: seq<nat>, m: nat, largest: real, i: nat, j: nat)
    requires |ws| == |a| && Greedy(ws, a, m) && NonNegative(ws)
    requires 0.0 <= largest && forall k :: 0 <= k < |ws| ==> ws[k] <= largest
    requires i < m && j < m
    ensures Load(ws, a, i) - Load(ws, a, j) <= largest
  {
    if ws != [] {
      var k := |ws| - 1;
      LoadsAreClose(ws[..k], a[..k], m, largest, i, j);
      assert LeastLoaded(ws[..k], a[..k], a[k], j);
    }
  }

  // The last test of a shard decides its load.

  /** If the last test went to shard `i`, its earlier load was at most the average. */
  lemma LeastIsBelowAverage(ws: seq<real>, a: seq<nat>, m: nat)
    requires |ws| == |a| && ws != [] && Greedy(ws, a, m)
    ensures var k := |ws| - 1; m as real * Load(ws[..k], a[..k], a[k]) <= Total(ws[..k])
  {
    var k := |ws| - 1;
    var least := Load(ws[..k], a[..k], a[k]);
    forall i | 0 <= i < m ensures least <= Load(ws[..k], a[..k], i) {
      assert LeastLoaded(ws[..k], a[..k], a[k], i);
    }
    SumAtLeast(ws[..k], a[..k], m, least);
    GreedyIsAssignment(ws[..k], a[..k], m);
    LoadsAddUp(ws[..k], a[..k], m);
  }

  /** Dropping the last test only lowers loads. */
  lemma PrefixAtMost(ws: seq<real>, b: seq<nat>, m: nat, bound: real)
    requires |ws| == |b| && ws != [] && NonNegative(ws) && IsAssignment(b, m)
    requires AllLoadsAtMost(ws, b, m, bound)
    ensures var k := |ws| - 1; AllLoadsAtMost(ws[..k], b[..k], m, bound)
  {
    var k := |ws| - 1;
    forall i | 0 <= i < m ensures Load(ws[..k], b[..k], i) <= bound {
      assert Load(ws, b, i) <= bound;
    }
  }

  /** The shard holding the last test of `b` shows that test's weight is at most the bound. */
  lemma LastWeightAtMost(ws: seq<real>, b: seq<nat>, m: nat, bound: real)
    requires |ws| == |b| && ws != [] && NonNegative(ws) && IsAssignment(b, m)
    requires AllLoadsAtMost(ws, b, m, bound)
    ensures ws[|ws| - 1] <= bound
  {
    var k := |ws| - 1;
    assert Load(ws, b, b[k]) <= bound;
    LoadNonNegative(ws[..k], b[..k], b[k]);
  }

  /** With `w` the last weight and `L` the load of its shard:
      m * L <= m * T + (m - 1) * w. */
  lemma LastShardLoad(ws: seq<real>, a: seq<nat>, b: seq<nat>, m: nat, T: real)
    requires |ws| == |a| == |b| && ws != [] && NonNegative(ws)
    requires Greedy(ws, a, m) && IsAssignment(b, m) && AllLoadsAtMost(ws, b, m, T)
    ensures var k := |ws| - 1;
            m as real * Load(ws, a, a[k]) <= m as real * T + (m as real - 1.0) * ws[k]
  {
    var k, M := |ws| - 1, m as real;
    var before := Load(ws[..k], a[..k], a[k]);
    LeastIsBelowAverage(ws, a, m);
    LoadsAddUp(ws, b, m);
    SumAtMost(ws, b, m, T);
    assert M * (before + ws[k]) == M * before + M * ws[k];
    assert Total(ws) == Total(ws[..k]) + ws[k];
  }

  /** Graham's bound, for any order of the tests: no shard exceeds (2 - 1/m) times the
      makespan of any other assignment. Written without division. */
  lemma {:induction false} GreedyWithinTwice(ws: seq<real>, a: seq<nat>, b: seq<nat>, m: nat, T: real, i: nat)
    requires |ws| == |a| == |b| && NonNegative(ws) && m > 0 && i < m
    requires Greedy(ws, a, m) && IsAssignment(b, m) && AllLoadsAtMost(ws, b, m, T)
    ensures m as real * Load(ws, a, i) <= (2.0 * m as real - 1.0) * T
  {
    var M := m as real;
    if ws == [] {
      assert Load(ws, b, 0) <= T;
      ScaleMono(2.0 * M - 1.0, 0.0, T);
    } else {
      var k := |ws| - 1;
      if a[k] == i {
        LastShardLoad(ws, a, b, m, T);
        LastWeightAtMost(ws, b, m, T);
        TwiceBound(M, T, Load(ws, a, i), ws[k]);
      } else {
        PrefixAtMost(ws, b, m, T);
        assert IsAssignment(b[..k], m);
        GreedyWithinTwice(ws[..k], a[..k], b[..k], m, T, i);
      }
    }
  }

  lemma TwiceBound(M: real, T: real, load: real, w: real)
    requires M >= 1.0 && w <= T && M * load <= M * T + (M - 1.0) * w
    ensures M * load <= (2.0 * M - 1.0) * T
  {
    ScaleMono(M - 1.0, w, T);
    assert M * T + (M - 1.0) * T == (2.0 * M - 1.0) * T;
  }

  /** `load` is at most (4/3 - 1/(3m)) times `T`. */
  ghost predicate AtMostFourThirds(m: nat, load: real, T: real) {
    3.0 * m as real * load <= (4.0 * m as real - 1.0) * T
  }

  lemma FourThirdsOfLarge(m: nat, T: real, load: real)
    requires m > 0 && 0.0 <= T && load <= T
    ensures AtMostFourThirds(m, load, T)
  {
    var M := m as real;
    ScaleMono(3.0 * M, load, T);
    ScaleMono(T, 3.0 * M, 4.0 * M - 1.0);
    assert T * (3.0 * M) == 3.0 * M * T && T * (4.0 * M - 1.0) == (4.0 * M - 1.0) * T;
  }

  lemma FourThirdsOfSmall(m: nat, T: real, load: real, w: real)
    requires m > 0 && 3.0 * w <= T && m as real * load <= m as real * T + (m as real - 1.0) * w
    ensures AtMostFourThirds(m, load, T)
  {
    var M := m as real;
    ScaleMono(M - 1.0, 3.0 * w, T);
    assert 3.0 * (M * T + (M - 1.0) * w) == 3.0 * M * T + (M - 1.0) * (3.0 * w);
    assert 3.0 * M * T + (M - 1.0) * T == (4.0 * M - 1.0) * T;
  }

  lemma ScaleMono(c: real, x: real, y: real)
    requires 0.0 <= c && x <= y
    ensures c * x <= c * y
  {
  }

  // The decreasing order. When the last weight w exceeds T/3, no shard of an assignment
  // within T holds more than two tests; the counting below shows greedy then stays within T.

  /** 2 for a test that fits beside no other, 1 for the rest. */
  ghost function Size(x: real, w: real, T: real): real {
    if x > T - w then 2.0 else 1.0
  }

  ghost function Sizes(ws: seq<real>, w: real, T: real): (cs: seq<real>)
    ensures |cs| == |ws|
    ensures forall k :: 0 <= k < |cs| ==> cs[k] == Size(ws[k], w, T)
  {
    seq(|ws|, k requires 0 <= k < |ws| => Size(ws[k], w, T))
  }

  /** Within `T`, a shard holds total size at most 2. */
  lemma {:induction false} SizeFromLoad(ws: seq<real>, a: seq<nat>, i: nat, w: real, T: real)
    requires |ws| == |a| && 3.0 * w > T && 0.0 <= w
    requires forall k :: 0 <= k < |ws| ==> w <= ws[k]
    ensures var c := Load(Sizes(ws, w, T), a, i);
            && (c == 0.0 || c >= 1.0) && Load(ws, a, i) >= 0.0 && (c > 0.0 ==> Load(ws, a, i) >= w)
            && (c < 2.0 ==> c <= 1.0) && (c >= 2.0 ==> Load(ws, a, i) > T - w)
            && (c > 2.0 ==> Load(ws, a, i) > T)
  {
    if ws != [] {
      var k := |ws| - 1;
      SizeFromLoad(ws[..k], a[..k], i, w, T);
      assert Sizes(ws, w, T)[..k] == Sizes(ws[..k], w, T);
    }
  }

  /** A shard loaded beyond `T - w` holds total size at least 2. */
  lemma {:induction false} LoadFromSize(ws: seq<real>, a: seq<nat>, i: nat, w: real, T: real)
    requires |ws| == |a| && 0.0 <= w <= T
    requires forall k :: 0 <= k < |ws| ==> w <= ws[k]
    ensures var c := Load(Sizes(ws, w, T), a, i);
            && (c == 0.0 || c >= 1.0) && (c == 0.0 ==> Load(ws, a, i) == 0.0)
            && (c < 2.0 ==> c <= 1.0 && Load(ws, a, i) <= T - w)
  {
    if ws != [] {
      var k := |ws| - 1;
      LoadFromSize(ws[..k], a[..k], i, w, T);
      assert Sizes(ws, w, T)[..k] == Sizes(ws[..k], w, T);
    }
  }

  /** If the last and smallest weight exceeds a third of `T`, its shard stays within `T`. */
  lemma LargeLastFits(ws: seq<real>, a: seq<nat>, b: seq<nat>, m: nat, T: real)
    requires |ws| == |a| == |b| && ws != [] && NonNegative(ws) && m > 0
    requires Greedy(ws, a, m) && IsAssignment(b, m) && AllLoadsAtMost(ws, b, m, T)
    requires forall k :: 0 <= k < |ws| ==> ws[|ws| - 1] <= ws[k]
    requires 3.0 * ws[|ws| - 1] > T
    ensures Load(ws, a, a[|ws| - 1]) <= T
  {
    var k := |ws| - 1;
    var w := ws[k];
    var cs := Sizes(ws, w, T);
    LastWeightAtMost(ws, b, m, T);
    forall i | 0 <= i < m ensures Load(cs, b, i) <= 2.0 {
      SizeFromLoad(ws, b, i, w, T);
      assert Load(ws, b, i) <= T;
    }
    SumAtMost(cs, b, m, 2.0);
    LoadsAddUp(cs, b, m);
    if Load(ws, a, a[k]) > T {
      LargeLastCount(ws, a, m, T);
    }
  }

  /** If every shard is already beyond `T - w`, the sizes placed exceed 2 per shard. */
  lemma LargeLastCount(ws: seq<real>, a: seq<nat>, m: nat, T: real)
    requires |ws| == |a| && ws != [] && NonNegative(ws)
    requires Greedy(ws, a, m) && ws[|ws| - 1] <= T
    requires forall k :: 0 <= k < |ws| ==> ws[|ws| - 1] <= ws[k]
    requires Load(ws, a, a[|ws| - 1]) > T
    ensures Total(Sizes(ws, ws[|ws| - 1], T)) > m as real * 2.0
  {
    var k := |ws| - 1;
    var w := ws[k];
    var cs := Sizes(ws[..k], w, T);
    forall i | 0 <= i < m ensures 2.0 <= Load(cs, a[..k], i) {
      assert LeastLoaded(ws[..k], a[..k], a[k], i);
      LoadFromSize(ws[..k], a[..k], i, w, T);
    }
    SumAtLeast(cs, a[..k], m, 2.0);
    GreedyIsAssignment(ws[..k], a[..k], m);
    LoadsAddUp(cs, a[..k], m);
    assert Sizes(ws, w, T)[..k] == cs;
  }

  ghost predicate Decreasing(ws: seq<real>) {
    forall i, j :: 0 <= i < j < |ws| ==> ws[j] <= ws[i]
  }

  lemma {:induction false} OrderedDecreases(order: seq<Weighted>)
    requires Ordered(order)
    ensures Decreasing(Weights(order))
  {
    if order != [] {
      var k := |order| - 1;
      OrderedDecreases(order[..k]);
      assert Weights(order)[..k] == Weights(order[..k]);
      forall i | 0 <= i < k ensures order[k].weight <= order[i].weight {
        assert Before(order[k - 1], order[k]);
        assert i < k - 1 ==> Weights(order[..k])[k - 1] <= Weights(order[..k])[i];
      }
      assert forall i, j :: 0 <= i < j < k ==> Weights(order[..k])[j] <= Weights(order[..k])[i];
    }
  }

  lemma {:induction false} OrderedThroughout(order: seq<Weighted>)
    requires Ordered(order)
    ensures forall j, k :: 0 <= j < k < |order| ==>
              order[j].weight > order[k].weight || (order[j].weight == order[k].weight && order[j].test <= order[k].test)
  {
    if order != [] {
      var n := |order| - 1;
      OrderedThroughout(order[..n]);
      if n > 0 {
        assert Before(order[n - 1], order[n]) && order[..n][n - 1] == order[n - 1];
      }
      assert forall j :: 0 <= j < n ==> order[..n][j] == order[j];
    }
  }

  // The median.

  function Count(xs: seq<Weighted>, p: Weighted -> bool): nat {
    if xs == [] then 0 else Count(xs[..|xs| - 1], p) + if p(xs[|xs| - 1]) then 1 else 0
  }

  lemma {:induction false} CountSplits(xs: seq<Weighted>, ys: seq<Weighted>, p: Weighted -> bool)
    ensures Count(xs + ys, p) == Count(xs, p) + Count(ys, p)
  {
    if ys == [] {
      assert xs + ys == xs;
    } else {
      assert (xs + ys)[..|xs + ys| - 1] == xs + ys[..|ys| - 1];
      CountSplits(xs, ys[..|ys| - 1], p);
    }
  }

  /** At least as many as in a stretch throughout which `p` holds. */
  lemma {:induction false} CountStretch(xs: seq<Weighted>, from: nat, to: nat, p: Weighted -> bool)
    requires from <= to <= |xs| && forall i :: from <= i < to ==> p(xs[i])
    ensures Count(xs, p) >= to - from
    decreases |xs|
  {
    if xs != [] {
      var n := |xs| - 1;
      if to == |xs| {
        CountStretch(xs[..n], if from <= n then from else n, n, p);
      } else {
        CountStretch(xs[..n], from, to, p);
      }
    }
  }

  lemma CountWithout(ys: seq<Weighted>, k: nat, p: Weighted -> bool)
    requires k < |ys|
    ensures Count(ys, p) == Count(ys[..k] + ys[k + 1..], p) + if p(ys[k]) then 1 else 0
  {
    CountSplits(ys[..k], ys[k + 1..], p);
    CountSplits(ys[..k + 1], ys[k + 1..], p);
    assert ys == ys[..k + 1] + ys[k + 1..];
    assert ys[..k + 1][..k] == ys[..k];
  }

  lemma {:induction false} CountPermutes(xs: seq<Weighted>, ys: seq<Weighted>, p: Weighted -> bool)
    requires multiset(xs) == multiset(ys)
    ensures Count(xs, p) == Count(ys, p)
    decreases |xs|
  {
    if xs == [] {
      assert |ys| == |multiset(ys)| == 0;
    } else {
      var k := LastHasPlace(xs, ys);
      CountPermutes(xs[..|xs| - 1], ys[..k] + ys[k + 1..], p);
      CountWithout(ys, k, p);
    }
  }

  function AtMost(m: real): Weighted -> bool {
    (x: Weighted) => x.weight <= m
  }

  function AtLeast(m: real): Weighted -> bool {
    (x: Weighted) => x.weight >= m
  }

  /** The median really is one: at least half of the known durations do not exceed it, and at
      least half do not fall below it. */
  lemma MedianSplits(known: seq<Weighted>)
    requires known != []
    ensures 2 * Count(known, AtMost(Median(known))) >= |known|
    ensures 2 * Count(known, AtLeast(Median(known))) >= |known|
  {
    var s, m := SortOrdered(known), Median(known);
    var h := |s| / 2;
    OrderedDecreases(s);
    if |s| % 2 == 0 {
      assert Weights(s)[h] <= Weights(s)[h - 1];
    }
    TailCounts(s, m, h);
    HeadCounts(s, m, if |s| % 2 == 1 then h + 1 else h);
    CountPermutes(s, known, AtMost(m));
    CountPermutes(s, known, AtLeast(m));
  }

  /** The lower and the upper middle of the known durations. */
  ghost predicate LowerMiddle(known: seq<Weighted>, x: real) {
    2 * Count(known, AtMost(x)) >= |known| && 2 * Count(known, AtLeast(x)) > |known|
  }

  ghost predicate UpperMiddle(known: seq<Weighted>, x: real) {
    2 * Count(known, AtLeast(x)) >= |known| && 2 * Count(known, AtMost(x)) > |known|
  }

  /** Halfway between the two middles, which coincide for an odd number of durations. */
  ghost predicate IsMedian(known: seq<Weighted>, m: real) {
    exists lo, hi :: LowerMiddle(known, lo) && UpperMiddle(known, hi) && m == (lo + hi) / 2.0
  }

  lemma {:induction false} CountDisjoint(xs: seq<Weighted>, x: real, y: real)
    requires x < y
    ensures Count(xs, AtMost(x)) + Count(xs, AtLeast(y)) <= |xs|
  {
    if xs != [] {
      CountDisjoint(xs[..|xs| - 1], x, y);
    }
  }

  /** There is only one median. */
  lemma MedianIsUnique(known: seq<Weighted>, m: real, m': real)
    requires IsMedian(known, m) && IsMedian(known, m')
    ensures m == m'
  {
    var lo, hi :| LowerMiddle(known, lo) && UpperMiddle(known, hi) && m == (lo + hi) / 2.0;
    var lo', hi' :| LowerMiddle(known, lo') && UpperMiddle(known, hi') && m' == (lo' + hi') / 2.0;
    if lo < lo' { CountDisjoint(known, lo, lo'); }
    if lo' < lo { CountDisjoint(known, lo', lo); }
    if hi < hi' { CountDisjoint(known, hi, hi'); }
    if hi' < hi { CountDisjoint(known, hi', hi); }
  }

  lemma MiddleOf(s: seq<Weighted>, known: seq<Weighted>, k: nat)
    requires Decreasing(Weights(s)) && multiset(s) == multiset(known) && k < |s|
    ensures Count(known, AtMost(s[k].weight)) >= |s| - k && Count(known, AtLeast(s[k].weight)) >= k + 1
  {
    TailCounts(s, s[k].weight, k);
    HeadCounts(s, s[k].weight, k + 1);
    CountPermutes(s, known, AtMost(s[k].weight));
    CountPermutes(s, known, AtLeast(s[k].weight));
  }

  /** `Median` computes it. */
  lemma MedianExactly(known: seq<Weighted>)
    requires known != []
    ensures IsMedian(known, Median(known))
  {
    var s := SortOrdered(known);
    var h := |s| / 2;
    OrderedDecreases(s);
    MiddleOf(s, known, h);
    if |s| % 2 == 1 {
      assert LowerMiddle(known, s[h].weight) && UpperMiddle(known, s[h].weight);
      assert Median(known) == (s[h].weight + s[h].weight) / 2.0;
    } else {
      MiddleOf(s, known, h - 1);
      assert LowerMiddle(known, s[h].weight) && UpperMiddle(known, s[h - 1].weight);
      assert Median(known) == (s[h].weight + s[h - 1].weight) / 2.0;
    }
  }

  /** The known durations are those of the listed tests that have one, repetitions included. */
  lemma {:induction false} KnownExactly(tests: seq<Test>, durations: map<Test, real>, t: Test)
    ensures multiset(Tests(Known(tests, durations)))[t] == if t in durations then multiset(tests)[t] else 0
  {
    if tests != [] {
      var n := |tests| - 1;
      KnownExactly(tests[..n], durations, t);
      assert tests == tests[..n] + [tests[n]];
      var rest := Known(tests[..n], durations);
      if tests[n] in durations {
        assert Tests(rest + [Weighted(durations[tests[n]], tests[n])]) == Tests(rest) + [tests[n]];
      }
    }
  }

  /** What a test without history counts for: 0.05 when no listed test has one, and otherwise
      the median of the durations that are known. */
  lemma FallbackExactly(tests: seq<Test>, durations: map<Test, real>)
    ensures if forall t :: t in tests ==> t !in durations then Fallback(tests, durations) == 0.05
            else IsMedian(Known(tests, durations), Fallback(tests, durations))
  {
    var known := Known(tests, durations);
    if known == [] {
      forall t | t in tests ensures t !in durations {
        KnownExactly(tests, durations, t);
        assert t in multiset(tests);
      }
    } else {
      MedianExactly(known);
      var t := known[0].test;
      KnownExactly(tests, durations, t);
      assert Tests(known)[0] == t && t in multiset(Tests(known));
      assert t in multiset(tests);
    }
  }

  lemma TailCounts(s: seq<Weighted>, m: real, h: nat)
    requires Decreasing(Weights(s)) && h < |s| && s[h].weight <= m
    ensures Count(s, AtMost(m)) >= |s| - h
  {
    forall i | h <= i < |s| ensures AtMost(m)(s[i]) {
      assert i == h || Weights(s)[i] <= Weights(s)[h];
    }
    CountStretch(s, h, |s|, AtMost(m));
  }

  lemma HeadCounts(s: seq<Weighted>, m: real, k: nat)
    requires Decreasing(Weights(s)) && 0 < k <= |s| && s[k - 1].weight >= m
    ensures Count(s, AtLeast(m)) >= k
  {
    forall i | 0 <= i < k ensures AtLeast(m)(s[i]) {
      assert i == k - 1 || Weights(s)[k - 1] <= Weights(s)[i];
    }
    CountStretch(s, 0, k, AtLeast(m));
  }

  ghost predicate NonNegativeDurations(durations: map<Test, real>) {
    forall t :: t in durations ==> durations[t] >= 0.0
  }

  /** A test case of a report; the time is missing when it does not parse. */
  datatype Case = Case(test: Test, time: Option<real>)

  /** The worst time per test among the first `n` cases, never below zero. */
  ghost predicate WorstTimes(cases: seq<Case>, n: nat, durations: map<Test, real>)
    requires n <= |cases|
  {
    && (forall i :: 0 <= i < n && cases[i].time.Some? ==>
          cases[i].test in durations && cases[i].time.value <= durations[cases[i].test])
    && (forall t :: t in durations ==>
          && durations[t] >= 0.0
          && exists i :: 0 <= i < n && cases[i].test == t && cases[i].time.Some?
                         && (durations[t] == cases[i].time.value || durations[t] == 0.0))
  }

  /** `load_durations` on the cases of all readable reports. */
  method LoadDurations(cases: seq<Case>) returns (durations: map<Test, real>)
    ensures NonNegativeDurations(durations) && WorstTimes(cases, |cases|, durations)
  {
    durations := map[];
    for n := 0 to |cases|
      invariant WorstTimes(cases, n, durations)
    {
      if cases[n].time.None? {
        continue;
      }
      var test, t := cases[n].test, cases[n].time.value;
      var before := if test in durations then durations[test] else 0.0;
      durations := durations[test := if before > t then before else t];
    }
  }

  lemma WeightsNonNegative(tests: seq<Test>, durations: map<Test, real>)
    requires NonNegativeDurations(durations)
    ensures NonNegative(Weights(SortOrdered(WeightedTests(tests, durations, Fallback(tests, durations)))))
  {
    var listed := WeightedTests(tests, durations, Fallback(tests, durations));
    var order := SortOrdered(listed);
    assert Fallback(tests, durations) >= 0.0;
    forall k | 0 <= k < |order| ensures order[k].weight >= 0.0 {
      assert order[k] in multiset(listed);
    }
  }

  /** Graham's bound for the decreasing order: no shard exceeds (4/3 - 1/(3m)) times the
      makespan of any other assignment. Written without division. */
  lemma {:induction false} LptWithinFourThirds(ws: seq<real>, a: seq<nat>, b: seq<nat>, m: nat, T: real, i: nat)
    requires |ws| == |a| == |b| && NonNegative(ws) && Decreasing(ws) && m > 0 && i < m
    requires Greedy(ws, a, m) && IsAssignment(b, m) && AllLoadsAtMost(ws, b, m, T)
    ensures AtMostFourThirds(m, Load(ws, a, i), T)
  {
    var M := m as real;
    if ws == [] {
      assert Load(ws, b, 0) <= T;
      ScaleMono(4.0 * M - 1.0, 0.0, T);
    } else {
      var k := |ws| - 1;
      if a[k] != i {
        PrefixAtMost(ws, b, m, T);
        assert IsAssignment(b[..k], m);
        LptWithinFourThirds(ws[..k], a[..k], b[..k], m, T, i);
      } else {
        LptLastShard(ws, a, b, m, T);
      }
    }
  }

  /** The bound for the shard that received the last and smallest weight. */
  lemma LptLastShard(ws: seq<real>, a: seq<nat>, b: seq<nat>, m: nat, T: real)
    requires |ws| == |a| == |b| && ws != [] && NonNegative(ws) && Decreasing(ws) && m > 0
    requires Greedy(ws, a, m) && IsAssignment(b, m) && AllLoadsAtMost(ws, b, m, T)
    ensures AtMostFourThirds(m, Load(ws, a, a[|ws| - 1]), T)
  {
    var k := |ws| - 1;
    var load := Load(ws, a, a[k]);
    LastWeightAtMost(ws, b, m, T);
    if 3.0 * ws[k] > T {
      LargeLastFits(ws, a, b, m, T);
      FourThirdsOfLarge(m, T, load);
    } else {
      LastShardLoad(ws, a, b, m, T);
      FourThirdsOfSmall(m, T, load, ws[k]);
    }
  }

  /** `load` is at most (2 - 1/m) and at most (4/3 - 1/(3m)) times `T`. */
  ghost predicate WithinBounds(m: nat, load: real, T: real) {
    && m as real * load <= (2.0 * m as real - 1.0) * T
    && AtMostFourThirds(m, load, T)
  }

  /** `loads` is within both bounds of every other way to spread the weights `ws`. */
  ghost predicate NearOptimal(ws: seq<real>, loads: seq<real>) {
    forall b: seq<nat>, T: real, i: nat ::
      |b| == |ws| && IsAssignment(b, |loads|) && AllLoadsAtMost(ws, b, |loads|, T) && i < |loads|
      ==> WithinBounds(|loads|, loads[i], T)
  }

  lemma GreedyNearOptimal(ws: seq<real>, a: seq<nat>, loads: seq<real>)
    requires |ws| == |a| && GreedyLoads(ws, a, loads) && NonNegative(ws) && Decreasing(ws)
    ensures NearOptimal(ws, loads)
  {
    var m := |loads|;
    forall b: seq<nat>, T: real, i: nat
      | |b| == |ws| && IsAssignment(b, m) && AllLoadsAtMost(ws, b, m, T) && i < m
      ensures WithinBounds(m, loads[i], T)
    {
      GreedyWithinTwice(ws, a, b, m, T, i);
      LptWithinFourThirds(ws, a, b, m, T, i);
    }
  }

  // Any order of the weights gives the same choice of assignments.

  lemma {:induction false} LoadSplits(ws: seq<real>, a: seq<nat>, vs: seq<real>, b: seq<nat>, i: nat)
    requires |ws| == |a| && |vs| == |b|
    ensures Load(ws + vs, a + b, i) == Load(ws, a, i) + Load(vs, b, i)
  {
    if vs == [] {
      assert ws + vs == ws && a + b == a;
    } else {
      var k := |vs| - 1;
      assert (ws + vs)[..|ws + vs| - 1] == ws + vs[..k] && (a + b)[..|ws + vs| - 1] == a + b[..k];
      LoadSplits(ws, a, vs[..k], b[..k], i);
    }
  }

  lemma LoadWithout(vs: seq<real>, b: seq<nat>, k: nat, i: nat)
    requires |vs| == |b| && k < |vs|
    ensures Load(vs, b, i) == Load(vs[..k] + vs[k + 1..], b[..k] + b[k + 1..], i) + if b[k] == i then vs[k] else 0.0
  {
    LoadSplits(vs[..k], b[..k], vs[k + 1..], b[k + 1..], i);
    LoadSplits(vs[..k + 1], b[..k + 1], vs[k + 1..], b[k + 1..], i);
    assert vs == vs[..k + 1] + vs[k + 1..] && b == b[..k + 1] + b[k + 1..];
    assert vs[..k + 1][..k] == vs[..k] && b[..k + 1][..k] == b[..k];
  }

  /** An assignment of some weights, carried over to a reordering of them. */
  lemma {:induction false} Reassign(ws: seq<real>, vs: seq<real>, b: seq<nat>, m: nat) returns (c: seq<nat>)
    requires multiset(ws) == multiset(vs) && |vs| == |b| && IsAssignment(b, m)
    ensures |c| == |ws| && IsAssignment(c, m)
    ensures forall i: nat :: Load(ws, c, i) == Load(vs, b, i)
    decreases |ws|
  {
    if ws == [] {
      assert |vs| == |multiset(vs)| == 0;
      c := [];
    } else {
      var n := |ws| - 1;
      var k := LastHasPlace(ws, vs);
      assert IsAssignment(b[..k] + b[k + 1..], m);
      var front := Reassign(ws[..n], vs[..k] + vs[k + 1..], b[..k] + b[k + 1..], m);
      c := front + [b[k]];
      forall i: nat ensures Load(ws, c, i) == Load(vs, b, i) {
        LoadWithout(vs, b, k, i);
        assert c[..n] == front;
      }
    }
  }

  lemma ReorderedNearOptimal(ws: seq<real>, vs: seq<real>, loads: seq<real>)
    requires multiset(ws) == multiset(vs) && NearOptimal(ws, loads)
    ensures NearOptimal(vs, loads)
  {
    var m := |loads|;
    forall b: seq<nat>, T: real, i: nat
      | |b| == |vs| && IsAssignment(b, m) && AllLoadsAtMost(vs, b, m, T) && i < m
      ensures WithinBounds(m, loads[i], T)
    {
      var c := Reassign(ws, vs, b, m);
      assert AllLoadsAtMost(ws, c, m, T);
    }
  }

  lemma {:induction false} WeightsPermute(xs: seq<Weighted>, ys: seq<Weighted>)
    requires multiset(xs) == multiset(ys)
    ensures multiset(Weights(xs)) == multiset(Weights(ys))
    decreases |xs|
  {
    if xs == [] {
      assert |ys| == |multiset(ys)| == 0;
    } else {
      var n := |xs| - 1;
      var k := LastHasPlace(xs, ys);
      var rest := ys[..k] + ys[k + 1..];
      WeightsPermute(xs[..n], rest);
      assert Weights(xs) == Weights(xs[..n]) + [xs[n].weight];
      assert Weights(rest) == Weights(ys)[..k] + Weights(ys)[k + 1..];
      RemovalTakesOne(Weights(ys), k);
      assert Weights(ys)[k] in multiset(Weights(ys));
    }
  }

  /** The shards `Partition` returns are within both bounds for every test list and every
      non-negative history. */
  lemma PartitionNearOptimal(tests: seq<Test>, durations: map<Test, real>, order: seq<Weighted>, a: seq<nat>,
                             shards: nat, loads: seq<real>, buckets: seq<seq<Test>>)
    requires NonNegativeDurations(durations)
    requires order == SortOrdered(WeightedTests(tests, durations, Fallback(tests, durations)))
    requires Placed(order, a, shards, loads, buckets)
    ensures NearOptimal(Times(tests, durations, Fallback(tests, durations)), loads)
  {
    OrderedDecreases(order);
    WeightsNonNegative(tests, durations);
    GreedyNearOptimal(Weights(order), a, loads);
    var listed := WeightedTests(tests, durations, Fallback(tests, durations));
    WeightsPermute(order, listed);
    assert Weights(listed) == Times(tests, durations, Fallback(tests, durations));
    ReorderedNearOptimal(Weights(order), Weights(listed), loads);
  }

  /** The second bound is attained: weights 3, 3, 2, 2, 2 on two shards. */
  lemma FourThirdsIsTight(ws: seq<real>, a: seq<nat>, b: seq<nat>)
    requires ws == [3.0, 3.0, 2.0, 2.0, 2.0] && a == [0, 1, 0, 1, 0] && b == [0, 0, 1, 1, 1]
    ensures Decreasing(ws) && Greedy(ws, a, 2)
    ensures AllLoadsAtMost(ws, b, 2, 6.0) && 3.0 * 2.0 * Load(ws, a, 0) == (4.0 * 2.0 - 1.0) * 6.0
  {
    var ws1, ws2, ws3, ws4 := [3.0], [3.0, 3.0], [3.0, 3.0, 2.0], [3.0, 3.0, 2.0, 2.0];
    assert ws[..4] == ws4 && ws4[..3] == ws3 && ws3[..2] == ws2 && ws2[..1] == ws1;
    assert a[..4] == [0, 1, 0, 1] && a[..4][..3] == [0, 1, 0] && a[..4][..3][..2] == [0, 1] && a[..4][..3][..2][..1] == [0];
    assert b[..4] == [0, 0, 1, 1] && b[..4][..3] == [0, 0, 1] && b[..4][..3][..2] == [0, 0] && b[..4][..3][..2][..1] == [0];
    assert Load(ws1, [0], 0) == 3.0 && Load(ws1, [0], 1) == 0.0;
    assert Load(ws2, [0, 1], 0) == 3.0 && Load(ws2, [0, 1], 1) == 3.0;
    assert Load(ws3, [0, 1, 0], 0) == 5.0 && Load(ws3, [0, 1, 0], 1) == 3.0;
    assert Load(ws4, [0, 1, 0, 1], 0) == 5.0 && Load(ws4, [0, 1, 0, 1], 1) == 5.0;
    assert Greedy(ws1, [0], 2);
    assert Greedy(ws2, [0, 1], 2);
    assert Greedy(ws3, [0, 1, 0], 2);
    assert Greedy(ws4, [0, 1, 0, 1], 2);
    assert Load(ws2, [0, 0], 0) == 6.0 && Load(ws2, [0, 0], 1) == 0.0;
    assert Load(ws3, [0, 0, 1], 0) == 6.0 && Load(ws3, [0, 0, 1], 1) == 2.0;
    assert Load(ws4, [0, 0, 1, 1], 0) == 6.0 && Load(ws4, [0, 0, 1, 1], 1) == 4.0;
  }
}
