/** The split-brain report: what each shard's probe says, what the aggregator concludes from
    the probes, and what the conclusion means. */
module SplitBrain {
  import opened Options
  import opened Tokens
  import opened Fingerprints

  // What a shard answers when it is called.

  datatype RiskScore = RiskScore(score: nat, timestamp: nat, confidence: nat)

  /** A call that returns a score, a value that does not decode, the contract's own
      "no score" error, or anything else. */
  datatype ScoreReply = Score(value: RiskScore) | Undecodable | NotFound | ScoreCallFailed

  datatype BoolReply = Answer(value: bool) | BoolCallFailed

  datatype Replies = Replies(
    gate: BoolReply,
    score: ScoreReply,
    stale: BoolReply,
    decay: Option<(nat, nat)>,
    staleness: Option<nat>,
    minConfidence: Option<nat>,
    consensus: Option<(nat, nat)>)

  /** `read_config_fingerprint`: all four reads or nothing. */
  function ReadFingerprint(r: Replies): Option<Fingerprint> {
    if r.decay.None? || r.staleness.None? || r.minConfidence.None? || r.consensus.None? then None
    else Some(Fingerprint(r.decay.value.0, r.decay.value.1, r.staleness.value, r.minConfidence.value,
                          r.consensus.value.0, r.consensus.value.1))
  }

  // Probes.

  datatype Probe = Unhealthy | Stale | Unavailable | Available(fingerprint: Fingerprint)

  function ProbeOf(healthy: bool, r: Replies): Probe {
    if !healthy then Unhealthy
    else if r.score.Undecodable? || r.score.ScoreCallFailed? then Unavailable
    else if r.score.Score? && r.stale.BoolCallFailed? then Unavailable
    else if r.score.Score? && r.stale.value then Stale
    else
      var fingerprint := ReadFingerprint(r);
      if fingerprint.None? then Unavailable else Available(fingerprint.value)
  }

  /** What each probe means. A shard is available exactly when it is marked healthy, its score
      call shows no fault, its score, if any, is not stale, and all four configuration reads
      answer; its fingerprint is what they answered. */
  lemma ProbeExactly(healthy: bool, r: Replies, f: Fingerprint)
    ensures var p := ProbeOf(healthy, r);
            && (p == Unhealthy <==> !healthy)
            && (p == Stale <==> healthy && r.score.Score? && r.stale == Answer(true))
            && (p == Available(f)
                <==> && healthy && (r.score.NotFound? || (r.score.Score? && r.stale == Answer(false)))
                     && r.decay == Some((f.decayNum, f.decayDen)) && r.staleness == Some(f.stalenessWindow)
                     && r.minConfidence == Some(f.minConfidence) && r.consensus == Some((f.consensusK, f.consensusEpsilon)))
  {
  }

  function IsHealthy(health: map<Address, bool>, shard: Address): bool {
    if shard in health then health[shard] else true
  }

  function Probes(shards: seq<Address>, health: map<Address, bool>, world: Address -> Replies): (ps: seq<Probe>)
    ensures |ps| == |shards|
    ensures forall i :: 0 <= i < |ps| ==> ps[i] == ProbeOf(IsHealthy(health, shards[i]), world(shards[i]))
  {
    seq(|shards|, i requires 0 <= i < |shards| => ProbeOf(IsHealthy(health, shards[i]), world(shards[i])))
  }

  /** How many shards gave the probe `p`. */
  function Times(ps: seq<Probe>, p: Probe): nat {
    multiset(ps)[p]
  }

  /** The fingerprints of the available shards, in shard order. */
  function FingerprintsOf(ps: seq<Probe>): seq<Fingerprint> {
    if ps == [] then []
    else
      var n := |ps| - 1;
      if ps[n].Available? then FingerprintsOf(ps[..n]) + [ps[n].fingerprint] else FingerprintsOf(ps[..n])
  }

  lemma {:induction false} FingerprintTally(ps: seq<Probe>, f: Fingerprint)
    ensures multiset(FingerprintsOf(ps))[f] == Times(ps, Available(f))
  {
    if ps != [] {
      var n := |ps| - 1;
      assert ps == ps[..n] + [ps[n]];
      FingerprintTally(ps[..n], f);
    }
  }

  /** Every shard is exactly one of unhealthy, stale, unavailable and available. */
  lemma {:induction false} ProbesAddUp(ps: seq<Probe>)
    ensures |FingerprintsOf(ps)| + Times(ps, Stale) + Times(ps, Unavailable) + Times(ps, Unhealthy) == |ps|
  {
    if ps != [] {
      var n := |ps| - 1;
      assert ps == ps[..n] + [ps[n]];
      ProbesAddUp(ps[..n]);
    }
  }

  // The report.

  datatype Status = NoShards | Aligned | Split | QuorumLost

  datatype ShardStatus = ShardAligned | ConfigMismatch | ShardUnavailable | ShardStale | ShardUnhealthy

  datatype Diagnostic = Diagnostic(shard: Address, status: ShardStatus, fingerprint: Option<Fingerprint>)

  datatype Report = Report(
    status: Status,
    canonical: Option<Fingerprint>,
    shardCount: nat,
    healthyCount: nat,
    availableCount: nat,
    staleCount: nat,
    unavailableCount: nat,
    mismatchCount: nat,
    quorumCount: nat,
    requiredQuorum: nat,
    diagnostics: seq<Diagnostic>)

  function DiagnosticOf(shard: Address, p: Probe, canonical: Option<Fingerprint>): Diagnostic {
    match p
    case Unhealthy => Diagnostic(shard, ShardUnhealthy, None)
    case Stale => Diagnostic(shard, ShardStale, None)
    case Unavailable => Diagnostic(shard, ShardUnavailable, None)
    case Available(f) =>
      Diagnostic(shard, if canonical.Some? && canonical.value != f then ConfigMismatch else ShardAligned, Some(f))
  }

  /** The tallies of the first `i` probes. */
  ghost predicate Tallied(shards: seq<Address>, ps: seq<Probe>, i: nat, diagnostics: seq<Diagnostic>,
                          fs: seq<Fingerprint>, healthy: int, stale: int, unavailable: int)
    requires i <= |ps| == |shards|
  {
    && |diagnostics| == i && (forall j :: 0 <= j < i ==> diagnostics[j] == DiagnosticOf(shards[j], ps[j], None))
    && fs == FingerprintsOf(ps[..i])
    && healthy == i - Times(ps[..i], Unhealthy)
    && stale == Times(ps[..i], Stale)
    && unavailable == Times(ps[..i], Unavailable)
  }

  lemma TalliedStep(shards: seq<Address>, ps: seq<Probe>, i: nat, diagnostics: seq<Diagnostic>,
                    fs: seq<Fingerprint>, healthy: int, stale: int, unavailable: int)
    requires i < |ps| == |shards| && Tallied(shards, ps, i, diagnostics, fs, healthy, stale, unavailable)
    ensures var p := ps[i];
            Tallied(shards, ps, i + 1, diagnostics + [DiagnosticOf(shards[i], p, None)],
                    if p.Available? then fs + [p.fingerprint] else fs,
                    if p.Unhealthy? then healthy else healthy + 1,
                    if p.Stale? then stale + 1 else stale,
                    if p.Unavailable? then unavailable + 1 else unavailable)
  {
    assert ps[..i + 1] == ps[..i] + [ps[i]] && ps[..i + 1][..i] == ps[..i];
  }

  /** What a report says of the probes: every counter counts what it is named after, every
      shard has its diagnostic in its place, the canonical fingerprint is canonical. */
  ghost predicate Reports(shards: seq<Address>, ps: seq<Probe>, r: Report) {
    && |shards| == |ps| == r.shardCount == |r.diagnostics|
    && r.healthyCount == |ps| - Times(ps, Unhealthy)
    && r.availableCount == |FingerprintsOf(ps)|
    && r.staleCount == Times(ps, Stale)
    && r.unavailableCount == Times(ps, Unavailable)
    && Canonical(multiset(FingerprintsOf(ps)), r.canonical, r.quorumCount)
    && r.mismatchCount == Disagreeing(FingerprintsOf(ps), r.canonical)
    && r.requiredQuorum == r.healthyCount / 2 + 1
    && (forall i :: 0 <= i < |ps| ==> r.diagnostics[i] == DiagnosticOf(shards[i], ps[i], r.canonical))
    && r.status == if |ps| == 0 then NoShards
                   else if r.quorumCount < r.requiredQuorum then QuorumLost
                   else if r.mismatchCount > 0 then Split
                   else Aligned
  }

  function Disagreeing(fs: seq<Fingerprint>, canonical: Option<Fingerprint>): nat {
    if fs == [] then 0
    else
      var n := |fs| - 1;
      Disagreeing(fs[..n], canonical) + if canonical.Some? && fs[n] != canonical.value then 1 else 0
  }

  lemma DisagreeingStep(ps: seq<Probe>, i: nat, canonical: Option<Fingerprint>)
    requires i < |ps|
    ensures Disagreeing(FingerprintsOf(ps[..i + 1]), canonical)
            == Disagreeing(FingerprintsOf(ps[..i]), canonical)
               + if ps[i].Available? && canonical.Some? && ps[i].fingerprint != canonical.value then 1 else 0
  {
    assert ps[..i + 1][..i] == ps[..i];
    var fs := FingerprintsOf(ps[..i]);
    if ps[i].Available? {
      assert (fs + [ps[i].fingerprint])[..|fs|] == fs;
    }
  }

  lemma {:induction false} DisagreeingIsTheRest(fs: seq<Fingerprint>, f: Fingerprint)
    ensures Disagreeing(fs, Some(f)) == |fs| - multiset(fs)[f]
  {
    if fs != [] {
      var n := |fs| - 1;
      assert fs == fs[..n] + [fs[n]];
      DisagreeingIsTheRest(fs[..n], f);
    }
  }

  // What the numbers mean.

  /** How many diagnostics have a status. */
  ghost function CountStatus(ds: seq<Diagnostic>, status: ShardStatus): nat {
    if ds == [] then 0
    else CountStatus(ds[..|ds| - 1], status) + if ds[|ds| - 1].status == status then 1 else 0
  }

  ghost predicate Diagnoses(shards: seq<Address>, ps: seq<Probe>, canonical: Option<Fingerprint>, ds: seq<Diagnostic>) {
    |ds| == |ps| == |shards| && forall i :: 0 <= i < |ps| ==> ds[i] == DiagnosticOf(shards[i], ps[i], canonical)
  }

  lemma {:induction false} StatusCounts(shards: seq<Address>, ps: seq<Probe>, canonical: Option<Fingerprint>, ds: seq<Diagnostic>)
    requires Diagnoses(shards, ps, canonical, ds)
    ensures CountStatus(ds, ShardUnhealthy) == Times(ps, Unhealthy)
    ensures CountStatus(ds, ShardStale) == Times(ps, Stale)
    ensures CountStatus(ds, ShardUnavailable) == Times(ps, Unavailable)
    decreases |ps|
  {
    if ps != [] {
      var n := |ps| - 1;
      assert Diagnoses(shards[..n], ps[..n], canonical, ds[..n]);
      StatusCounts(shards[..n], ps[..n], canonical, ds[..n]);
      assert ps == ps[..n] + [ps[n]];
    }
  }

  lemma {:induction false} AvailableCounts(shards: seq<Address>, ps: seq<Probe>, canonical: Option<Fingerprint>, ds: seq<Diagnostic>)
    requires Diagnoses(shards, ps, canonical, ds)
    ensures CountStatus(ds, ConfigMismatch) == Disagreeing(FingerprintsOf(ps), canonical)
    ensures CountStatus(ds, ShardAligned) == |FingerprintsOf(ps)| - Disagreeing(FingerprintsOf(ps), canonical)
    decreases |ps|
  {
    if ps != [] {
      var n := |ps| - 1;
      assert Diagnoses(shards[..n], ps[..n], canonical, ds[..n]);
      AvailableCounts(shards[..n], ps[..n], canonical, ds[..n]);
      DisagreeingStep(ps, n, canonical);
      assert ps[..n + 1] == ps;
    }
  }

  /** The report agrees with itself: each counter is the number of diagnostics of its kind, the
      aligned ones are the quorum, every diagnostic stands in its shard's place and shows a
      fingerprint exactly for an available shard. */
  lemma DiagnosticsMatchCounts(shards: seq<Address>, ps: seq<Probe>, r: Report)
    requires Reports(shards, ps, r)
    ensures r.shardCount - r.healthyCount == CountStatus(r.diagnostics, ShardUnhealthy)
    ensures r.staleCount == CountStatus(r.diagnostics, ShardStale)
    ensures r.unavailableCount == CountStatus(r.diagnostics, ShardUnavailable)
    ensures r.mismatchCount == CountStatus(r.diagnostics, ConfigMismatch)
    ensures r.quorumCount == CountStatus(r.diagnostics, ShardAligned)
    ensures forall i :: 0 <= i < |ps| ==>
              && r.diagnostics[i].shard == shards[i]
              && r.diagnostics[i].fingerprint == if ps[i].Available? then Some(ps[i].fingerprint) else None
  {
    assert Diagnoses(shards, ps, r.canonical, r.diagnostics);
    StatusCounts(shards, ps, r.canonical, r.diagnostics);
    AvailableCounts(shards, ps, r.canonical, r.diagnostics);
    CountsAddUp(shards, ps, r);
  }

  /** Available, stale and unavailable shards are the healthy ones, and the mismatches are
      the available shards outside the quorum. */
  lemma CountsAddUp(shards: seq<Address>, ps: seq<Probe>, r: Report)
    requires Reports(shards, ps, r)
    ensures r.availableCount + r.staleCount + r.unavailableCount == r.healthyCount <= r.shardCount
    ensures r.mismatchCount == r.availableCount - r.quorumCount
  {
    ProbesAddUp(ps);
    var fs := FingerprintsOf(ps);
    if r.canonical.Some? {
      DisagreeingIsTheRest(fs, r.canonical.value);
    } else {
      assert |multiset(fs)| == |fs|;
    }
  }

  /** `f` is held by a strict majority of the healthy shards. */
  ghost predicate Majority(ps: seq<Probe>, f: Fingerprint) {
    2 * Times(ps, Available(f)) > |ps| - Times(ps, Unhealthy)
  }

  lemma MajorityIsReported(shards: seq<Address>, ps: seq<Probe>, r: Report, f: Fingerprint)
    requires Reports(shards, ps, r) && Majority(ps, f)
    ensures r.canonical == Some(f) && r.quorumCount >= r.requiredQuorum
  {
    var fs := FingerprintsOf(ps);
    FingerprintTally(ps, f);
    ProbesAddUp(ps);
    assert |multiset(fs)| == |fs|;
    MajorityIsCanonical(multiset(fs), r.canonical, r.quorumCount, f);
  }

  /** The status is Aligned or Split exactly when some fingerprint is held by a strict majority
      of the healthy shards; that fingerprint is unique and is the canonical one. */
  lemma StatusMeansMajority(shards: seq<Address>, ps: seq<Probe>, r: Report)
    requires Reports(shards, ps, r)
    ensures r.status == Aligned || r.status == Split <==> exists f :: Majority(ps, f)
    ensures forall f :: Majority(ps, f) ==> r.canonical == Some(f)
  {
    forall f | Majority(ps, f) ensures r.canonical == Some(f) && r.quorumCount >= r.requiredQuorum && |ps| > 0 {
      MajorityIsReported(shards, ps, r, f);
    }
    if r.quorumCount >= r.requiredQuorum {
      FingerprintTally(ps, r.canonical.value);
      assert Majority(ps, r.canonical.value);
    }
  }

  /** Aligned means that no available shard disagrees with the majority; Split that one does. */
  lemma AlignedMeansAgreement(shards: seq<Address>, ps: seq<Probe>, r: Report)
    requires Reports(shards, ps, r) && (r.status == Aligned || r.status == Split)
    ensures r.canonical.Some?
    ensures r.status == Aligned <==> forall i :: 0 <= i < |ps| && ps[i].Available? ==> ps[i].fingerprint == r.canonical.value
  {
    var f := r.canonical.value;
    NoneDisagree(ps, f);
  }

  lemma {:induction false} NoneDisagree(ps: seq<Probe>, f: Fingerprint)
    ensures Disagreeing(FingerprintsOf(ps), Some(f)) == 0
            <==> forall i :: 0 <= i < |ps| && ps[i].Available? ==> ps[i].fingerprint == f
  {
    if ps != [] {
      var n := |ps| - 1;
      NoneDisagree(ps[..n], f);
      if ps[n].Available? {
        var fs := FingerprintsOf(ps[..n]);
        assert (fs + [ps[n].fingerprint])[..|fs|] == fs;
      }
      assert forall i :: 0 <= i < n ==> ps[..n][i] == ps[i];
    }
  }

  /** The report depends on the probes only as a collection: permuting the shards changes
      the order of the diagnostics and nothing else. */
  lemma ReportIsOrderIndependent(shards: seq<Address>, ps: seq<Probe>, r: Report,
                                 shards': seq<Address>, ps': seq<Probe>, r': Report)
    requires Reports(shards, ps, r) && Reports(shards', ps', r') && multiset(ps) == multiset(ps')
    ensures r == r'.(diagnostics := r.diagnostics)
  {
    assert |multiset(ps)| == |ps| && |multiset(ps')| == |ps'|;
    var fs, fs' := multiset(FingerprintsOf(ps)), multiset(FingerprintsOf(ps'));
    forall f ensures fs[f] == fs'[f] {
      FingerprintTally(ps, f);
      FingerprintTally(ps', f);
    }
    assert fs == fs';
    CanonicalIsUnique(fs, r.canonical, r.quorumCount, r'.canonical, r'.quorumCount);
    CountsAddUp(shards, ps, r);
    CountsAddUp(shards', ps', r');
  }

  // Quarantine.

  /** Marking one shard unhealthy changes its own probe and no other. */
  lemma QuarantineChangesOneProbe(shards: seq<Address>, health: map<Address, bool>, world: Address -> Replies, i: nat)
    requires i < |shards| && forall j, k :: 0 <= j < k < |shards| ==> shards[j] != shards[k]
    ensures Probes(shards, health[shards[i] := false], world) == Probes(shards, health, world)[i := Unhealthy]
  {
    var after := Probes(shards, health[shards[i] := false], world);
    var before := Probes(shards, health, world);
    forall j | 0 <= j < |shards| ensures after[j] == before[i := Unhealthy][j] {
    }
  }

  lemma QuarantineRemovesOneReport(ps: seq<Probe>, i: nat, g: Fingerprint)
    requires i < |ps| && ps[i] == Available(g)
    ensures var after := ps[i := Unhealthy];
            && multiset(FingerprintsOf(after)) == multiset(FingerprintsOf(ps)) - multiset{g}
            && Times(after, Unhealthy) == Times(ps, Unhealthy) + 1
  {
    var after := ps[i := Unhealthy];
    assert multiset(after) == multiset(ps)[Available(g) := Times(ps, Available(g)) - 1][Unhealthy := Times(ps, Unhealthy) + 1] by {
      assert ps == ps[..i] + [ps[i]] + ps[i + 1..];
      assert after == ps[..i] + [Unhealthy] + ps[i + 1..];
    }
    var fs, fs' := multiset(FingerprintsOf(ps)), multiset(FingerprintsOf(after));
    forall f ensures fs'[f] == (fs - multiset{g})[f] {
      FingerprintTally(ps, f);
      FingerprintTally(after, f);
    }
  }

  /** Quarantining a shard that disagrees keeps the canonical fingerprint, its tally and the
      quorum, and resolves one mismatch. */
  lemma QuarantineKeepsQuorum(shards: seq<Address>, ps: seq<Probe>, r: Report, i: nat, r': Report)
    requires Reports(shards, ps, r) && i < |ps| && Reports(shards, ps[i := Unhealthy], r')
    requires r.diagnostics[i].status == ConfigMismatch
    ensures r'.canonical == r.canonical && r'.quorumCount == r.quorumCount
    ensures r'.mismatchCount == r.mismatchCount - 1 && r'.requiredQuorum <= r.requiredQuorum
    ensures r.status == Split ==> r'.status == if r.mismatchCount == 1 then Aligned else Split
  {
    var g, f := ps[i].fingerprint, r.canonical.value;
    var fs := multiset(FingerprintsOf(ps));
    FingerprintTally(ps, g);
    QuarantineRemovesOneReport(ps, i, g);
    CanonicalSurvivesRemoval(fs, f, r.quorumCount, g);
    CanonicalIsUnique(fs - multiset{g}, r.canonical, r.quorumCount, r'.canonical, r'.quorumCount);
    CountsAddUp(shards, ps, r);
    CountsAddUp(shards, ps[i := Unhealthy], r');
    assert |fs| == r.availableCount && |fs - multiset{g}| == r'.availableCount;
  }

  /** The same, in the terms of the registry: the operator marks shard `i` unhealthy. */
  lemma QuarantineMismatchedShard(shards: seq<Address>, health: map<Address, bool>, world: Address -> Replies,
                                  i: nat, r: Report, r': Report)
    requires i < |shards| && forall j, k :: 0 <= j < k < |shards| ==> shards[j] != shards[k]
    requires Reports(shards, Probes(shards, health, world), r)
    requires Reports(shards, Probes(shards, health[shards[i] := false], world), r')
    requires r.diagnostics[i].status == ConfigMismatch
    ensures r'.canonical == r.canonical && r'.quorumCount == r.quorumCount
    ensures r'.mismatchCount == r.mismatchCount - 1 && r'.requiredQuorum <= r.requiredQuorum
    ensures r.status == Split ==> r'.status == if r.mismatchCount == 1 then Aligned else Split
  {
    QuarantineChangesOneProbe(shards, health, world, i);
    QuarantineKeepsQuorum(shards, Probes(shards, health, world), r, i, r');
  }
}
