/** The aggregator contract: its shard registry and the queries it fans out to the shards.
    `world` is what the shards answer to the calls of one query. */
module ShardAggregator {
  import opened Bytes
  import opened Options
  import opened Tokens
  import opened Fingerprints
  import opened SplitBrain

  const MAX_SHARDS := 10
  const MAX_ASSET_PAIR_BYTES := 9
  const FAILURE_TRANSPORT := 0
  const FAILURE_CONTRACT_ERROR := 1

  datatype AggregatorError =
    | AlreadyInitialized
    | NotInitialized
    | SelfReference
    | ShardAlreadyRegistered
    | ShardLimitReached
    | ShardNotRegistered
    | IncompatibleInterface

  datatype Outcome = Done | Refused(error: AggregatorError)

  datatype ScoreResult = Found(score: RiskScore) | BadPair | NoScore

  // What the queries are supposed to answer.

  ghost predicate GateOpen(shards: seq<Address>, health: map<Address, bool>, world: Address -> Replies, pair: ByteString) {
    && |pair| <= MAX_ASSET_PAIR_BYTES
    && shards != []
    && forall i :: 0 <= i < |shards| && IsHealthy(health, shards[i]) ==> world(shards[i]).gate == Answer(true)
  }

  /** The scores the healthy shards return, in shard order. */
  ghost function Scores(shards: seq<Address>, health: map<Address, bool>, world: Address -> Replies): seq<RiskScore> {
    if shards == [] then []
    else
      var n := |shards| - 1;
      var before := Scores(shards[..n], health, world);
      if IsHealthy(health, shards[n]) && world(shards[n]).score.Score? then before + [world(shards[n]).score.value] else before
  }

  ghost predicate Answers(shards: seq<Address>, health: map<Address, bool>, world: Address -> Replies, i: nat, s: RiskScore) {
    i < |shards| && IsHealthy(health, shards[i]) && world(shards[i]).score == Score(s)
  }

  /** The scores considered are exactly those of the registered healthy shards that answer. */
  lemma {:induction false} ScoresExactly(shards: seq<Address>, health: map<Address, bool>, world: Address -> Replies, s: RiskScore)
    ensures s in Scores(shards, health, world) <==> exists i: nat :: Answers(shards, health, world, i, s)
  {
    if shards != [] {
      var n := |shards| - 1;
      ScoresExactly(shards[..n], health, world, s);
      if i: nat :| Answers(shards, health, world, i, s) {
        assert i < n ==> Answers(shards[..n], health, world, i, s);
      }
      if i: nat :| Answers(shards[..n], health, world, i, s) {
        assert Answers(shards, health, world, i, s);
      }
      if Answers(shards, health, world, n, s) {
        assert exists i: nat :: Answers(shards, health, world, i, s);
      }
    }
  }

  /** The first of the highest. */
  ghost predicate FirstHighest(scores: seq<RiskScore>, best: RiskScore) {
    exists k :: 0 <= k < |scores| && scores[k] == best
      && (forall i :: 0 <= i < |scores| ==> scores[i].score <= best.score)
      && (forall i :: 0 <= i < k ==> scores[i].score < best.score)
  }

  /** The last healthy shard that did not answer, and how it failed. */
  ghost function LastFailing(shards: seq<Address>, health: map<Address, bool>, world: Address -> Replies,
                             before: Option<(Address, nat)>): Option<(Address, nat)> {
    if shards == [] then before
    else
      var n := |shards| - 1;
      var score := world(shards[n]).score;
      if !IsHealthy(health, shards[n]) || score.Score? then LastFailing(shards[..n], health, world, before)
      else Some((shards[n], if score.Undecodable? then FAILURE_CONTRACT_ERROR else FAILURE_TRANSPORT))
  }

  ghost predicate Fails(shards: seq<Address>, health: map<Address, bool>, world: Address -> Replies, i: nat) {
    i < |shards| && IsHealthy(health, shards[i]) && !world(shards[i]).score.Score?
  }

  /** The marker names the last healthy shard without a usable score: code 1 for an answer that
      does not decode, code 0 for every other failure. Without one it stays as it was. */
  lemma {:induction false} LastFailingExactly(shards: seq<Address>, health: map<Address, bool>, world: Address -> Replies,
                                              before: Option<(Address, nat)>)
    ensures var last := LastFailing(shards, health, world, before);
            || ((forall i: nat :: !Fails(shards, health, world, i)) && last == before)
            || exists k: nat :: && Fails(shards, health, world, k) && (forall i: nat :: k < i ==> !Fails(shards, health, world, i))
                                && last == Some((shards[k], if world(shards[k]).score.Undecodable? then 1 else 0))
  {
    if shards != [] {
      var n := |shards| - 1;
      if !Fails(shards, health, world, n) {
        LastFailingExactly(shards[..n], health, world, before);
        assert forall i: nat :: Fails(shards, health, world, i) <==> Fails(shards[..n], health, world, i);
      }
    }
  }

  /** Where the gate's scan stops: at the first healthy shard that does not answer true. */
  ghost predicate StopsAt(shards: seq<Address>, health: map<Address, bool>, world: Address -> Replies, i: nat) {
    && i < |shards| && IsHealthy(health, shards[i]) && world(shards[i]).gate != Answer(true)
    && forall j :: 0 <= j < i && IsHealthy(health, shards[j]) ==> world(shards[j]).gate == Answer(true)
  }

  // Gate and score agree.

  /** The gate contract every shard documents: true only when a score exists and is strictly
      below the threshold. */
  ghost predicate HonoursGate(r: Replies, threshold: nat) {
    r.gate == Answer(true) ==> r.score.Score? && r.score.value.score < threshold
  }

  ghost predicate SomeHealthy(shards: seq<Address>, health: map<Address, bool>) {
    exists i :: 0 <= i < |shards| && IsHealthy(health, shards[i])
  }

  lemma {:induction false} HealthyScoresBelow(shards: seq<Address>, health: map<Address, bool>, world: Address -> Replies, threshold: nat)
    requires forall i :: 0 <= i < |shards| && IsHealthy(health, shards[i]) ==>
               world(shards[i]).gate == Answer(true) && HonoursGate(world(shards[i]), threshold)
    ensures forall s :: s in Scores(shards, health, world) ==> s.score < threshold
    ensures Scores(shards, health, world) == [] <==> !SomeHealthy(shards, health)
  {
    if shards != [] {
      var n := |shards| - 1;
      assert forall i :: 0 <= i < n ==> shards[..n][i] == shards[i];
      HealthyScoresBelow(shards[..n], health, world, threshold);
      if SomeHealthy(shards, health) && !IsHealthy(health, shards[n]) {
        var i :| 0 <= i < |shards| && IsHealthy(health, shards[i]);
        assert shards[..n][i] == shards[i];
      }
    }
  }

  /** With shards that honour the gate contract, an open gate means that no healthy shard's
      score reaches the threshold, and that there is a score to report exactly when some
      registered shard is healthy. */
  lemma OpenGateBoundsScores(shards: seq<Address>, health: map<Address, bool>, world: Address -> Replies,
                             pair: ByteString, threshold: nat)
    requires GateOpen(shards, health, world, pair)
    requires forall i :: 0 <= i < |shards| ==> HonoursGate(world(shards[i]), threshold)
    ensures forall s :: s in Scores(shards, health, world) ==> s.score < threshold
    ensures Scores(shards, health, world) != [] <==> SomeHealthy(shards, health)
    ensures forall best :: FirstHighest(Scores(shards, health, world), best) ==> best.score < threshold
  {
    HealthyScoresBelow(shards, health, world, threshold);
  }

  /** With every registered shard marked unhealthy the gate is open whatever the shards
      would answer, although no score can be reported. */
  lemma AllUnhealthyOpensGate(shards: seq<Address>, health: map<Address, bool>, world: Address -> Replies, pair: ByteString)
    requires shards != [] && !SomeHealthy(shards, health) && |pair| <= MAX_ASSET_PAIR_BYTES
    ensures GateOpen(shards, health, world, pair) && Scores(shards, health, world) == []
  {
    HealthyScoresBelow(shards, health, world, 0);
  }

  // The contract.

  class Aggregator {
    const self: Address
    var admin: Option<Address>
    var shards: seq<Address>
    var health: map<Address, bool>
    var capabilities: map<Address, seq<string>>
    var lastFailure: Option<(Address, nat)>

    /** No duplicates, never itself, at most ten, and records only for registered shards. */
    ghost predicate Valid()
      reads this
    {
      && (forall i, j :: 0 <= i < j < |shards| ==> shards[i] != shards[j])
      && self !in shards && |shards| <= MAX_SHARDS
      && (forall x :: x in health ==> x in shards)
      && (forall x :: x in capabilities <==> x in shards)
      && (admin.None? ==> shards == [])
    }

    ghost predicate SameRegistry(admin': Option<Address>, shards': seq<Address>, health': map<Address, bool>,
                                 capabilities': map<Address, seq<string>>)
      reads this
    {
      admin == admin' && shards == shards' && health == health' && capabilities == capabilities'
    }

    constructor (self: Address)
      ensures Valid() && this.self == self && admin == None && lastFailure == None
    {
      this.self, admin, shards, health, capabilities, lastFailure := self, None, [], map[], map[], None;
    }

    method Initialize(a: Address) returns (r: Outcome)
      requires Valid()
      modifies this`admin
      ensures Valid()
      ensures r == if old(admin).Some? then Refused(AlreadyInitialized) else Done
      ensures admin == if r == Done then Some(a) else old(admin)
    {
      if admin.Some? {
        return Refused(AlreadyInitialized);
      }
      admin := Some(a);
      r := Done;
    }

    method IsRegistered(shard: Address) returns (b: bool)
      ensures b <==> shard in shards
    {
      for i := 0 to |shards|
        invariant shard !in shards[..i]
      {
        if shards[i] == shard {
          return true;
        }
      }
      b := false;
    }

    /** `compatible` and `snapshot` are what the candidate answers to the capability probes.
        A shard that was removed starts healthy again. */
    method AddShard(shard: Address, compatible: bool, snapshot: seq<string>) returns (r: Outcome)
      requires Valid()
      modifies this
      ensures Valid() && lastFailure == old(lastFailure)
      ensures r == if old(admin).None? then Refused(NotInitialized)
                   else if shard == self then Refused(SelfReference)
                   else if shard in old(shards) then Refused(ShardAlreadyRegistered)
                   else if |old(shards)| >= MAX_SHARDS then Refused(ShardLimitReached)
                   else if !compatible then Refused(IncompatibleInterface)
                   else Done
      ensures r == Done ==> SameRegistry(old(admin), old(shards) + [shard], old(health), old(capabilities)[shard := snapshot])
      ensures r == Done ==> IsHealthy(health, shard)
      ensures r != Done ==> SameRegistry(old(admin), old(shards), old(health), old(capabilities))
    {
      if admin.None? {
        return Refused(NotInitialized);
      }
      if self == shard {
        return Refused(SelfReference);
      }
      var known := IsRegistered(shard);
      if known {
        return Refused(ShardAlreadyRegistered);
      }
      if |shards| >= MAX_SHARDS {
        return Refused(ShardLimitReached);
      }
      if !compatible {
        return Refused(IncompatibleInterface);
      }
      capabilities := capabilities[shard := snapshot];
      shards := shards + [shard];
      r := Done;
    }

    /** The rest of the registry in its order; the shard's health and capabilities go too. */
    method RemoveShard(shard: Address) returns (r: Outcome)
      requires Valid()
      modifies this
      ensures Valid() && lastFailure == old(lastFailure)
      ensures r == if old(admin).None? then Refused(NotInitialized)
                   else if shard !in old(shards) then Refused(ShardNotRegistered)
                   else Done
      ensures r == Done ==>
                exists k :: 0 <= k < |old(shards)| && old(shards)[k] == shard
                            && SameRegistry(old(admin), old(shards)[..k] + old(shards)[k + 1..],
                                            old(health) - {shard}, old(capabilities) - {shard})
      ensures r != Done ==> SameRegistry(old(admin), old(shards), old(health), old(capabilities))
    {
      if admin.None? {
        return Refused(NotInitialized);
      }
      var out := [];
      var found := false;
      ghost var k := 0;
      for i := 0 to |shards|
        invariant found <==> shard in shards[..i]
        invariant !found ==> out == shards[..i]
        invariant found ==> k < i && shards[k] == shard && out == shards[..k] + shards[k + 1..i]
      {
        var a := shards[i];
        if a == shard {
          found, k := true, i;
        } else {
          out := out + [a];
        }
      }
      if !found {
        return Refused(ShardNotRegistered);
      }
      assert out == shards[..k] + shards[k + 1..];
      RemovalMembers(shards, k);
      shards := out;
      health := health - {shard};
      capabilities := capabilities - {shard};
      r := Done;
    }

    method SetShardHealth(shard: Address, healthy: bool) returns (r: Outcome)
      requires Valid()
      modifies this`health
      ensures Valid()
      ensures r == if admin.None? then Refused(NotInitialized) else if shard !in shards then Refused(ShardNotRegistered) else Done
      ensures health == if r == Done then old(health)[shard := healthy] else old(health)
    {
      if admin.None? {
        return Refused(NotInitialized);
      }
      var known := IsRegistered(shard);
      if !known {
        return Refused(ShardNotRegistered);
      }
      health := health[shard := healthy];
      r := Done;
    }

    /** True exactly when the gate is open. A call that fails on the way is recorded. */
    method QueryRiskGate(world: Address -> Replies, pair: ByteString) returns (open: bool)
      modifies this`lastFailure
      ensures open <==> GateOpen(shards, health, world, pair)
      ensures open <==> && |pair| <= 9 && |shards| > 0
                        && forall s :: s in shards && (s in health ==> health[s]) ==> world(s).gate == Answer(true)
      ensures forall i: nat :: |pair| <= MAX_ASSET_PAIR_BYTES && StopsAt(shards, health, world, i) ==>
                lastFailure == if world(shards[i]).gate.BoolCallFailed? then Some((shards[i], FAILURE_TRANSPORT)) else old(lastFailure)
      ensures open || |pair| > MAX_ASSET_PAIR_BYTES ==> lastFailure == old(lastFailure)
    {
      if |pair| > MAX_ASSET_PAIR_BYTES || shards == [] {
        return false;
      }
      for i := 0 to |shards|
        invariant lastFailure == old(lastFailure)
        invariant forall j :: 0 <= j < i && IsHealthy(health, shards[j]) ==> world(shards[j]).gate == Answer(true)
      {
        if !IsHealthy(health, shards[i]) {
          continue;
        }
        match world(shards[i]).gate {
          case Answer(true) =>
          case Answer(false) =>
            return false;
          case BoolCallFailed =>
            lastFailure := Some((shards[i], FAILURE_TRANSPORT));
            return false;
        }
      }
      open := true;
    }

    /** The first of the highest scores among the healthy shards that answer. Only a call that
        finds a score keeps its failure marker; the host discards the writes of the others. */
    method GetScore(world: Address -> Replies, pair: ByteString) returns (r: ScoreResult)
      modifies this`lastFailure
      ensures r.BadPair? <==> |pair| > MAX_ASSET_PAIR_BYTES
      ensures r.NoScore? <==> |pair| <= MAX_ASSET_PAIR_BYTES && Scores(shards, health, world) == []
      ensures r.Found? ==> FirstHighest(Scores(shards, health, world), r.score)
      ensures lastFailure == if r.Found? then LastFailing(shards, health, world, old(lastFailure)) else old(lastFailure)
    {
      if |pair| > MAX_ASSET_PAIR_BYTES {
        return BadPair;
      }
      var before := lastFailure;
      var best: Option<RiskScore> := None;
      for i := 0 to |shards|
        invariant best.None? <==> Scores(shards[..i], health, world) == []
        invariant best.Some? ==> FirstHighest(Scores(shards[..i], health, world), best.value)
        invariant lastFailure == LastFailing(shards[..i], health, world, old(lastFailure))
      {
        assert shards[..i + 1][..i] == shards[..i];
        ghost var found := Scores(shards[..i], health, world);
        if !IsHealthy(health, shards[i]) {
          continue;
        }
        match world(shards[i]).score {
          case Score(score) =>
            HighestGrows(found, best, score);
            if best.None? {
              best := Some(score);
            } else if score.score > best.value.score {
              best := Some(score);
            }
          case Undecodable =>
            lastFailure := Some((shards[i], FAILURE_CONTRACT_ERROR));
          case _ =>
            lastFailure := Some((shards[i], FAILURE_TRANSPORT));
        }
      }
      assert shards[..|shards|] == shards;
      if best.None? {
        lastFailure := before;
        return NoScore;
      }
      r := Found(best.value);
    }

    /** One pass of the report's first loop. */
    method ProbeShard(world: Address -> Replies, shard: Address) returns (p: Probe)
      ensures p == ProbeOf(IsHealthy(health, shard), world(shard))
    {
      if !IsHealthy(health, shard) {
        return Unhealthy;
      }
      match world(shard).score {
        case Score(_) =>
          match world(shard).stale {
            case Answer(true) => return Stale;
            case Answer(false) =>
            case BoolCallFailed => return Unavailable;
          }
        case NotFound =>
        case Undecodable => return Unavailable;
        case ScoreCallFailed => return Unavailable;
      }
      var fingerprint := ReadFingerprint(world(shard));
      p := if fingerprint.Some? then Available(fingerprint.value) else Unavailable;
    }

    /** The first loop of the report: one probe per shard. */
    method ProbeShards(world: Address -> Replies)
      returns (diagnostics: seq<Diagnostic>, available: seq<(Address, Fingerprint)>, healthy: nat, stale: nat, unavailable: nat)
      ensures Tallied(shards, Probes(shards, health, world), |shards|, diagnostics, Reported(available), healthy, stale, unavailable)
    {
      diagnostics, available, healthy, stale, unavailable := [], [], 0, 0, 0;
      ghost var ps := Probes(shards, health, world);
      for i := 0 to |shards|
        invariant Tallied(shards, ps, i, diagnostics, Reported(available), healthy, stale, unavailable)
      {
        TalliedStep(shards, ps, i, diagnostics, Reported(available), healthy, stale, unavailable);
        var shard := shards[i];
        var p := ProbeShard(world, shard);
        assert p == ps[i];
        if !p.Unhealthy? {
          healthy := healthy + 1;
        }
        match p {
          case Unhealthy =>
            diagnostics := diagnostics + [Diagnostic(shard, ShardUnhealthy, None)];
          case Stale =>
            stale := stale + 1;
            diagnostics := diagnostics + [Diagnostic(shard, ShardStale, None)];
          case Unavailable =>
            unavailable := unavailable + 1;
            diagnostics := diagnostics + [Diagnostic(shard, ShardUnavailable, None)];
          case Available(fingerprint) =>
            ReportedGrows(available, shard, fingerprint);
            available := available + [(shard, fingerprint)];
            diagnostics := diagnostics + [Diagnostic(shard, ShardAligned, Some(fingerprint))];
        }
      }
    }

    /** The second loop: shards that disagree with the canonical fingerprint are marked. */
    method MarkMismatches(world: Address -> Replies, canonical: Option<Fingerprint>, diagnostics: seq<Diagnostic>)
      returns (final: seq<Diagnostic>, mismatches: nat)
      requires var ps := Probes(shards, health, world);
               |diagnostics| == |ps| && forall i :: 0 <= i < |ps| ==> diagnostics[i] == DiagnosticOf(shards[i], ps[i], None)
      ensures var ps := Probes(shards, health, world);
              && |final| == |ps| && (forall i :: 0 <= i < |ps| ==> final[i] == DiagnosticOf(shards[i], ps[i], canonical))
              && mismatches == Disagreeing(FingerprintsOf(ps), canonical)
    {
      final, mismatches := [], 0;
      ghost var ps := Probes(shards, health, world);
      for i := 0 to |diagnostics|
        invariant |final| == i && forall j :: 0 <= j < i ==> final[j] == DiagnosticOf(shards[j], ps[j], canonical)
        invariant mismatches == Disagreeing(FingerprintsOf(ps[..i]), canonical)
      {
        DisagreeingStep(ps, i, canonical);
        var diagnostic := diagnostics[i];
        if canonical.Some? && diagnostic.fingerprint.Some? && diagnostic.fingerprint.value != canonical.value {
          diagnostic := diagnostic.(status := ConfigMismatch);
          mismatches := mismatches + 1;
        }
        final := final + [diagnostic];
      }
      assert ps[..|diagnostics|] == ps;
    }

    method DetectSplitBrain(world: Address -> Replies) returns (report: Report)
      ensures Reports(shards, Probes(shards, health, world), report)
    {
      var diagnostics, available, healthy, stale, unavailable := ProbeShards(world);
      ghost var ps := Probes(shards, health, world);
      assert ps[..|shards|] == ps;
      var required := healthy / 2 + 1;
      var canonical, quorum := SelectCanonical(available);
      var final, mismatches := MarkMismatches(world, canonical, diagnostics);
      var status := if |shards| == 0 then NoShards
                    else if quorum < required then QuorumLost
                    else if mismatches > 0 then Split
                    else Aligned;
      report := Report(status, canonical, |shards|, healthy, |available|, stale, unavailable, mismatches, quorum, required, final);
    }
  }

  lemma RemovalMembers(shards: seq<Address>, k: nat)
    requires k < |shards| && forall i, j :: 0 <= i < j < |shards| ==> shards[i] != shards[j]
    ensures forall x :: x in shards[..k] + shards[k + 1..] <==> x in shards && x != shards[k]
  {
    forall x | x in shards && x != shards[k] ensures x in shards[..k] + shards[k + 1..] {
      var i :| 0 <= i < |shards| && shards[i] == x;
      if i < k {
        assert shards[..k][i] == x;
      } else {
        assert shards[k + 1..][i - k - 1] == x;
      }
    }
  }

  lemma HighestGrows(scores: seq<RiskScore>, best: Option<RiskScore>, score: RiskScore)
    requires best.None? ==> scores == []
    requires best.Some? ==> FirstHighest(scores, best.value)
    ensures FirstHighest(scores + [score], if best.None? || score.score > best.value.score then score else best.value)
  {
    var all := scores + [score];
    if best.None? || score.score > best.value.score {
      assert all[|scores|] == score;
    } else {
      var k :| 0 <= k < |scores| && scores[k] == best.value
        && (forall i :: 0 <= i < |scores| ==> scores[i].score <= best.value.score)
        && (forall i :: 0 <= i < k ==> scores[i].score < best.value.score);
      assert all[k] == best.value;
    }
  }
}
