/** At-most-once relaying over every run of the contract. */
module RelayRuns {
  import opened Options
  import opened Tokens
  import opened Bytes
  import opened Errors
  import opened RentQueue
  import opened RelayPreimage
  import opened AttestedRelay
  import opened ContractSpec
  import opened ContractRuns

  /** One accepted relay: the service and the ledger of the moment and what was relayed. */
  datatype Acceptance = Acceptance(service: Address, ledger: nat, sub: Submission, att: Attestation)

  function AcceptanceOf(s: State, call: Call): Acceptance
    requires call.RelayScore?
  {
    Acceptance(s.relay.service, s.ledger, call.sub, call.att)
  }

  predicate CarriesNonce(call: Call) {
    call.RelayScore? || (call.SubmitDirect? && call.nonce.Some?)
  }

  predicate Consumes(call: Call, reply: Reply) {
    CarriesNonce(call) && reply == ACCEPTED
  }

  function NonceOf(call: Call): nat
    requires CarriesNonce(call)
  {
    if call.RelayScore? then call.att.nonce else call.nonce.value
  }

  /** The relays accepted during a run, in order. */
  ghost function Accepted(host: Host, s: State, calls: seq<Call>): seq<Acceptance> {
    if calls == [] then []
    else
      var k := |calls| - 1;
      var before := Accepted(host, s, calls[..k]);
      Logged(before, Run(host, s, calls[..k]), calls[k], Last(host, s, calls).reply)
  }

  /** The nonces of `service` consumed during a run, by relays and direct submissions. */
  ghost function Consumed(host: Host, s: State, calls: seq<Call>, service: Address): seq<nat> {
    if calls == [] then []
    else
      var k := |calls| - 1;
      var before := Consumed(host, s, calls[..k], service);
      if Consumes(calls[k], Last(host, s, calls).reply) && Run(host, s, calls[..k]).relay.service == service
      then before + [NonceOf(calls[k])]
      else before
  }

  // One step.

  /** How a step changes nonces and marks. */
  ghost predicate StepEffect(s: State, call: Call, out: Outcome) {
    && (call.SetService? || out.state.relay.service == s.relay.service)
    && (if Consumes(call, out.reply)
        then && NonceOf(call) == Nonce(s.relay, s.relay.service)
             && out.state.relay.nonces == s.relay.nonces[s.relay.service := NonceOf(call) + 1]
        else out.state.relay.nonces == s.relay.nonces)
    && (if call.RelayScore? && out.reply == ACCEPTED
        then && call.att.commitment !in s.relay.used && s.ledger <= call.att.validBefore
             && out.state.relay.used == s.relay.used[call.att.commitment := s.ledger + MARK_LIFETIME]
        else if call.ExpireMark? && out.reply.Ok?
        then && call.digest in s.relay.used && s.ledger > s.relay.used[call.digest]
             && out.state.relay.used == s.relay.used - {call.digest}
        else out.state.relay.used == s.relay.used)
  }

  lemma RelayEffect(host: Host, s: State, admin: Address, call: Call)
    requires IsRelayCall(call)
    ensures StepEffect(s, call, RelayStep(host, s, admin, call))
  {
    if call.RelayScore? {
      RelayScoreEffect(host, s, admin, call.relayer, call.sub, call.att);
    } else if call.SubmitDirect? {
      SubmitEffect(host, s, admin, call.sub, call.nonce);
    }
  }

  lemma RelayScoreEffect(host: Host, s: State, admin: Address, who: Address, sub: Submission, att: Attestation)
    ensures StepEffect(s, RelayScore(who, sub, att), RelayStep(host, s, admin, RelayScore(who, sub, att)))
  {
    if RelayStep(host, s, admin, RelayScore(who, sub, att)).reply == ACCEPTED {
      AcceptanceMeans(host, s.relay, s.keeper.rent, s.accounts, s.self, s.time, s.ledger, who, sub, att);
    } else {
      NotAcceptedIsUnchanged(host, s, admin, who, sub, att);
    }
  }

  lemma SubmitEffect(host: Host, s: State, admin: Address, sub: Submission, nonce: Option<nat>)
    ensures StepEffect(s, SubmitDirect(sub, nonce), RelayStep(host, s, admin, SubmitDirect(sub, nonce)))
  {
  }

  lemma NotAcceptedIsUnchanged(host: Host, s: State, admin: Address, who: Address, sub: Submission, att: Attestation)
    requires RelayStep(host, s, admin, RelayScore(who, sub, att)).reply != ACCEPTED
    ensures RelayStep(host, s, admin, RelayScore(who, sub, att)).state == s
  {
  }

  lemma SwitchEffect(s: State, call: Call)
    requires IsSwitch(call)
    ensures StepEffect(s, call, SwitchStep(s, call))
  {
  }

  /** A step that leaves the relay ledger alone has the effect of a step that consumes nothing. */
  lemma UntouchedEffect(s: State, call: Call, out: Outcome)
    requires (!IsRelayCall(call) && !call.ExpireMark?) || out.reply.Fail?
    requires out.state.relay == s.relay
    ensures StepEffect(s, call, out)
  {
  }

  lemma RelayUntouched(host: Host, s: State, call: Call)
    requires !IsRelayCall(call) && !IsSwitch(call)
    ensures ContractSpec.Step(host, s, call).state.relay == s.relay
  {
  }

  lemma StepOfFamily(host: Host, s: State, call: Call)
    requires NeedsAdmin(call) ==> s.admin.Some?
    ensures IsRelayCall(call) ==> ContractSpec.Step(host, s, call) == RelayStep(host, s, AdminOf(s), call)
    ensures IsSwitch(call) ==> ContractSpec.Step(host, s, call) == SwitchStep(s, call)
  {
  }

  lemma EffectOfStep(host: Host, s: State, call: Call)
    ensures StepEffect(s, call, ContractSpec.Step(host, s, call))
  {
    if NeedsAdmin(call) && s.admin.None? {
      UntouchedEffect(s, call, Refused(s, NotInitialized));
    } else if IsRelayCall(call) {
      RelayEffect(host, s, AdminOf(s), call);
      StepOfFamily(host, s, call);
    } else if IsSwitch(call) {
      SwitchEffect(s, call);
      StepOfFamily(host, s, call);
    } else {
      RelayUntouched(host, s, call);
      UntouchedEffect(s, call, ContractSpec.Step(host, s, call));
    }
  }

  // Nonces.

  /** For every service and every run, the nonces consumed are exactly the consecutive numbers
      from its nonce at the start up to its nonce at the end. */
  lemma {:induction false} ConsumedAreConsecutive(host: Host, s: State, calls: seq<Call>, service: Address)
    ensures var used := Consumed(host, s, calls, service);
            && Nonce(Run(host, s, calls).relay, service) == Nonce(s.relay, service) + |used|
            && forall i :: 0 <= i < |used| ==> used[i] == Nonce(s.relay, service) + i
    decreases |calls|
  {
    if calls != [] {
      var k := |calls| - 1;
      ConsumedAreConsecutive(host, s, calls[..k], service);
      EffectOfStep(host, Run(host, s, calls[..k]), calls[k]);
    }
  }

  predicate OneService(calls: seq<Call>, service: Address) {
    forall i :: 0 <= i < |calls| ==> calls[i].SetService? ==> calls[i].service == service
  }

  lemma StepOneService(host: Host, s: State, call: Call)
    requires call.SetService? ==> call.service == s.relay.service
    ensures ContractSpec.Step(host, s, call).state.relay.service == s.relay.service
  {
    EffectOfStep(host, s, call);
  }

  /** Nonces strictly increase along the log and stay below `bound`. */
  ghost predicate IncreasingBelow(log: seq<Acceptance>, bound: nat) {
    && (forall i :: 0 <= i < |log| ==> log[i].att.nonce < bound)
    && (forall i, j :: 0 <= i < j < |log| ==> log[i].att.nonce < log[j].att.nonce)
  }

  lemma IncreasingGrows(log: seq<Acceptance>, bound: nat, x: Acceptance)
    requires IncreasingBelow(log, bound) && x.att.nonce == bound
    ensures IncreasingBelow(log + [x], bound + 1)
  {
  }

  lemma IncreasingWidens(log: seq<Acceptance>, bound: nat, wider: nat)
    requires IncreasingBelow(log, bound) && bound <= wider
    ensures IncreasingBelow(log, wider)
  {
  }

  lemma {:induction false} AcceptedUnderOneService(host: Host, s: State, calls: seq<Call>)
    requires OneService(calls, s.relay.service)
    ensures Run(host, s, calls).relay.service == s.relay.service
    ensures IncreasingBelow(Accepted(host, s, calls), Nonce(Run(host, s, calls).relay, s.relay.service))
    decreases |calls|
  {
    if calls != [] {
      var k := |calls| - 1;
      var mid, log := Run(host, s, calls[..k]), Accepted(host, s, calls[..k]);
      AcceptedUnderOneService(host, s, calls[..k]);
      StepOneService(host, mid, calls[k]);
      EffectOfStep(host, mid, calls[k]);
      var bound := Nonce(mid.relay, s.relay.service);
      if calls[k].RelayScore? && Last(host, s, calls).reply == ACCEPTED {
        IncreasingGrows(log, bound, AcceptanceOf(mid, calls[k]));
      } else {
        IncreasingWidens(log, bound, Nonce(Run(host, s, calls).relay, s.relay.service));
      }
    }
  }

  function PreimageOf(host: Host, x: Acceptance): ByteString
    requires |x.sub.pair| <= MAX_PAIR
  {
    Preimage(x.sub, BindingOf(host, x.att))
  }

  /** Each accepted relay's commitment is the digest of its own preimage. */
  lemma {:induction false} AcceptedAreBound(host: Host, s: State, calls: seq<Call>, i: nat)
    requires i < |Accepted(host, s, calls)|
    ensures var x := Accepted(host, s, calls)[i];
            |x.sub.pair| <= MAX_PAIR && x.att.commitment == host.hash(PreimageOf(host, x))
    decreases |calls|
  {
    var k := |calls| - 1;
    if i < |Accepted(host, s, calls[..k])| {
      AcceptedAreBound(host, s, calls[..k], i);
    } else {
      var mid := Run(host, s, calls[..k]);
      AcceptanceMeans(host, mid.relay, mid.keeper.rent, mid.accounts, mid.self, mid.time, mid.ledger,
                      calls[k].relayer, calls[k].sub, calls[k].att);
    }
  }

  /** The nonce check alone: with one service, and even if marks are lost at any moment, no two
      accepted relays carry the same digest, provided the hash does not collide on the two
      preimages themselves. */
  lemma OnceUnderOneService(host: Host, s: State, calls: seq<Call>, i: nat, j: nat)
    requires OneService(calls, s.relay.service)
    requires i < j < |Accepted(host, s, calls)|
    requires var log := Accepted(host, s, calls);
             && SubmissionFits(log[i].sub) && BindingFits(BindingOf(host, log[i].att))
             && SubmissionFits(log[j].sub) && BindingFits(BindingOf(host, log[j].att))
             && var p, q := PreimageOf(host, log[i]), PreimageOf(host, log[j]);
                host.hash(p) == host.hash(q) ==> p == q
    ensures var log := Accepted(host, s, calls);
            log[i].att.commitment != log[j].att.commitment
  {
    var log := Accepted(host, s, calls);
    AcceptedUnderOneService(host, s, calls);
    AcceptedAreBound(host, s, calls, i);
    AcceptedAreBound(host, s, calls, j);
    if log[i].att.commitment == log[j].att.commitment {
      PreimageInjective(log[i].sub, BindingOf(host, log[i].att), log[j].sub, BindingOf(host, log[j].att));
    }
  }

  // Marks.

  predicate NoMarkLost(calls: seq<Call>) {
    forall i :: 0 <= i < |calls| ==> !calls[i].ExpireMark?
  }

  /** The logged digests are marked, were not at the start, and are all different. */
  ghost predicate MarkedOnce(log: seq<Acceptance>, start: set<Digest>, now: set<Digest>) {
    && start <= now
    && (forall i :: 0 <= i < |log| ==> log[i].att.commitment in now && log[i].att.commitment !in start)
    && (forall i, j :: 0 <= i < j < |log| ==> log[i].att.commitment != log[j].att.commitment)
  }

  lemma MarkedGrows(log: seq<Acceptance>, start: set<Digest>, now: set<Digest>, x: Acceptance)
    requires MarkedOnce(log, start, now) && x.att.commitment !in now
    ensures MarkedOnce(log + [x], start, now + {x.att.commitment})
  {
  }

  /** The mark alone: while no mark is lost, no digest is accepted twice, whatever services,
      keys, relayers and hashes are involved. */
  lemma {:induction false} OnceWhileMarked(host: Host, s: State, calls: seq<Call>)
    requires NoMarkLost(calls)
    ensures MarkedOnce(Accepted(host, s, calls), s.relay.used.Keys, Run(host, s, calls).relay.used.Keys)
    decreases |calls|
  {
    if calls != [] {
      var k := |calls| - 1;
      var mid, log := Run(host, s, calls[..k]), Accepted(host, s, calls[..k]);
      OnceWhileMarked(host, s, calls[..k]);
      EffectOfStep(host, mid, calls[k]);
      if calls[k].RelayScore? && Last(host, s, calls).reply == ACCEPTED {
        MarkedGrows(log, s.relay.used.Keys, mid.relay.used.Keys, AcceptanceOf(mid, calls[k]));
        assert Run(host, s, calls).relay.used.Keys == mid.relay.used.Keys + {calls[k].att.commitment};
      }
    }
  }

  // Marks and the host: a mark is lost only once its lifetime is over.

  /** What the marks remember of the log: an accepted digest is marked for its whole lifetime,
      so two acceptances of one digest are further apart than that. */
  ghost predicate Spaced(log: seq<Acceptance>, used: map<Digest, nat>, now: nat) {
    && (forall i :: 0 <= i < |log| ==> log[i].ledger <= now && log[i].ledger <= log[i].att.validBefore)
    && (forall i :: 0 <= i < |log| ==>
          if log[i].att.commitment in used then used[log[i].att.commitment] >= log[i].ledger + MARK_LIFETIME
          else now > log[i].ledger + MARK_LIFETIME)
    && (forall i, j :: 0 <= i < j < |log| && log[i].att.commitment == log[j].att.commitment ==>
          log[j].ledger > log[i].ledger + MARK_LIFETIME)
  }

  lemma SpacedGrows(log: seq<Acceptance>, used: map<Digest, nat>, now: nat, x: Acceptance)
    requires Spaced(log, used, now) && x.ledger == now <= x.att.validBefore && x.att.commitment !in used
    ensures Spaced(log + [x], used[x.att.commitment := now + MARK_LIFETIME], now)
  {
  }

  lemma SpacedLosesMark(log: seq<Acceptance>, used: map<Digest, nat>, now: nat, digest: Digest)
    requires Spaced(log, used, now) && digest in used && now > used[digest]
    ensures Spaced(log, used - {digest}, now)
  {
  }

  lemma SpacedLater(log: seq<Acceptance>, used: map<Digest, nat>, now: nat, later: nat)
    requires Spaced(log, used, now) && now <= later
    ensures Spaced(log, used, later)
  {
  }

  lemma LedgerNeverFalls(host: Host, s: State, call: Call)
    ensures ContractSpec.Step(host, s, call).state.ledger >= s.ledger
    ensures !call.Tick? ==> ContractSpec.Step(host, s, call).state.ledger == s.ledger
  {
  }

  lemma {:induction false} AcceptancesAreSpaced(host: Host, s: State, calls: seq<Call>)
    ensures Spaced(Accepted(host, s, calls), Run(host, s, calls).relay.used, Run(host, s, calls).ledger)
    decreases |calls|
  {
    if calls != [] {
      var k := |calls| - 1;
      AcceptancesAreSpaced(host, s, calls[..k]);
      SpacedStep(host, Run(host, s, calls[..k]), calls[k], Accepted(host, s, calls[..k]));
    }
  }

  /** The log after one more call. */
  ghost function Logged(log: seq<Acceptance>, s: State, call: Call, reply: Reply): seq<Acceptance> {
    if call.RelayScore? && reply == ACCEPTED then log + [AcceptanceOf(s, call)] else log
  }

  lemma SpacedOutcome(mid: State, call: Call, out: Outcome, log: seq<Acceptance>)
    requires Spaced(log, mid.relay.used, mid.ledger) && StepEffect(mid, call, out)
    requires out.state.ledger >= mid.ledger && (!call.Tick? ==> out.state.ledger == mid.ledger)
    ensures Spaced(Logged(log, mid, call, out.reply), out.state.relay.used, out.state.ledger)
  {
    if call.RelayScore? && out.reply == ACCEPTED {
      SpacedGrows(log, mid.relay.used, mid.ledger, AcceptanceOf(mid, call));
    } else if call.ExpireMark? && out.reply.Ok? {
      SpacedLosesMark(log, mid.relay.used, mid.ledger, call.digest);
    } else {
      SpacedLater(log, mid.relay.used, mid.ledger, out.state.ledger);
    }
  }

  lemma SpacedStep(host: Host, mid: State, call: Call, log: seq<Acceptance>)
    requires Spaced(log, mid.relay.used, mid.ledger)
    ensures var out := ContractSpec.Step(host, mid, call);
            Spaced(Logged(log, mid, call, out.reply), out.state.relay.used, out.state.ledger)
  {
    EffectOfStep(host, mid, call);
    LedgerNeverFalls(host, mid, call);
    SpacedOutcome(mid, call, ContractSpec.Step(host, mid, call), log);
  }

  /** At most once, for every run with any services, keys, relayers and hashes, marks lost
      after their lifetime included: an attestation that expires within the lifetime of the
      mark it leaves is never accepted again. */
  lemma NeverAgainWithinLifetime(host: Host, s: State, calls: seq<Call>, i: nat, j: nat)
    requires i < j < |Accepted(host, s, calls)|
    requires var log := Accepted(host, s, calls);
             log[j].att.validBefore <= log[i].ledger + MARK_LIFETIME
    ensures var log := Accepted(host, s, calls);
            log[i].att.commitment != log[j].att.commitment
  {
    AcceptancesAreSpaced(host, s, calls);
  }

  /** `att`, accepted in `s`, is accepted once more after the further calls `between`. */
  ghost predicate AcceptedAgain(host: Host, s: State, relayer: Address, sub: Submission, att: Attestation, between: seq<Call>) {
    var relay := RelayScore(relayer, sub, att);
    ContractSpec.Step(host, Run(host, ContractSpec.Step(host, s, relay).state, between), relay).reply == ACCEPTED
  }

  lemma LoggedAfter(log: seq<Acceptance>, before: seq<Acceptance>, s: State, call: Call, reply: Reply)
    ensures Logged(log + before, s, call, reply) == log + Logged(before, s, call, reply)
  {
  }

  lemma {:induction false} RunKeepsSpacing(host: Host, s: State, calls: seq<Call>, log: seq<Acceptance>)
    requires Spaced(log, s.relay.used, s.ledger)
    ensures Spaced(log + Accepted(host, s, calls), Run(host, s, calls).relay.used, Run(host, s, calls).ledger)
    decreases |calls|
  {
    if calls == [] {
      assert log + Accepted(host, s, calls) == log;
    } else {
      var k := |calls| - 1;
      var before := Accepted(host, s, calls[..k]);
      RunKeepsSpacing(host, s, calls[..k], log);
      var mid := Run(host, s, calls[..k]);
      SpacedStep(host, mid, calls[k], log + before);
      LoggedAfter(log, before, mid, calls[k], Last(host, s, calls).reply);
    }
  }

  /** Half of the exact condition: whatever happens in between, a second acceptance needs an
      expiry beyond the lifetime of the first mark. */
  lemma SecondNeedsLateExpiry(host: Host, s: State, relayer: Address, sub: Submission, att: Attestation, between: seq<Call>)
    requires ContractSpec.Step(host, s, RelayScore(relayer, sub, att)).reply == ACCEPTED
    requires AcceptedAgain(host, s, relayer, sub, att, between)
    ensures att.validBefore > s.ledger + MARK_LIFETIME
  {
    var relay := RelayScore(relayer, sub, att);
    var first := AcceptanceOf(s, relay);
    SpacedStep(host, s, relay, []);
    assert [] + [first] == [first];
    SecondComesLate(host, ContractSpec.Step(host, s, relay).state, relay, between, first);
  }

  lemma SecondComesLate(host: Host, s: State, relay: Call, between: seq<Call>, first: Acceptance)
    requires relay.RelayScore? && Spaced([first], s.relay.used, s.ledger) && first.att == relay.att
    requires ContractSpec.Step(host, Run(host, s, between), relay).reply == ACCEPTED
    ensures relay.att.validBefore > first.ledger + MARK_LIFETIME
  {
    var later := Run(host, s, between);
    var log := [first] + Accepted(host, s, between);
    RunKeepsSpacing(host, s, between, [first]);
    SpacedStep(host, later, relay, log);
    LastIsLate(log, AcceptanceOf(later, relay), ContractSpec.Step(host, later, relay).state);
  }

  lemma LastIsLate(log: seq<Acceptance>, x: Acceptance, after: State)
    requires log != [] && log[0].att == x.att && Spaced(log + [x], after.relay.used, after.ledger)
    ensures x.att.validBefore > log[0].ledger + MARK_LIFETIME
  {
    var all := log + [x];
    assert all[0] == log[0] && all[|log|] == x;
  }

  /** The calls after which a still valid attestation can be relayed a second time: the mark
      outlives its lifetime and another service, whose nonce happens to match, takes over. */
  function Outliving(digest: Digest, secs: nat, next: Address): seq<Call> {
    [Tick(secs, MARK_LIFETIME + 1), ExpireMark(digest), SetService(next)]
  }

  function Outlived(s: State, digest: Digest, secs: nat, next: Address): State {
    s.(time := s.time + secs, ledger := s.ledger + MARK_LIFETIME + 1,
       relay := s.relay.(used := s.relay.used - {digest}, service := next))
  }

  lemma OutlivingRun(host: Host, s: State, digest: Digest, secs: nat, next: Address)
    requires s.admin.Some? && digest in s.relay.used && s.relay.used[digest] == s.ledger + MARK_LIFETIME
    ensures Run(host, s, Outliving(digest, secs, next)) == Outlived(s, digest, secs, next)
    ensures AdmissibleRun(host, s, Outliving(digest, secs, next))
  {
    var calls := Outliving(digest, secs, next);
    assert calls[..2][..1] == calls[..1] == [calls[0]] && calls[..1][..0] == [] && calls[..2] == [calls[0], calls[1]];
    var s1 := s.(time := s.time + secs, ledger := s.ledger + MARK_LIFETIME + 1);
    assert ContractSpec.Step(host, s, calls[0]).state == s1;
    assert Run(host, s, []) == s && AdmissibleRun(host, s, []);
    assert Run(host, s, calls[..1]) == s1 && AdmissibleRun(host, s, calls[..1]);
    var s2 := s1.(relay := s1.relay.(used := s1.relay.used - {digest}));
    assert ContractSpec.Step(host, s1, calls[1]).state == s2;
    assert Run(host, s, calls[..2]) == s2 && AdmissibleRun(host, s, calls[..2]);
    assert ContractSpec.Step(host, s2, calls[2]).state == s2.(relay := s2.relay.(service := next));
  }

  /** The other half: with an expiry beyond that lifetime, a mark lost as soon as it can be and
      a new service at the same nonce, the attestation is accepted a second time. */
  lemma LateExpiryAllowsSecond(host: Host, s: State, relayer: Address, sub: Submission, att: Attestation,
                               secs: nat, next: Address)
    requires Good(s) && CanHoldTips(s, relayer)
    requires ContractSpec.Step(host, s, RelayScore(relayer, sub, att)).reply == ACCEPTED
    requires next != s.relay.service && Nonce(s.relay, next) == att.nonce
    requires host.admits(s.relay.scores[Entry(sub.wallet, sub.pair) := sub], sub, s.time + secs, s.ledger + MARK_LIFETIME + 1)
    requires att.validBefore > s.ledger + MARK_LIFETIME
    ensures AcceptedAgain(host, s, relayer, sub, att, Outliving(att.commitment, secs, next))
  {
    FirstAcceptance(host, s, relayer, sub, att);
    StepGood(host, s, RelayScore(relayer, sub, att));
    AcceptedLate(host, s.relay, s.time, ContractSpec.Step(host, s, RelayScore(relayer, sub, att)).state, relayer, sub, att, secs, next);
  }

  /** From the state after the first acceptance; `was` is the relay ledger before it. */
  lemma AcceptedLate(host: Host, was: Relay, time: nat, s: State, relayer: Address, sub: Submission, att: Attestation,
                     secs: nat, next: Address)
    requires Good(s) && s.admin.Some? && relayer != s.self && CanHoldTips(s, relayer)
    requires Acceptable(host, was, time, s.ledger, sub, att) && SameSettings(was, s.relay) && time == s.time
    requires s.relay.used == was.used[att.commitment := s.ledger + MARK_LIFETIME]
    requires next != was.service && Nonce(s.relay, next) == att.nonce
    requires host.admits(s.relay.scores, sub, s.time + secs, s.ledger + MARK_LIFETIME + 1)
    requires att.validBefore > s.ledger + MARK_LIFETIME
    ensures ContractSpec.Step(host, Run(host, s, Outliving(att.commitment, secs, next)), RelayScore(relayer, sub, att)).reply == ACCEPTED
  {
    OutlivingRun(host, s, att.commitment, secs, next);
    RunGood(host, s, Outliving(att.commitment, secs, next));
    StillAcceptable(host, was, time, s, sub, att, secs, next);
    AcceptableIsAccepted(host, Outlived(s, att.commitment, secs, next), relayer, sub, att);
  }

  lemma StillAcceptable(host: Host, was: Relay, time: nat, s: State, sub: Submission, att: Attestation, secs: nat, next: Address)
    requires Acceptable(host, was, time, s.ledger, sub, att) && SameSettings(was, s.relay) && time == s.time
    requires s.relay.used == was.used[att.commitment := s.ledger + MARK_LIFETIME]
    requires next != was.service && Nonce(s.relay, next) == att.nonce
    requires host.admits(s.relay.scores, sub, s.time + secs, s.ledger + MARK_LIFETIME + 1)
    requires att.validBefore > s.ledger + MARK_LIFETIME
    ensures var later := Outlived(s, att.commitment, secs, next);
            Acceptable(host, later.relay, later.time, later.ledger, sub, att)
  {
  }

  lemma AcceptableIsAccepted(host: Host, s: State, relayer: Address, sub: Submission, att: Attestation)
    requires Good(s) && s.admin.Some? && relayer != s.self && CanHoldTips(s, relayer)
    requires Acceptable(host, s.relay, s.time, s.ledger, sub, att)
    ensures ContractSpec.Step(host, s, RelayScore(relayer, sub, att)).reply == ACCEPTED
  {
    LedgersReady(s);
    StepOfFamily(host, s, RelayScore(relayer, sub, att));
    AcceptedExactly(host, s.relay, s.keeper.rent, s.accounts, s.self, s.time, s.ledger, relayer, sub, att);
  }

  /** What the first acceptance leaves for a second one. */
  lemma FirstAcceptance(host: Host, s: State, relayer: Address, sub: Submission, att: Attestation)
    requires Good(s) && CanHoldTips(s, relayer)
    requires ContractSpec.Step(host, s, RelayScore(relayer, sub, att)).reply == ACCEPTED
    ensures var s1 := ContractSpec.Step(host, s, RelayScore(relayer, sub, att)).state;
            && s.admin.Some? && s1.admin == s.admin && s1.self == s.self && relayer != s.self
            && s1.time == s.time && s1.ledger == s.ledger && CanHoldTips(s1, relayer)
            && Acceptable(host, s.relay, s.time, s.ledger, sub, att)
            && SameSettings(s.relay, s1.relay)
            && s1.relay.used == s.relay.used[att.commitment := s.ledger + MARK_LIFETIME]
            && s1.relay.nonces == s.relay.nonces[s.relay.service := att.nonce + 1]
            && s1.relay.scores == s.relay.scores[Entry(sub.wallet, sub.pair) := sub]
  {
    LedgersReady(s);
    StepOfFamily(host, s, RelayScore(relayer, sub, att));
    AcceptedExactly(host, s.relay, s.keeper.rent, s.accounts, s.self, s.time, s.ledger, relayer, sub, att);
    AcceptanceMeans(host, s.relay, s.keeper.rent, s.accounts, s.self, s.time, s.ledger, relayer, sub, att);
    SettingsStay(host, s.relay, s.keeper.rent, s.accounts, s.self, s.time, s.ledger, relayer, sub, att);
    CanStillHold(host, s.relay, s.keeper.rent, s.accounts, s.self, s.time, s.ledger, relayer, sub, att);
  }

  /** The exact condition a signer can check: an accepted attestation can be accepted again,
      after some calls, if and only if it expires later than the mark it left. */
  lemma AcceptedAgainExactly(host: Host, s: State, relayer: Address, sub: Submission, att: Attestation, secs: nat, next: Address)
    requires Good(s) && CanHoldTips(s, relayer)
    requires ContractSpec.Step(host, s, RelayScore(relayer, sub, att)).reply == ACCEPTED
    requires next != s.relay.service && Nonce(s.relay, next) == att.nonce
    requires host.admits(s.relay.scores[Entry(sub.wallet, sub.pair) := sub], sub, s.time + secs, s.ledger + MARK_LIFETIME + 1)
    ensures (exists between: seq<Call> :: AcceptedAgain(host, s, relayer, sub, att, between))
            <==> att.validBefore > s.ledger + MARK_LIFETIME
  {
    forall between: seq<Call> | AcceptedAgain(host, s, relayer, sub, att, between)
      ensures att.validBefore > s.ledger + MARK_LIFETIME
    {
      SecondNeedsLateExpiry(host, s, relayer, sub, att, between);
    }
    if att.validBefore > s.ledger + MARK_LIFETIME {
      LateExpiryAllowsSecond(host, s, relayer, sub, att, secs, next);
    }
  }

  // Who lands first.

  ghost predicate CanHoldTips(s: State, who: Address) {
    CanHoldTip(s.relay, s.accounts, who)
  }

  lemma SecondIsNoop(host: Host, s: State, one: Address, other: Address, sub: Submission, att: Attestation)
    requires s.admin.Some? && one != s.self && other != s.self
    requires var out := ContractSpec.Step(host, s, RelayScore(one, sub, att));
             out.reply == ACCEPTED
    ensures var first := ContractSpec.Step(host, s, RelayScore(one, sub, att)).state;
            ContractSpec.Step(host, first, RelayScore(other, sub, att)) == Outcome(first, DUPLICATE, [])
  {
    AcceptanceMeans(host, s.relay, s.keeper.rent, s.accounts, s.self, s.time, s.ledger, one, sub, att);
    var first := ContractSpec.Step(host, s, RelayScore(one, sub, att)).state;
    GuardUnchanged(host, s, one, sub, att);
    DuplicateIsNoop(host, first.relay, first.keeper.rent, first.accounts, first.self, first.time, first.ledger, other, sub, att);
  }

  lemma GuardUnchanged(host: Host, s: State, one: Address, sub: Submission, att: Attestation)
    requires s.admin.Some? && ContractSpec.Step(host, s, RelayScore(one, sub, att)).reply == ACCEPTED
    ensures var first := ContractSpec.Step(host, s, RelayScore(one, sub, att)).state;
            Guard(first.relay, first.ledger, sub, att).Ok? && first.admin == s.admin && first.self == s.self
  {
  }

  lemma RelayersAgree(host: Host, s: State, one: Address, other: Address, sub: Submission, att: Attestation)
    requires Good(s) && s.admin.Some? && one != s.self && other != s.self && CanHoldTips(s, one) && CanHoldTips(s, other)
    ensures var x := ContractSpec.Step(host, s, RelayScore(one, sub, att));
            var y := ContractSpec.Step(host, s, RelayScore(other, sub, att));
            x.state.relay == y.state.relay && x.state.keeper == y.state.keeper && x.reply == y.reply
  {
    LedgersReady(s);
    RelayerIsIrrelevant(host, s.relay, s.keeper.rent, s.accounts, s.self, s.time, s.ledger, one, other, sub, att);
  }

  /** Two relayers racing with one attestation: whichever lands first, the scores, the nonces,
      the marks, the tip pool and the rent queue end up the same. */
  lemma LandingOrderIsIrrelevant(host: Host, s: State, one: Address, other: Address, sub: Submission, att: Attestation)
    requires Good(s) && s.admin.Some? && one != s.self && other != s.self && CanHoldTips(s, one) && CanHoldTips(s, other)
    ensures var x := ContractSpec.Step(host, s, RelayScore(one, sub, att)).state;
            var y := ContractSpec.Step(host, s, RelayScore(other, sub, att)).state;
            var x' := ContractSpec.Step(host, x, RelayScore(other, sub, att)).state;
            var y' := ContractSpec.Step(host, y, RelayScore(one, sub, att)).state;
            x'.relay == y'.relay && x'.keeper == y'.keeper
  {
    RelayersAgree(host, s, one, other, sub, att);
    if ContractSpec.Step(host, s, RelayScore(one, sub, att)).reply == ACCEPTED {
      SecondIsNoop(host, s, one, other, sub, att);
      SecondIsNoop(host, s, other, one, sub, att);
    } else {
      NotAcceptedIsUnchanged(host, s, AdminOf(s), one, sub, att);
      NotAcceptedIsUnchanged(host, s, AdminOf(s), other, sub, att);
    }
  }
}
