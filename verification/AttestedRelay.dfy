/** The permissionless relay of service-signed scores: the attestation is the only
    authorization, its digest is an idempotency key, and the first accepted relay may earn a
    tip from a governance-funded pool. */
module AttestedRelay {
  import opened Bytes
  import opened Options
  import opened Tokens
  import opened Errors
  import opened RentQueue
  import opened RelayPreimage

  /** The host services the contract uses. `admits` is the validation and rate limiting that a
      submission still has to pass; `gate` is the unmetered gate, by score, entry, threshold and
      time. */
  datatype Host = Host(
    contract: ByteString,
    network: ByteString,
    hash: ByteString -> Digest,
    verify: (nat, Digest, ByteString) -> bool,
    admits: (map<Entry, Submission>, Submission, nat, nat) -> bool,
    gate: (map<Entry, Submission>, Entry, nat, nat) -> bool)

  datatype Attestation = Attestation(
    commitment: Digest,
    signature: ByteString,
    contractId: ByteString,
    contractVersion: nat,
    nonce: nat,
    validBefore: nat)

  /** `SCORE_TTL_EXTEND_TO`: how many ledgers the mark of a relayed attestation is kept. */
  const MARK_LIFETIME := 777_600

  datatype TipWindow = TipWindow(start: nat, spent: int)

  /** `used` holds the marked digests and the last ledger each mark is sure to be there. */
  datatype Relay = Relay(
    frozen: bool,
    paused: bool,
    pausedPairs: set<ByteString>,
    epochOpen: bool,
    version: nat,
    service: Address,
    key: nat,
    nonces: map<Address, nat>,
    used: map<Digest, nat>,
    scores: map<Entry, Submission>,
    tipToken: Option<Address>,
    tipPool: int,
    tip: int,
    tipCap: int,
    tipWindow: nat,
    tipState: Option<TipWindow>)

  datatype Step = Step(relay: Relay, rent: Rent, accounts: Accounts, reply: Reply)

  const ACCEPTED := Ok(1)
  const DUPLICATE := Ok(0)

  const CONTRACT_VERSION := 5

  function Fresh(service: Address): Relay {
    Relay(false, false, {}, false, CONTRACT_VERSION, service, 0, map[], map[], map[], None, 0, 0, 0, 1, None)
  }

  function Nonce(r: Relay, who: Address): nat {
    if who in r.nonces then r.nonces[who] else 0
  }

  function BindingOf(host: Host, att: Attestation): Binding {
    Binding(host.contract, host.network, att.contractId, att.contractVersion, att.nonce, att.validBefore)
  }

  function DigestOf(host: Host, sub: Submission, att: Attestation): Digest
    requires |sub.pair| <= MAX_PAIR
  {
    host.hash(Preimage(sub, BindingOf(host, att)))
  }

  /** Everything checked before the digest is looked at. */
  function Guard(r: Relay, ledger: nat, sub: Submission, att: Attestation): Reply {
    if r.frozen then Fail(ContractPaused)
    else if |sub.pair| > MAX_PAIR then Fail(InvalidAttestation)
    else if r.paused || sub.pair in r.pausedPairs then Fail(ContractPaused)
    else if !r.epochOpen then Fail(EpochClosed)
    else if att.contractVersion != r.version then Fail(StaleAttestation)
    else if ledger > att.validBefore then Fail(StaleAttestation)
    else Ok(0)
  }

  // The tip.

  /** The tip window as this call sees it. */
  function CurrentTipWindow(r: Relay, ledger: nat): TipWindow {
    var w := if r.tipState.Some? then r.tipState.value else TipWindow(ledger, 0);
    if SatSub(ledger, w.start) >= r.tipWindow then TipWindow(ledger, 0) else w
  }

  function TipPayable(r: Relay, ledger: nat): int {
    if r.tip <= 0 then 0
    else if r.tipCap == 0 then Min(r.tip, r.tipPool)
    else Min(Min(r.tip, r.tipPool), Max(r.tipCap - CurrentTipWindow(r, ledger).spent, 0))
  }

  /** The relay's books once the tip has been worked out and, if positive, paid. */
  function AfterTip(r: Relay, ledger: nat): Relay {
    var payable := TipPayable(r, ledger);
    r.(tipPool := r.tipPool - Max(payable, 0), tipState := TipStateAfter(r, ledger, payable))
  }

  function TipStateAfter(r: Relay, ledger: nat, payable: int): Option<TipWindow> {
    var w := CurrentTipWindow(r, ledger);
    if r.tip > 0 && r.tipCap != 0 then Some(TipWindow(w.start, SatAdd(w.spent, payable))) else r.tipState
  }

  function PayTip(r: Relay, rent: Rent, a: Accounts, self: Address, ledger: nat, relayer: Address): Option<(Relay, Accounts)> {
    if r.tip <= 0 || r.tipToken.None? then Some((r, a))
    else
      var payable := TipPayable(r, ledger);
      if payable <= 0 then Some((AfterTip(r, ledger), a))
      else
        var moved := Transfer(a, r.tipToken.value, self, relayer, payable);
        if moved.None? then None else Some((AfterTip(r, ledger), moved.value))
  }

  // The entry point.

  /** State after the attestation has been applied and before the tip. */
  function Applied(r: Relay, ledger: nat, digest: Digest, sub: Submission): Relay {
    r.(used := r.used[digest := ledger + MARK_LIFETIME],
       nonces := r.nonces[r.service := Nonce(r, r.service) + 1],
       scores := r.scores[Entry(sub.wallet, sub.pair) := sub])
  }

  function RelayScore(host: Host, r: Relay, rent: Rent, a: Accounts, self: Address, time: nat, ledger: nat,
                      relayer: Address, sub: Submission, att: Attestation): Step
  {
    var guard := Guard(r, ledger, sub, att);
    if guard.Fail? then Step(r, rent, a, guard)
    else if relayer == self then Step(r, rent, a, Fail(Trapped))
    else
      var digest := DigestOf(host, sub, att);
      if digest != att.commitment then Step(r, rent, a, Fail(InvalidAttestation))
      else if digest in r.used then Step(r, rent, a, DUPLICATE)
      else if !host.verify(r.key, digest, att.signature) then Step(r, rent, a, Fail(InvalidAttestation))
      else if Nonce(r, r.service) != att.nonce || att.nonce >= U64_MAX then Step(r, rent, a, Fail(InvalidAttestation))
      else if !host.admits(r.scores, sub, time, ledger) then Step(r, rent, a, Fail(SubmissionRejected))
      else
        var paid := PayTip(Applied(r, ledger, digest, sub), rent, a, self, ledger, relayer);
        if paid.None? then Step(r, rent, a, Fail(Trapped))
        else Step(paid.value.0, Write(rent, Entry(sub.wallet, sub.pair), ledger), paid.value.1, ACCEPTED)
  }

  /** The service's own path: a submission that comes with an attestation consumes the same
      nonce, one without consumes none. */
  function SubmitDirect(host: Host, r: Relay, rent: Rent, a: Accounts, time: nat, ledger: nat, sub: Submission,
                        nonce: Option<nat>): Step
  {
    if nonce.Some? && (Nonce(r, r.service) != nonce.value || nonce.value >= U64_MAX) then Step(r, rent, a, Fail(InvalidAttestation))
    else if !host.admits(r.scores, sub, time, ledger) then Step(r, rent, a, Fail(SubmissionRejected))
    else
      var entry := Entry(sub.wallet, sub.pair);
      var nonces := if nonce.Some? then r.nonces[r.service := nonce.value + 1] else r.nonces;
      Step(r.(nonces := nonces, scores := r.scores[entry := sub]), Write(rent, entry, ledger), a, ACCEPTED)
  }

  function FundTips(r: Relay, rent: Rent, a: Accounts, self: Address, admin: Address, amount: int): Step {
    if amount <= 0 then Step(r, rent, a, Fail(InvalidAmount))
    else if admin == self then Step(r, rent, a, Fail(Trapped))
    else if r.tipToken.None? then Step(r, rent, a, Fail(RelayTipTokenNotSet))
    else
      var moved := Transfer(a, r.tipToken.value, admin, self, amount);
      if moved.None? then Step(r, rent, a, Fail(Trapped))
      else Step(r.(tipPool := SatAdd(r.tipPool, amount)), rent, moved.value, Ok(SatAdd(r.tipPool, amount)))
  }

  function SetTipParams(r: Relay, rent: Rent, a: Accounts, tip: int, cap: int, window: nat): Step {
    if tip < 0 || cap < 0 then Step(r, rent, a, Fail(InvalidKeeperRewardParams))
    else Step(r.(tip := tip, tipCap := cap, tipWindow := Max(window, 1)), rent, a, Ok(0))
  }

  // Invariants.

  ghost predicate RelayOk(r: Relay) {
    && r.tipPool >= 0 && r.tip >= 0 && r.tipCap >= 0 && r.tipWindow > 0
    && (r.tipToken.None? ==> r.tipPool == 0)
    && (r.tipState.Some? ==> r.tipState.value.spent >= 0)
  }

  function Owed(r: Relay, token: Address): int {
    if r.tipToken == Some(token) then r.tipPool else 0
  }

  function Slack(r: Relay, a: Accounts, self: Address, token: Address): int {
    Held(a, token, self) - Owed(r, token)
  }

  ghost predicate Ready(r: Relay, rent: Rent, a: Accounts, self: Address, ledger: nat) {
    && RelayOk(r) && AccountsOk(a) && RentOk(rent, ledger)
    && forall t: Address :: Slack(r, a, self, t) >= 0
  }

  ghost predicate Keeps(r: Relay, rent: Rent, a: Accounts, self: Address, ledger: nat, step: Step) {
    && RelayOk(step.relay) && AccountsOk(step.accounts) && RentOk(step.rent, ledger)
    && step.relay.tipToken == r.tipToken
    && (step.reply.Fail? ==> step.relay == r && step.rent == rent && step.accounts == a)
    && forall t: Address :: Slack(step.relay, step.accounts, self, t) >= Slack(r, a, self, t)
  }

  lemma TipBounds(r: Relay, ledger: nat)
    requires RelayOk(r)
    ensures 0 <= TipPayable(r, ledger) <= r.tipPool && TipPayable(r, ledger) <= Max(r.tip, 0)
    ensures RelayOk(AfterTip(r, ledger))
    ensures AfterTip(r, ledger).tipPool == r.tipPool - TipPayable(r, ledger)
  {
  }

  /** While a cap is in force, what a window has paid never exceeds it through a tip. */
  lemma TipWithinCap(r: Relay, ledger: nat)
    requires RelayOk(r) && r.tip > 0 && r.tipCap > 0
    ensures var after := AfterTip(r, ledger);
            && after.tipState.Some?
            && after.tipState.value.spent <= Max(CurrentTipWindow(r, ledger).spent, r.tipCap)
            && (TipPayable(r, ledger) > 0 ==> after.tipState.value.spent <= r.tipCap)
  {
  }

  lemma PayTipKeeps(r: Relay, rent: Rent, a: Accounts, self: Address, ledger: nat, relayer: Address)
    requires Ready(r, rent, a, self, ledger) && relayer != self
    ensures var paid := PayTip(r, rent, a, self, ledger, relayer);
            paid.Some? ==>
              && RelayOk(paid.value.0) && AccountsOk(paid.value.1) && paid.value.0.tipToken == r.tipToken
              && forall t: Address :: Slack(paid.value.0, paid.value.1, self, t) >= Slack(r, a, self, t)
  {
    TipBounds(r, ledger);
    var paid := PayTip(r, rent, a, self, ledger, relayer);
    if paid.Some? && r.tip > 0 && r.tipToken.Some? && TipPayable(r, ledger) > 0 {
      TransferMoves(a, r.tipToken.value, self, relayer, TipPayable(r, ledger));
    }
  }

  lemma RelayKeeps(host: Host, r: Relay, rent: Rent, a: Accounts, self: Address, time: nat, ledger: nat,
                   relayer: Address, sub: Submission, att: Attestation)
    requires Ready(r, rent, a, self, ledger)
    ensures Keeps(r, rent, a, self, ledger, RelayScore(host, r, rent, a, self, time, ledger, relayer, sub, att))
  {
    var step := RelayScore(host, r, rent, a, self, time, ledger, relayer, sub, att);
    if step.reply == ACCEPTED {
      var mid := Applied(r, ledger, DigestOf(host, sub, att), sub);
      assert forall t: Address :: Slack(mid, a, self, t) == Slack(r, a, self, t);
      PayTipKeeps(mid, rent, a, self, ledger, relayer);
      WriteKeeps(rent, Entry(sub.wallet, sub.pair), ledger);
    }
  }

  lemma SubmitKeeps(host: Host, r: Relay, rent: Rent, a: Accounts, self: Address, time: nat, ledger: nat,
                    sub: Submission, nonce: Option<nat>)
    requires Ready(r, rent, a, self, ledger)
    ensures Keeps(r, rent, a, self, ledger, SubmitDirect(host, r, rent, a, time, ledger, sub, nonce))
  {
    var step := SubmitDirect(host, r, rent, a, time, ledger, sub, nonce);
    if step.reply.Ok? {
      WriteKeeps(rent, Entry(sub.wallet, sub.pair), ledger);
      assert SameTips(r, step.relay) && step.accounts == a;
      forall t: Address ensures Slack(step.relay, a, self, t) == Slack(r, a, self, t) {
      }
    }
  }

  predicate SameTips(r: Relay, r': Relay) {
    && r'.tipToken == r.tipToken && r'.tipPool == r.tipPool && r'.tip == r.tip && r'.tipCap == r.tipCap
    && r'.tipState == r.tipState
  }

  lemma FundTipsKeeps(r: Relay, rent: Rent, a: Accounts, self: Address, ledger: nat, admin: Address, amount: int)
    requires Ready(r, rent, a, self, ledger)
    ensures Keeps(r, rent, a, self, ledger, FundTips(r, rent, a, self, admin, amount))
  {
    var step := FundTips(r, rent, a, self, admin, amount);
    if step.reply.Ok? {
      TransferMoves(a, r.tipToken.value, admin, self, amount);
      assert Slack(r, a, self, r.tipToken.value) >= 0;
    }
  }

  /** Exactly the funding that the token lets through is accepted, and it all goes to the pool. */
  lemma FundTipsExactly(r: Relay, rent: Rent, a: Accounts, self: Address, ledger: nat, admin: Address, amount: int)
    requires Ready(r, rent, a, self, ledger)
    ensures var step := FundTips(r, rent, a, self, admin, amount);
            && (step.reply.Ok? <==> && amount > 0 && admin != self && r.tipToken.Some?
                                    && amount <= Held(a, r.tipToken.value, admin)
                                    && Held(a, r.tipToken.value, self) + amount <= I128_MAX)
            && step.relay == r.(tipPool := r.tipPool + if step.reply.Ok? then amount else 0)
            && (step.reply.Ok? ==> step.reply.value == r.tipPool + amount)
            && step.rent == rent
  {
    if r.tipToken.Some? {
      assert Slack(r, a, self, r.tipToken.value) >= 0;
    }
  }

  /** The tip is the most that its amount, the pool and a non-zero cap allow. */
  lemma TipIsLargest(r: Relay, ledger: nat, x: int)
    requires RelayOk(r) && r.tip > 0 && x <= r.tip && x <= r.tipPool
    requires r.tipCap > 0 ==> CurrentTipWindow(r, ledger).spent + x <= r.tipCap
    ensures x <= TipPayable(r, ledger)
  {
  }

  /** What leaves the tip pool on acceptance is the tip, and it reaches the relayer. */
  lemma TipReachesRelayer(host: Host, r: Relay, rent: Rent, a: Accounts, self: Address, time: nat, ledger: nat,
                          relayer: Address, sub: Submission, att: Attestation)
    requires Ready(r, rent, a, self, ledger)
    requires RelayScore(host, r, rent, a, self, time, ledger, relayer, sub, att).reply == ACCEPTED
    ensures var step := RelayScore(host, r, rent, a, self, time, ledger, relayer, sub, att);
            var paid := r.tipPool - step.relay.tipPool;
            && paid == (if r.tipToken.Some? then TipPayable(r, ledger) else 0)
            && (r.tipToken.Some? ==> Held(step.accounts, r.tipToken.value, relayer) == Held(a, r.tipToken.value, relayer) + paid)
  {
    var mid := Applied(r, ledger, DigestOf(host, sub, att), sub);
    TipBounds(mid, ledger);
    if r.tipToken.Some? && TipPayable(mid, ledger) > 0 {
      TransferMoves(a, r.tipToken.value, self, relayer, TipPayable(mid, ledger));
    }
  }

  /** The tip is the only token movement of a relay. */
  lemma RelayMovesTip(host: Host, r: Relay, rent: Rent, a: Accounts, self: Address, time: nat, ledger: nat,
                      relayer: Address, sub: Submission, att: Attestation)
    requires RelayOk(r)
    ensures var step := RelayScore(host, r, rent, a, self, time, ledger, relayer, sub, att);
            var paid := r.tipPool - step.relay.tipPool;
            if paid > 0
            then && step.reply == ACCEPTED && r.tipToken.Some? && relayer != self
                 && Transfer(a, r.tipToken.value, self, relayer, paid) == Some(step.accounts)
            else paid == 0 && step.accounts == a
  {
    if RelayScore(host, r, rent, a, self, time, ledger, relayer, sub, att).reply == ACCEPTED {
      TipBounds(Applied(r, ledger, DigestOf(host, sub, att), sub), ledger);
    }
  }

  /** When a new tip window opens: with the first tip, and once the recorded window has run
      its length. */
  lemma TipWindowRolls(r: Relay, ledger: nat)
    ensures CurrentTipWindow(r, ledger)
            == if r.tipWindow > 0 && r.tipState.Some? && ledger - r.tipState.value.start < r.tipWindow
               then r.tipState.value else TipWindow(ledger, 0)
  {
  }

  /** Under a non-zero cap an accepted relay adds its tip to what the recorded window has paid,
      or starts a new record at this ledger when there is none or its length has run; without
      a cap it records nothing. */
  lemma TipIsCounted(host: Host, r: Relay, rent: Rent, a: Accounts, self: Address, time: nat, ledger: nat,
                     relayer: Address, sub: Submission, att: Attestation)
    requires RelayOk(r) && RelayScore(host, r, rent, a, self, time, ledger, relayer, sub, att).reply == ACCEPTED
    ensures var open := r.tipState.Some? && ledger - r.tipState.value.start < r.tipWindow;
            RelayScore(host, r, rent, a, self, time, ledger, relayer, sub, att).relay.tipState
            == if !(r.tip > 0 && r.tipToken.Some? && r.tipCap != 0) then r.tipState
               else if open then Some(TipWindow(r.tipState.value.start, SatAdd(r.tipState.value.spent, TipPayable(r, ledger))))
               else Some(TipWindow(ledger, SatAdd(0, TipPayable(r, ledger))))
  {
    TipWindowRolls(r, ledger);
  }

  // Acceptance.

  /** Everything the service, the contract and the host have to agree on. */
  predicate Acceptable(host: Host, r: Relay, time: nat, ledger: nat, sub: Submission, att: Attestation) {
    && !r.frozen && !r.paused && sub.pair !in r.pausedPairs && r.epochOpen
    && |sub.pair| <= MAX_PAIR
    && att.contractVersion == r.version && ledger <= att.validBefore
    && att.commitment == DigestOf(host, sub, att) && att.commitment !in r.used
    && host.verify(r.key, att.commitment, att.signature)
    && att.nonce == Nonce(r, r.service) && att.nonce < U64_MAX
    && host.admits(r.scores, sub, time, ledger)
  }

  /** Whoever can hold the tip can relay: exactly the acceptable attestations are accepted,
      whatever the state of the tip pool. */
  lemma AcceptedExactly(host: Host, r: Relay, rent: Rent, a: Accounts, self: Address, time: nat, ledger: nat,
                        relayer: Address, sub: Submission, att: Attestation)
    requires Ready(r, rent, a, self, ledger) && relayer != self
    requires r.tipToken.Some? ==> Held(a, r.tipToken.value, relayer) + r.tipPool <= I128_MAX
    ensures RelayScore(host, r, rent, a, self, time, ledger, relayer, sub, att).reply == ACCEPTED
            <==> Acceptable(host, r, time, ledger, sub, att)
  {
    if Acceptable(host, r, time, ledger, sub, att) {
      TipBounds(Applied(r, ledger, att.commitment, sub), ledger);
      if r.tipToken.Some? {
        assert Slack(r, a, self, r.tipToken.value) >= 0;
      }
    }
  }

  /** Why an attestation is turned away before its digest is looked at: exactly one of a stopped
      contract or pair, an oversized pair, a closed epoch, and another contract version or an
      expiry in the past, in this order. */
  lemma TurnedAwayExactly(host: Host, r: Relay, rent: Rent, a: Accounts, self: Address, time: nat, ledger: nat,
                          relayer: Address, sub: Submission, att: Attestation)
    requires relayer != self
    ensures var reply := RelayScore(host, r, rent, a, self, time, ledger, relayer, sub, att).reply;
            var stopped := r.frozen || (|sub.pair| <= 9 && (r.paused || sub.pair in r.pausedPairs));
            && (reply == Fail(ContractPaused) <==> stopped)
            && (reply == Fail(EpochClosed) <==> !stopped && |sub.pair| <= 9 && !r.epochOpen)
            && (reply == Fail(StaleAttestation)
                <==> !stopped && |sub.pair| <= 9 && r.epochOpen && (att.contractVersion != r.version || att.validBefore < ledger))
            && (!stopped && |sub.pair| > 9 ==> reply == Fail(InvalidAttestation))
  {
  }

  /** Past the guards: a digest that is not the commitment, a bad signature and a wrong nonce are
      invalid; a marked digest is a duplicate, whatever its signature and nonce; and only a
      submission that the host does not admit is rejected. */
  lemma JudgedExactly(host: Host, r: Relay, rent: Rent, a: Accounts, self: Address, time: nat, ledger: nat,
                      relayer: Address, sub: Submission, att: Attestation)
    requires Guard(r, ledger, sub, att).Ok? && relayer != self
    ensures var reply := RelayScore(host, r, rent, a, self, time, ledger, relayer, sub, att).reply;
            var bound := att.commitment == DigestOf(host, sub, att);
            var marked := att.commitment in r.used;
            var authentic := && host.verify(r.key, att.commitment, att.signature)
                             && att.nonce == Nonce(r, r.service) && att.nonce < U64_MAX;
            && (reply == DUPLICATE <==> bound && marked)
            && (reply == Fail(InvalidAttestation) <==> !bound || (!marked && !authentic))
            && (reply == Fail(SubmissionRejected) <==> bound && !marked && authentic && !host.admits(r.scores, sub, time, ledger))
  {
  }

  /** An accepted relay leaves its entry live, touched now and at the back of the rent queue,
      unless the queue is full and does not hold it. */
  lemma RelayStores(host: Host, r: Relay, rent: Rent, a: Accounts, self: Address, time: nat, ledger: nat,
                    relayer: Address, sub: Submission, att: Attestation)
    requires RentOk(rent, ledger)
    requires RelayScore(host, r, rent, a, self, time, ledger, relayer, sub, att).reply == ACCEPTED
    ensures var after := RelayScore(host, r, rent, a, self, time, ledger, relayer, sub, att).rent;
            var e := Entry(sub.wallet, sub.pair);
            TouchedAtBack(rent, after, e, ledger) && after.live == rent.live + {e}
  {
    WriteRecords(rent, Entry(sub.wallet, sub.pair), ledger);
  }

  /** The service's own submission is accepted exactly when the host admits it and the nonce,
      if one comes with it, is the next one. It stores the score, takes the nonce, records the
      entry like a relay does, and touches nothing else. */
  lemma SubmitAcceptedExactly(host: Host, r: Relay, rent: Rent, a: Accounts, time: nat, ledger: nat,
                              sub: Submission, nonce: Option<nat>)
    requires RentOk(rent, ledger)
    ensures var step := SubmitDirect(host, r, rent, a, time, ledger, sub, nonce);
            var e := Entry(sub.wallet, sub.pair);
            && (step.reply == ACCEPTED
                <==> && host.admits(r.scores, sub, time, ledger)
                     && (nonce.Some? ==> nonce.value == Nonce(r, r.service) && nonce.value < U64_MAX))
            && (if step.reply == ACCEPTED
                then && step.relay == r.(scores := r.scores[e := sub], nonces := step.relay.nonces)
                     && step.relay.nonces == (if nonce.Some? then r.nonces[r.service := nonce.value + 1] else r.nonces)
                     && TouchedAtBack(rent, step.rent, e, ledger) && step.rent.live == rent.live + {e}
                else step.reply.Fail? && step.relay == r && step.rent == rent)
            && step.accounts == a
  {
    WriteRecords(rent, Entry(sub.wallet, sub.pair), ledger);
  }

  /** What acceptance requires and does. */
  lemma AcceptanceMeans(host: Host, r: Relay, rent: Rent, a: Accounts, self: Address, time: nat, ledger: nat,
                        relayer: Address, sub: Submission, att: Attestation)
    requires RelayScore(host, r, rent, a, self, time, ledger, relayer, sub, att).reply == ACCEPTED
    ensures |sub.pair| <= MAX_PAIR
    ensures var after := RelayScore(host, r, rent, a, self, time, ledger, relayer, sub, att).relay;
            var digest := DigestOf(host, sub, att);
            && digest == att.commitment && digest !in r.used && host.verify(r.key, digest, att.signature)
            && ledger <= att.validBefore && att.contractVersion == r.version
            && att.nonce == Nonce(r, r.service) && att.nonce < U64_MAX
            && after.used == r.used[digest := ledger + MARK_LIFETIME]
            && after.nonces == r.nonces[r.service := att.nonce + 1]
            && after.scores == r.scores[Entry(sub.wallet, sub.pair) := sub]
            && after.service == r.service && after.key == r.key
  {
  }

  /** Who relays does not matter: as long as both relayers can hold the tip, the score, the
      nonce, the idempotency mark, the rent queue and the reply are the same. */
  lemma RelayerIsIrrelevant(host: Host, r: Relay, rent: Rent, a: Accounts, self: Address, time: nat, ledger: nat,
                            one: Address, other: Address, sub: Submission, att: Attestation)
    requires Ready(r, rent, a, self, ledger) && one != self && other != self
    requires r.tipToken.Some? ==> Held(a, r.tipToken.value, one) + r.tipPool <= I128_MAX
                                  && Held(a, r.tipToken.value, other) + r.tipPool <= I128_MAX
    ensures var x := RelayScore(host, r, rent, a, self, time, ledger, one, sub, att);
            var y := RelayScore(host, r, rent, a, self, time, ledger, other, sub, att);
            x.relay == y.relay && x.rent == y.rent && x.reply == y.reply
  {
    if Guard(r, ledger, sub, att).Ok? {
      var mid := Applied(r, ledger, DigestOf(host, sub, att), sub);
      TipBounds(mid, ledger);
      if r.tipToken.Some? {
        assert Slack(r, a, self, r.tipToken.value) >= 0;
      }
    }
  }

  /** Once accepted, the same attestation relayed again by anyone, at any later moment at
      which it passes the guards and its mark is still there, is a no-op. */
  lemma DuplicateIsNoop(host: Host, r: Relay, rent: Rent, a: Accounts, self: Address, time: nat, ledger: nat,
                        relayer: Address, sub: Submission, att: Attestation)
    requires Guard(r, ledger, sub, att).Ok? && relayer != self
    requires DigestOf(host, sub, att) == att.commitment && att.commitment in r.used
    ensures RelayScore(host, r, rent, a, self, time, ledger, relayer, sub, att) == Step(r, rent, a, DUPLICATE)
  {
  }

  predicate SameSettings(r: Relay, r': Relay) {
    && r'.frozen == r.frozen && r'.paused == r.paused && r'.pausedPairs == r.pausedPairs && r'.epochOpen == r.epochOpen
    && r'.version == r.version && r'.key == r.key && r'.tipToken == r.tipToken && r'.service == r.service
  }

  predicate CanHoldTip(r: Relay, a: Accounts, who: Address) {
    r.tipToken.Some? ==> Held(a, r.tipToken.value, who) + r.tipPool <= I128_MAX
  }

  lemma TipParamsStay(host: Host, r: Relay, rent: Rent, a: Accounts, self: Address, time: nat, ledger: nat,
                      relayer: Address, sub: Submission, att: Attestation)
    ensures var after := RelayScore(host, r, rent, a, self, time, ledger, relayer, sub, att).relay;
            after.tip == r.tip && after.tipCap == r.tipCap && after.tipWindow == r.tipWindow
  {
  }

  lemma SettingsStay(host: Host, r: Relay, rent: Rent, a: Accounts, self: Address, time: nat, ledger: nat,
                     relayer: Address, sub: Submission, att: Attestation)
    ensures SameSettings(r, RelayScore(host, r, rent, a, self, time, ledger, relayer, sub, att).relay)
  {
  }

  /** Whoever could hold the tip can still hold what is left of the pool. */
  lemma CanStillHold(host: Host, r: Relay, rent: Rent, a: Accounts, self: Address, time: nat, ledger: nat,
                     relayer: Address, sub: Submission, att: Attestation)
    requires Ready(r, rent, a, self, ledger) && CanHoldTip(r, a, relayer)
    requires RelayScore(host, r, rent, a, self, time, ledger, relayer, sub, att).reply == ACCEPTED
    ensures var step := RelayScore(host, r, rent, a, self, time, ledger, relayer, sub, att);
            relayer != self && CanHoldTip(step.relay, step.accounts, relayer)
  {
    TipReachesRelayer(host, r, rent, a, self, time, ledger, relayer, sub, att);
    SettingsStay(host, r, rent, a, self, time, ledger, relayer, sub, att);
  }
}
