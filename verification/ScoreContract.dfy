/** The contract object: its storage as fields, its entry points as methods that update them
    in the order the contract does. A call that fails leaves everything as it found it,
    because the host discards what the call wrote. Every entry point is a step of
    `ContractSpec`. */
module ScoreContract {
  import opened Options
  import opened Tokens
  import opened Bytes
  import opened Errors
  import opened FeeSchedule
  import opened RentQueue
  import opened RelayPreimage
  import opened AttestedRelay
  import opened ContractSpec
  import GateCredits
  import KeeperPool

  class Contract {
    const self: Address
    const host: Host
    var admin: Option<Address>
    var time: nat
    var ledger: nat
    var accounts: Accounts

    var credit: GateCredits.Credit
    var keeper: KeeperPool.Keeper
    var relay: Relay

    function Abs(): State
      reads this
    {
      State(self, admin, time, ledger, accounts, credit, keeper, relay)
    }

    /** The object is in the state a step of the specification leads to. */
    ghost predicate Took(out: Outcome, r: Reply)
      reads this
    {
      Abs() == out.state && r == out.reply
    }

    constructor (host: Host, self: Address, accounts: Accounts, service: Address, time: nat, ledger: nat)
      ensures this.host == host && this.self == self
      ensures AccountsOk(accounts) ==> Initial(Abs())
    {
      this.host, this.self, admin, this.time, this.ledger, this.accounts := host, self, None, time, ledger, accounts;
      credit, keeper, relay := GateCredits.EMPTY, KeeperPool.EMPTY, Fresh(service);
    }

    /** What the host does with the writes of a failed call. */
    method RollBack(s: State)
      requires s.self == self
      modifies this
      ensures Abs() == s
    {
      admin, time, ledger, accounts := s.admin, s.time, s.ledger, s.accounts;
      credit, keeper, relay := s.credit, s.keeper, s.relay;
    }

    /** The token contract's `transfer`. */
    method Pay(token: Address, from: Address, to: Address, amount: int) returns (ok: bool)
      modifies this`accounts
      ensures ok == Transfer(old(accounts), token, from, to, amount).Some?
      ensures ok ==> Some(accounts) == Transfer(old(accounts), token, from, to, amount)
    {
      var moved := Transfer(accounts, token, from, to, amount);
      if moved.None? {
        return false;
      }
      accounts := moved.value;
      ok := true;
    }

    // Gate credits: the bodies.

    method DebitBalance(who: Address, amount: int) returns (ok: bool)
      modifies this`credit
      ensures ok == (amount <= GateCredits.Balance(old(credit), who))
      ensures ok ==> credit == old(credit).(balances := GateCredits.SetBalance(old(credit.balances), who, GateCredits.Balance(old(credit), who) - amount))
    {
      var balance := if who in credit.balances then credit.balances[who] else 0;
      if balance < amount {
        return false;
      }
      var next := balance - amount;
      credit := credit.(balances := if next == 0 then credit.balances - {who} else credit.balances[who := next]);
      ok := true;
    }

    method DepositBody(who: Address, amount: int) returns (r: Reply)
      modifies this`accounts, this`credit
      ensures var step := GateCredits.Deposit(old(credit), old(accounts), self, who, amount);
              r == step.reply && (r.Ok? ==> credit == step.credit && accounts == step.accounts)
    {
      if amount <= 0 {
        return Fail(InvalidCreditAmount);
      }
      if who == self {
        return Fail(Trapped);
      }
      if credit.token.None? {
        return Fail(GateCreditTokenNotSet);
      }
      var ok := Pay(credit.token.value, who, self, amount);
      if !ok {
        return Fail(Trapped);
      }
      var balance := SatAdd(GateCredits.Balance(credit, who), amount);
      credit := credit.(balances := GateCredits.SetBalance(credit.balances, who, balance));
      credit := credit.(liability := SatAdd(credit.liability, amount));
      r := Ok(balance);
    }

    method WithdrawBody(who: Address) returns (r: Reply)
      modifies this`accounts, this`credit
      ensures var step := GateCredits.Withdraw(old(credit), old(accounts), self, time, who);
              r == step.reply && (r.Ok? ==> credit == step.credit && accounts == step.accounts)
    {
      if who == self {
        return Fail(Trapped);
      }
      if who !in credit.requests {
        return Fail(NoWithdrawalRequest);
      }
      var request := credit.requests[who];
      if time < request.unlockAt {
        return Fail(WithdrawalNotYetUnlocked);
      }
      credit := credit.(requests := credit.requests - {who});
      var ok := DebitBalance(who, request.amount);
      if !ok {
        return Fail(InvalidCreditAmount);
      }
      credit := credit.(liability := Max(credit.liability - request.amount, 0));
      if credit.token.None? {
        return Fail(GateCreditTokenNotSet);
      }
      ok := Pay(credit.token.value, self, who, request.amount);
      if !ok {
        return Fail(Trapped);
      }
      r := Ok(request.amount);
    }

    method WithdrawRevenueBody(recipient: Address, amount: int) returns (r: Reply)
      modifies this`accounts, this`credit
      ensures var step := GateCredits.WithdrawRevenue(old(credit), old(accounts), self, recipient, amount);
              r == step.reply && (r.Ok? ==> credit == step.credit && accounts == step.accounts)
    {
      if amount <= 0 {
        return Fail(InvalidCreditAmount);
      }
      if amount > credit.revenue {
        return Fail(ArithmeticOverflow);
      }
      credit := credit.(revenue := credit.revenue - amount);
      if credit.token.None? {
        return Fail(GateCreditTokenNotSet);
      }
      var ok := Pay(credit.token.value, self, recipient, amount);
      if !ok {
        return Fail(Trapped);
      }
      r := Ok(0);
    }

    /** `advance_consumer_volume_window`: counts the call and returns the volume before it. */
    method AdvanceVolume(consumer: Address) returns (before: nat)
      modifies this`credit
      ensures var counted := && old(credit.window) > 0 && consumer in old(credit.volume)
                             && ledger - old(credit.volume)[consumer].start < old(credit.window);
              var start := if counted then old(credit.volume)[consumer].start else ledger;
              && before == (if counted then old(credit.volume)[consumer].calls else 0)
              && credit == old(credit).(volume := old(credit.volume)[consumer := GateCredits.Window(start, Min(before + 1, U32_MAX))])
    {
      var start, count := ledger, 0;
      if consumer in credit.volume {
        start, count := credit.volume[consumer].start, credit.volume[consumer].calls;
      }
      if SatSub(ledger, start) >= credit.window {
        start, count := ledger, 0;
      }
      credit := credit.(volume := credit.volume[consumer := GateCredits.Window(start, SatAddTo(U32_MAX, count, 1))]);
      before := count;
    }

    method MeterBody(consumer: Address) returns (r: Reply)
      requires ValidSchedule(credit.tiers)
      modifies this`credit
      ensures var step := GateCredits.Meter(old(credit), old(accounts), self, time, ledger, consumer);
              r == step.reply && (r.Ok? ==> credit == step.credit && accounts == step.accounts)
    {
      if consumer == self {
        return Fail(Trapped);
      }
      var fee := 0;
      if !(consumer in credit.exempt && credit.exempt[consumer].expiresAt > time) {
        var volumeBefore := AdvanceVolume(consumer);
        fee := ComputeGateFee(credit.tiers, volumeBefore);
      }
      if fee > 0 {
        var ok := DebitBalance(consumer, fee);
        if !ok {
          return Fail(InsufficientGateCredits);
        }
        credit := credit.(liability := Max(credit.liability - fee, 0));
        credit := credit.(revenue := SatAdd(credit.revenue, fee));
      }
      r := Ok(fee);
    }

    // Gate credits: the entry points.

    method DepositGateCredits(who: Address, amount: int) returns (r: Reply)
      modifies this
      ensures Took(ContractSpec.Step(host, old(Abs()), Call.Deposit(who, amount)), r)
    {
      var before := Abs();
      r := DepositBody(who, amount);
      if r.Fail? {
        RollBack(before);
      }
    }

    method WithdrawGateCreditsRequest(who: Address, amount: int) returns (r: Reply)
      modifies this
      ensures Took(ContractSpec.Step(host, old(Abs()), Call.RequestWithdrawal(who, amount)), r)
    {
      if who == self {
        return Fail(Trapped);
      }
      var balance := GateCredits.Balance(credit, who);
      if amount <= 0 || amount > balance {
        return Fail(InvalidCreditAmount);
      }
      var unlockAt := SatAddTo(U64_MAX, time, credit.delay);
      credit := credit.(requests := credit.requests[who := GateCredits.Request(amount, unlockAt)]);
      r := Ok(unlockAt);
    }

    method WithdrawGateCredits(who: Address) returns (r: Reply)
      modifies this
      ensures Took(ContractSpec.Step(host, old(Abs()), Call.Withdraw(who)), r)
    {
      var before := Abs();
      r := WithdrawBody(who);
      if r.Fail? {
        RollBack(before);
      }
    }

    method WithdrawGateCreditRevenue(recipient: Address, amount: int) returns (r: Reply)
      modifies this
      ensures Took(ContractSpec.Step(host, old(Abs()), Call.WithdrawRevenue(recipient, amount)), r)
    {
      if admin.None? {
        return Fail(NotInitialized);
      }
      var before := Abs();
      r := WithdrawRevenueBody(recipient, amount);
      if r.Fail? {
        RollBack(before);
      }
    }

    /** The fee is settled first; the gate is asked only when it has been. */
    method QueryRiskGateMetered(consumer: Address, entry: Entry, threshold: nat) returns (r: Reply, open: bool)
      requires ValidSchedule(credit.tiers)
      modifies this
      ensures Took(ContractSpec.Step(host, old(Abs()), Call.Meter(consumer)), r)
      ensures open <==> r.Ok? && host.gate(old(relay.scores), entry, threshold, time)
    {
      if admin.None? {
        return Fail(NotInitialized), false;
      }
      var before := Abs();
      r := MeterBody(consumer);
      if r.Fail? {
        RollBack(before);
        return r, false;
      }
      open := host.gate(relay.scores, entry, threshold, time);
    }

    method SetFeeTierSchedule(schedule: seq<FeeTier>) returns (r: Reply)
      requires forall i :: 0 <= i < |schedule| ==> schedule[i].minVolume <= U32_MAX
      modifies this
      ensures Took(ContractSpec.Step(host, old(Abs()), Call.SetTiers(schedule)), r)
    {
      if admin.None? {
        return Fail(NotInitialized);
      }
      var ok := CheckSchedule(schedule);
      if !ok {
        return Fail(InvalidFeeTierSchedule);
      }
      credit := credit.(tiers := schedule);
      r := Ok(0);
    }

    // Keeper rewards.

    /** The batch loop: renews what is eligible and adds up the reward asked for. */
    method RenewEntries(entries: seq<Entry>) returns (renewed: seq<Entry>, requested: int)
      modifies this`keeper
      ensures var batch := KeeperPool.RenewAll(KeeperPool.Batch(old(keeper.rent), []), old(keeper.window), entries, ledger);
              && keeper == old(keeper).(rent := batch.rent)
              && renewed == batch.renewed
              && requested == KeeperPool.Requested(old(keeper.perEntry), |renewed|)
    {
      renewed, requested := [], 0;
      var before := keeper;
      for i := 0 to |entries|
        invariant keeper == before.(rent := keeper.rent)
        invariant KeeperPool.Batch(keeper.rent, renewed)
                  == KeeperPool.RenewAll(KeeperPool.Batch(before.rent, []), before.window, entries[..i], ledger)
        invariant requested == KeeperPool.Requested(before.perEntry, |renewed|)
      {
        assert entries[..i + 1][..i] == entries[..i];
        var entry := entries[i];
        var ttl := RemainingTtl(keeper.rent, entry, ledger);
        if ttl.Some? && ttl.value <= keeper.window {
          if entry in keeper.rent.live {
            keeper := keeper.(rent := Track(keeper.rent, entry, ledger));
            renewed := renewed + [entry];
            if keeper.perEntry > 0 {
              requested := SatAdd(requested, keeper.perEntry);
            }
          }
        }
      }
      assert entries[..|entries|] == entries;
    }

    /** `keeper_reward_payable`. */
    method RewardPayable(requested: int) returns (payable: int)
      ensures payable == KeeperPool.Payable(keeper, requested, ledger)
    {
      payable := Min(requested, keeper.pool);
      if keeper.cap > 0 {
        var spent := if ledger in keeper.spent then keeper.spent[ledger] else 0;
        payable := Min(payable, Max(keeper.cap - spent, 0));
      }
    }

    method ExtendBody(who: Address, entries: seq<Entry>) returns (r: Reply, renewed: seq<Entry>)
      modifies this`accounts, this`keeper
      ensures var step := KeeperPool.ExtendTtls(old(keeper), old(accounts), self, ledger, who, entries);
              && r == step.reply
              && (r.Ok? ==> keeper == step.keeper && accounts == step.accounts && renewed == step.renewed)
    {
      renewed := [];
      if |entries| > KeeperPool.KEEPER_BATCH_MAX {
        return Fail(BatchTooLarge), [];
      }
      if who == self {
        return Fail(Trapped), [];
      }
      var requested;
      renewed, requested := RenewEntries(entries);
      var paid := 0;
      if requested > 0 {
        paid := RewardPayable(requested);
        if paid > 0 {
          if paid > keeper.pool {
            return Fail(ArithmeticOverflow), [];
          }
          keeper := keeper.(pool := keeper.pool - paid);
          keeper := keeper.(spent := keeper.spent[ledger := SatAdd(KeeperPool.Spent(keeper, ledger), paid)]);
          if keeper.token.None? {
            return Fail(KeeperRewardTokenNotSet), [];
          }
          var ok := Pay(keeper.token.value, self, who, paid);
          if !ok {
            return Fail(Trapped), [];
          }
        }
      }
      r := Ok(paid);
    }

    method KeeperExtendEntryTtls(who: Address, entries: seq<Entry>) returns (r: Reply, renewed: seq<Entry>)
      modifies this
      ensures var out := ContractSpec.Step(host, old(Abs()), Call.ExtendTtls(who, entries));
              Took(out, r) && renewed == out.renewed
    {
      if admin.None? {
        return Fail(NotInitialized), [];
      }
      var before := Abs();
      r, renewed := ExtendBody(who, entries);
      if r.Fail? {
        RollBack(before);
        renewed := [];
      }
    }

    method FundKeeperRewardPool(amount: int) returns (r: Reply)
      modifies this
      ensures Took(ContractSpec.Step(host, old(Abs()), Call.FundKeeper(amount)), r)
    {
      if admin.None? {
        return Fail(NotInitialized);
      }
      if amount <= 0 {
        return Fail(InvalidAmount);
      }
      if admin.value == self {
        return Fail(Trapped);
      }
      if keeper.token.None? {
        return Fail(KeeperRewardTokenNotSet);
      }
      var before := Abs();
      var ok := Pay(keeper.token.value, admin.value, self, amount);
      if !ok {
        RollBack(before);
        return Fail(Trapped);
      }
      keeper := keeper.(pool := SatAdd(keeper.pool, amount));
      r := Ok(keeper.pool);
    }

    method SetKeeperRewardParams(perEntry: int, window: nat, cap: int) returns (r: Reply)
      modifies this
      ensures Took(ContractSpec.Step(host, old(Abs()), Call.SetKeeperParams(perEntry, window, cap)), r)
    {
      if admin.None? {
        return Fail(NotInitialized);
      }
      if perEntry < 0 || perEntry > KeeperPool.MAX_KEEPER_REWARD_PER_ENTRY || window > SCORE_TTL_THRESHOLD || cap < 0 {
        return Fail(InvalidKeeperRewardParams);
      }
      keeper := keeper.(perEntry := perEntry, window := window, cap := cap);
      r := Ok(0);
    }

    // The relay.

    /** `relay_tip_payable`: rolls the window, counts the payment and returns it. */
    method CountTip() returns (payable: int)
      requires relay.tip > 0
      modifies this`relay
      ensures payable == TipPayable(old(relay), ledger)
      ensures relay == old(relay).(tipState := TipStateAfter(old(relay), ledger, payable))
    {
      if relay.tipCap == 0 {
        return Min(relay.tip, relay.tipPool);
      }
      var start, spent := ledger, 0;
      if relay.tipState.Some? {
        start, spent := relay.tipState.value.start, relay.tipState.value.spent;
      }
      if SatSub(ledger, start) >= relay.tipWindow {
        start, spent := ledger, 0;
      }
      payable := Min(Min(relay.tip, relay.tipPool), Max(relay.tipCap - spent, 0));
      relay := relay.(tipState := Some(TipWindow(start, SatAdd(spent, payable))));
    }

    method PayTipTo(relayer: Address) returns (ok: bool)
      modifies this`accounts, this`relay
      ensures var paid := PayTip(old(relay), keeper.rent, old(accounts), self, ledger, relayer);
              ok == paid.Some? && (ok ==> (relay, accounts) == paid.value)
    {
      if relay.tip > 0 {
        if relay.tipToken.Some? {
          var payable := CountTip();
          if payable > 0 {
            relay := relay.(tipPool := relay.tipPool - payable);
            ok := Pay(relay.tipToken.value, self, relayer, payable);
            return;
          }
        }
      }
      ok := true;
    }

    /** The checks in front of the digest. */
    method CheckGuards(sub: Submission, att: Attestation) returns (g: Reply)
      ensures g == Guard(relay, ledger, sub, att)
    {
      if relay.frozen {
        return Fail(ContractPaused);
      }
      if |sub.pair| > MAX_PAIR {
        return Fail(InvalidAttestation);
      }
      if relay.paused {
        return Fail(ContractPaused);
      }
      if sub.pair in relay.pausedPairs {
        return Fail(ContractPaused);
      }
      if !relay.epochOpen {
        return Fail(EpochClosed);
      }
      if att.contractVersion != relay.version {
        return Fail(StaleAttestation);
      }
      if ledger > att.validBefore {
        return Fail(StaleAttestation);
      }
      g := Ok(0);
    }

    method RelayBody(relayer: Address, sub: Submission, att: Attestation) returns (r: Reply)
      modifies this`accounts, this`keeper, this`relay
      ensures var step := AttestedRelay.RelayScore(host, old(relay), old(keeper.rent), old(accounts), self, time, ledger, relayer, sub, att);
              && r == step.reply
              && (r.Ok? ==> relay == step.relay && accounts == step.accounts && keeper == old(keeper).(rent := step.rent))
    {
      var guard := CheckGuards(sub, att);
      if guard.Fail? {
        return guard;
      }
      if relayer == self {
        return Fail(Trapped);
      }
      var preimage := BuildPreimage(sub, BindingOf(host, att));
      var digest := host.hash(preimage);
      if digest != att.commitment {
        return Fail(InvalidAttestation);
      }
      if digest in relay.used {
        return DUPLICATE;
      }
      if !host.verify(relay.key, digest, att.signature) {
        return Fail(InvalidAttestation);
      }
      var nonce := Nonce(relay, relay.service);
      if nonce != att.nonce || att.nonce >= U64_MAX {
        return Fail(InvalidAttestation);
      }
      r := ApplyRelay(relayer, sub, digest);
    }

    /** Marks the digest, advances the nonce and stores the score, if it is admitted. */
    method RecordSubmission(sub: Submission, digest: Digest) returns (ok: bool)
      modifies this`keeper, this`relay
      ensures ok == host.admits(old(relay.scores), sub, time, ledger)
      ensures ok ==> relay == Applied(old(relay), ledger, digest, sub)
                     && keeper == old(keeper).(rent := Write(old(keeper.rent), Entry(sub.wallet, sub.pair), ledger))
    {
      relay := relay.(used := relay.used[digest := ledger + MARK_LIFETIME]);
      relay := relay.(nonces := relay.nonces[relay.service := Nonce(relay, relay.service) + 1]);
      if !host.admits(relay.scores, sub, time, ledger) {
        return false;
      }
      var entry := Entry(sub.wallet, sub.pair);
      relay := relay.(scores := relay.scores[entry := sub]);
      keeper := keeper.(rent := Write(keeper.rent, entry, ledger));
      ok := true;
    }

    /** From the idempotency mark to the tip. */
    method ApplyRelay(relayer: Address, sub: Submission, digest: Digest) returns (r: Reply)
      modifies this`accounts, this`keeper, this`relay
      ensures var paid := PayTip(Applied(old(relay), ledger, digest, sub), old(keeper.rent), old(accounts), self, ledger, relayer);
              if !host.admits(old(relay.scores), sub, time, ledger) then r == Fail(SubmissionRejected)
              else if paid.None? then r == Fail(Trapped)
              else && r == ACCEPTED && (relay, accounts) == paid.value
                   && keeper == old(keeper).(rent := Write(old(keeper.rent), Entry(sub.wallet, sub.pair), ledger))
    {
      var ok := RecordSubmission(sub, digest);
      if !ok {
        return Fail(SubmissionRejected);
      }
      ok := PayTipTo(relayer);
      if !ok {
        return Fail(Trapped);
      }
      r := ACCEPTED;
    }

    method RelayAttestedScore(relayer: Address, sub: Submission, att: Attestation) returns (r: Reply)
      modifies this
      ensures Took(ContractSpec.Step(host, old(Abs()), Call.RelayScore(relayer, sub, att)), r)
    {
      if admin.None? {
        return Fail(NotInitialized);
      }
      var before := Abs();
      r := RelayBody(relayer, sub, att);
      if r.Fail? {
        RollBack(before);
      }
    }

    method FundRelayTipPool(amount: int) returns (r: Reply)
      modifies this
      ensures Took(ContractSpec.Step(host, old(Abs()), Call.FundTips(amount)), r)
    {
      if admin.None? {
        return Fail(NotInitialized);
      }
      if amount <= 0 {
        return Fail(InvalidAmount);
      }
      if admin.value == self {
        return Fail(Trapped);
      }
      if relay.tipToken.None? {
        return Fail(RelayTipTokenNotSet);
      }
      var before := Abs();
      var ok := Pay(relay.tipToken.value, admin.value, self, amount);
      if !ok {
        RollBack(before);
        return Fail(Trapped);
      }
      relay := relay.(tipPool := SatAdd(relay.tipPool, amount));
      r := Ok(relay.tipPool);
    }
  }
}
