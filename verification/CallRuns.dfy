/** When each call of the contract is accepted, in terms of the contract's own state. */
module CallRuns {
  import opened Options
  import opened Tokens
  import opened Errors
  import opened FeeSchedule
  import opened RentQueue
  import opened RelayPreimage
  import opened AttestedRelay
  import opened ContractSpec
  import GateCredits
  import KeeperPool

  /** The token lets the contract take `amount` from `from`. */
  predicate CanTake(s: State, token: Option<Address>, from: Address, amount: int) {
    && from != s.self && token.Some? && 0 < amount <= Held(s.accounts, token.value, from)
    && Held(s.accounts, token.value, s.self) + amount <= I128_MAX
  }

  /** `who` can hold `amount` more of the token. */
  predicate CanGive(s: State, token: Option<Address>, who: Address, amount: int) {
    token.Some? && Held(s.accounts, token.value, who) + amount <= I128_MAX
  }

  /** Deposits need no administrator, only tokens. */
  lemma DepositAccepted(host: Host, s: State, who: Address, amount: int)
    requires Good(s)
    ensures ContractSpec.Step(host, s, Deposit(who, amount)).reply.Ok? <==> CanTake(s, s.credit.token, who, amount)
  {
    LedgersReady(s);
    GateCredits.DepositAcceptedExactly(s.credit, s.accounts, s.self, who, amount);
    assert ContractSpec.Step(host, s, Deposit(who, amount))
           == WithCredit(s, GateCredits.Deposit(s.credit, s.accounts, s.self, who, amount));
  }

  lemma RequestAccepted(host: Host, s: State, who: Address, amount: int)
    ensures ContractSpec.Step(host, s, RequestWithdrawal(who, amount)).reply.Ok?
            <==> who != s.self && 0 < amount <= GateCredits.Balance(s.credit, who)
  {
    if who != s.self {
      GateCredits.RequestAcceptedExactly(s.credit, s.accounts, s.self, s.time, who, amount);
    }
    assert ContractSpec.Step(host, s, RequestWithdrawal(who, amount))
           == WithCredit(s, GateCredits.RequestWithdrawal(s.credit, s.accounts, s.self, s.time, who, amount));
  }

  /** A withdrawal is paid exactly when a due request is within the balance and its owner can
      hold the amount. */
  lemma WithdrawalAccepted(host: Host, s: State, who: Address)
    requires Good(s)
    ensures ContractSpec.Step(host, s, Withdraw(who)).reply.Ok?
            <==> && who != s.self && who in s.credit.requests && s.credit.requests[who].unlockAt <= s.time
                 && s.credit.requests[who].amount <= GateCredits.Balance(s.credit, who)
                 && CanGive(s, s.credit.token, who, s.credit.requests[who].amount)
  {
    LedgersReady(s);
    if who != s.self {
      GateCredits.WithdrawRefusals(s.credit, s.accounts, s.self, s.time, who);
      if who in s.credit.requests && s.credit.requests[who].unlockAt <= s.time {
        GateCredits.DueRequestClearedExactly(s.credit, s.accounts, s.self, s.time, who);
        GateCredits.WithdrawKeeps(s.credit, s.accounts, s.self, s.time, who);
      }
    }
    assert ContractSpec.Step(host, s, Withdraw(who))
           == WithCredit(s, GateCredits.Withdraw(s.credit, s.accounts, s.self, s.time, who));
  }

  lemma RevenueAccepted(host: Host, s: State, recipient: Address, amount: int)
    requires Good(s)
    ensures ContractSpec.Step(host, s, WithdrawRevenue(recipient, amount)).reply.Ok?
            <==> && s.admin.Some? && 0 < amount <= s.credit.revenue
                 && (recipient == s.self || CanGive(s, s.credit.token, recipient, amount))
  {
    LedgersReady(s);
    if s.admin.Some? {
      GateCredits.RevenueAcceptedExactly(s.credit, s.accounts, s.self, recipient, amount);
      assert ContractSpec.Step(host, s, WithdrawRevenue(recipient, amount))
             == WithCredit(s, GateCredits.WithdrawRevenue(s.credit, s.accounts, s.self, recipient, amount));
    } else {
      assert ContractSpec.Step(host, s, WithdrawRevenue(recipient, amount)) == Refused(s, NotInitialized);
    }
  }

  /** A metered query goes through exactly when the balance covers the fee of the calls already
      made in the consumer's window, or nothing is charged. */
  lemma QueryAccepted(host: Host, s: State, consumer: Address)
    requires Good(s)
    ensures var c := s.credit;
            var exempt := consumer in c.exempt && s.time < c.exempt[consumer].expiresAt;
            var counted := consumer in c.volume && s.ledger - c.volume[consumer].start < c.window;
            ContractSpec.Step(host, s, Meter(consumer)).reply.Ok?
            <==> && s.admin.Some? && consumer != s.self
                 && (exempt || FeeAt(c.tiers, if counted then c.volume[consumer].calls else 0) <= GateCredits.Balance(c, consumer))
  {
    if s.admin.Some? {
      LedgersReady(s);
      GateCredits.MeterCharges(s.credit, s.accounts, s.self, s.time, s.ledger, consumer);
      GateCredits.BalanceIsNatural(s.credit, consumer);
      assert ContractSpec.Step(host, s, Meter(consumer))
             == WithCredit(s, GateCredits.Meter(s.credit, s.accounts, s.self, s.time, s.ledger, consumer));
    } else {
      assert ContractSpec.Step(host, s, Meter(consumer)) == Refused(s, NotInitialized);
    }
  }

  lemma KeeperFundingAccepted(host: Host, s: State, amount: int)
    requires Good(s)
    ensures ContractSpec.Step(host, s, FundKeeper(amount)).reply.Ok?
            <==> s.admin.Some? && CanTake(s, s.keeper.token, s.admin.value, amount)
  {
    LedgersReady(s);
    if s.admin.Some? {
      KeeperPool.FundExactly(s.keeper, s.accounts, s.self, s.ledger, s.admin.value, amount);
      assert ContractSpec.Step(host, s, FundKeeper(amount))
             == WithKeeper(s, KeeperPool.Fund(s.keeper, s.accounts, s.self, s.admin.value, amount));
    } else {
      assert ContractSpec.Step(host, s, FundKeeper(amount)) == Refused(s, NotInitialized);
    }
  }

  /** A keeper call by anyone that can be paid goes through whenever its batch is small enough. */
  lemma RenewalAccepted(host: Host, s: State, keeper: Address, entries: seq<Entry>)
    requires Good(s) && KeeperPool.CanReceive(s.keeper, s.accounts, keeper)
    ensures ContractSpec.Step(host, s, ExtendTtls(keeper, entries)).reply.Ok?
            <==> s.admin.Some? && keeper != s.self && |entries| <= 100
  {
    LedgersReady(s);
    if s.admin.Some? {
      assert ContractSpec.Step(host, s, ExtendTtls(keeper, entries))
             == WithKeeper(s, KeeperPool.ExtendTtls(s.keeper, s.accounts, s.self, s.ledger, keeper, entries));
      if keeper != s.self && |entries| <= 100 {
        KeeperPool.ExtendIsPaid(s.keeper, s.accounts, s.self, s.ledger, keeper, entries);
      }
    } else {
      assert ContractSpec.Step(host, s, ExtendTtls(keeper, entries)) == Refused(s, NotInitialized);
    }
  }

  lemma TipFundingAccepted(host: Host, s: State, amount: int)
    requires Good(s)
    ensures ContractSpec.Step(host, s, FundTips(amount)).reply.Ok?
            <==> s.admin.Some? && CanTake(s, s.relay.tipToken, s.admin.value, amount)
  {
    LedgersReady(s);
    if s.admin.Some? {
      FundTipsExactly(s.relay, s.keeper.rent, s.accounts, s.self, s.ledger, s.admin.value, amount);
      assert ContractSpec.Step(host, s, FundTips(amount))
             == WithRelay(s, AttestedRelay.FundTips(s.relay, s.keeper.rent, s.accounts, s.self, s.admin.value, amount));
    } else {
      assert ContractSpec.Step(host, s, FundTips(amount)) == Refused(s, NotInitialized);
    }
  }

  /** An attestation relayed by anyone that can hold the tip is accepted exactly when it is
      acceptable. */
  lemma RelayAccepted(host: Host, s: State, relayer: Address, sub: Submission, att: Attestation)
    requires Good(s) && CanHoldTip(s.relay, s.accounts, relayer)
    ensures ContractSpec.Step(host, s, RelayScore(relayer, sub, att)).reply == ACCEPTED
            <==> s.admin.Some? && relayer != s.self && Acceptable(host, s.relay, s.time, s.ledger, sub, att)
  {
    LedgersReady(s);
    if s.admin.Some? {
      assert ContractSpec.Step(host, s, RelayScore(relayer, sub, att)) == RelayStep(host, s, s.admin.value, RelayScore(relayer, sub, att));
      if relayer != s.self {
        AcceptedExactly(host, s.relay, s.keeper.rent, s.accounts, s.self, s.time, s.ledger, relayer, sub, att);
      }
    } else {
      assert ContractSpec.Step(host, s, RelayScore(relayer, sub, att)) == Refused(s, NotInitialized);
    }
  }

  lemma SubmissionAccepted(host: Host, s: State, sub: Submission, nonce: Option<nat>)
    requires Good(s)
    ensures ContractSpec.Step(host, s, SubmitDirect(sub, nonce)).reply == ACCEPTED
            <==> && s.admin.Some? && host.admits(s.relay.scores, sub, s.time, s.ledger)
                 && (nonce.Some? ==> nonce.value == Nonce(s.relay, s.relay.service) && nonce.value < U64_MAX)
  {
    if s.admin.Some? {
      SubmitAcceptedExactly(host, s.relay, s.keeper.rent, s.accounts, s.time, s.ledger, sub, nonce);
      assert ContractSpec.Step(host, s, SubmitDirect(sub, nonce)) == RelayStep(host, s, s.admin.value, SubmitDirect(sub, nonce));
    } else {
      assert ContractSpec.Step(host, s, SubmitDirect(sub, nonce)) == Refused(s, NotInitialized);
    }
  }
}
