/** The withdrawal timelock over every run of the contract. */
module CreditRuns {
  import opened Tokens
  import opened Errors
  import opened AttestedRelay
  import opened ContractSpec
  import opened ContractRuns
  import GateCredits

  predicate NoRequestBy(calls: seq<Call>, who: Address) {
    forall i :: 0 <= i < |calls| ==> !(calls[i].RequestWithdrawal? && calls[i].who == who)
  }

  /** How a step can change the pending request of `who`: only its own request adds one. */
  ghost predicate AddsNoRequest(s: State, after: State, who: Address) {
    who in after.credit.requests ==> who in s.credit.requests && after.credit.requests[who] == s.credit.requests[who]
  }

  lemma CreditAddsNoRequest(s: State, call: Call, who: Address)
    requires call.Deposit? || call.RequestWithdrawal? || call.Withdraw? || call.WithdrawRevenue? || call.Meter?
    requires !(call.RequestWithdrawal? && call.who == who)
    ensures AddsNoRequest(s, CreditStep(s, call).state, who)
  {
  }

  lemma SettingAddsNoRequest(s: State, call: Call)
    requires IsCreditSetting(call)
    ensures CreditSetting(s, call).state.credit.requests == s.credit.requests
  {
  }

  /** Calls of the other ledgers and of the world leave the credit ledger alone. */
  lemma OthersKeepCredit(host: Host, s: State, call: Call)
    requires IsOutside(call) || IsSwitch(call) || IsRelayCall(call) || IsKeeperCall(call)
    ensures ContractSpec.Step(host, s, call).state.credit == s.credit
  {
    if IsRelayCall(call) {
      RelayKeepsCredit(host, s, AdminOf(s), call);
    } else if IsKeeperCall(call) {
      KeeperKeepsCredit(s, AdminOf(s), call);
    }
  }

  lemma RelayKeepsCredit(host: Host, s: State, admin: Address, call: Call)
    requires IsRelayCall(call)
    ensures RelayStep(host, s, admin, call).state.credit == s.credit
  {
  }

  lemma KeeperKeepsCredit(s: State, admin: Address, call: Call)
    requires IsKeeperCall(call)
    ensures KeeperStep(s, admin, call).state.credit == s.credit
  {
  }

  lemma StepAddsNoRequest(host: Host, s: State, call: Call, who: Address)
    requires !(call.RequestWithdrawal? && call.who == who)
    ensures AddsNoRequest(s, ContractSpec.Step(host, s, call).state, who)
  {
    if IsOutside(call) || IsSwitch(call) || IsRelayCall(call) || IsKeeperCall(call) {
      OthersKeepCredit(host, s, call);
    } else if IsCreditSetting(call) {
      SettingAddsNoRequest(s, call);
    } else {
      CreditAddsNoRequest(s, call, who);
    }
  }

  lemma {:induction false} RunAddsNoRequest(host: Host, s: State, calls: seq<Call>, who: Address)
    requires NoRequestBy(calls, who)
    ensures AddsNoRequest(s, Run(host, s, calls), who)
    decreases |calls|
  {
    if calls != [] {
      var k := |calls| - 1;
      RunAddsNoRequest(host, s, calls[..k], who);
      StepAddsNoRequest(host, Run(host, s, calls[..k]), calls[k], who);
    }
  }

  lemma WithdrawalNeedsRequest(host: Host, s: State, who: Address)
    requires ContractSpec.Step(host, s, Withdraw(who)).reply.Ok?
    ensures who in s.credit.requests && s.credit.requests[who].unlockAt <= s.time
    ensures ContractSpec.Step(host, s, Withdraw(who)).reply.value == s.credit.requests[who].amount
    ensures who !in ContractSpec.Step(host, s, Withdraw(who)).state.credit.requests
  {
  }

  /** The timelock: whatever happens between a request and the withdrawal that completes it,
      governance shortening the delay included, the withdrawal comes at least the delay then
      in force after the request and pays exactly the requested amount. */
  lemma WithdrawalTakesDelay(host: Host, s: State, who: Address, amount: int, between: seq<Call>)
    requires ContractSpec.Step(host, s, RequestWithdrawal(who, amount)).reply.Ok?
    requires NoRequestBy(between, who)
    requires var later := Run(host, ContractSpec.Step(host, s, RequestWithdrawal(who, amount)).state, between);
             ContractSpec.Step(host, later, Withdraw(who)).reply.Ok?
    ensures var later := Run(host, ContractSpec.Step(host, s, RequestWithdrawal(who, amount)).state, between);
            && later.time >= SatAddTo(U64_MAX, s.time, s.credit.delay)
            && ContractSpec.Step(host, later, Withdraw(who)).reply == Ok(amount)
  {
    var requested := ContractSpec.Step(host, s, RequestWithdrawal(who, amount)).state;
    RunAddsNoRequest(host, requested, between, who);
    WithdrawalNeedsRequest(host, Run(host, requested, between), who);
  }

  /** One request, one withdrawal: until the depositor asks again, a second one fails. */
  lemma RequestPaysOnce(host: Host, s: State, who: Address, between: seq<Call>)
    requires ContractSpec.Step(host, s, Withdraw(who)).reply.Ok? && NoRequestBy(between, who)
    ensures var later := Run(host, ContractSpec.Step(host, s, Withdraw(who)).state, between);
            ContractSpec.Step(host, later, Withdraw(who)).reply.Fail?
  {
    var withdrawn := ContractSpec.Step(host, s, Withdraw(who)).state;
    WithdrawalNeedsRequest(host, s, who);
    RunAddsNoRequest(host, withdrawn, between, who);
    var later := Run(host, withdrawn, between);
    if ContractSpec.Step(host, later, Withdraw(who)).reply.Ok? {
      WithdrawalNeedsRequest(host, later, who);
    }
  }

  // Nobody else can stop a withdrawal.

  predicate IsOwnCall(call: Call, who: Address) {
    (call.RequestWithdrawal? && call.who == who) || call == Withdraw(who) || call == Meter(who)
  }

  predicate NoneOwn(calls: seq<Call>, who: Address) {
    forall i :: 0 <= i < |calls| ==> !IsOwnCall(calls[i], who)
  }

  ghost predicate KeepsRequest(s: State, after: State, who: Address) {
    who in s.credit.requests ==> who in after.credit.requests && after.credit.requests[who] == s.credit.requests[who]
  }

  lemma CreditKeepsRequest(s: State, call: Call, who: Address)
    requires call.Deposit? || call.RequestWithdrawal? || call.Withdraw? || call.WithdrawRevenue? || call.Meter?
    requires !IsOwnCall(call, who)
    ensures KeepsRequest(s, CreditStep(s, call).state, who)
  {
  }

  lemma StepKeepsRequest(host: Host, s: State, call: Call, who: Address)
    requires !IsOwnCall(call, who)
    ensures KeepsRequest(s, ContractSpec.Step(host, s, call).state, who)
  {
    if IsOutside(call) || IsSwitch(call) || IsRelayCall(call) || IsKeeperCall(call) {
      OthersKeepCredit(host, s, call);
    } else if IsCreditSetting(call) {
      SettingAddsNoRequest(s, call);
    } else {
      CreditKeepsRequest(s, call, who);
    }
  }

  /** A run without calls of `who` keeps its request and does not lower its balance. */
  lemma {:induction false} RunKeepsCredit(host: Host, s: State, calls: seq<Call>, who: Address)
    requires Good(s) && AdmissibleRun(host, s, calls) && NoneOwn(calls, who)
    ensures KeepsRequest(s, Run(host, s, calls), who)
    ensures GateCredits.Balance(Run(host, s, calls).credit, who) >= GateCredits.Balance(s.credit, who)
    decreases |calls|
  {
    if calls != [] {
      var k := |calls| - 1;
      var mid := Run(host, s, calls[..k]);
      RunKeepsCredit(host, s, calls[..k], who);
      RunGood(host, s, calls[..k]);
      StepKeepsRequest(host, mid, calls[k], who);
      if GateCredits.Balance(ContractSpec.Step(host, mid, calls[k]).state.credit, who) < GateCredits.Balance(mid.credit, who) {
        OnlyOwnerLowersBalance(host, mid, calls[k], who);
      }
    }
  }

  lemma RequestIsRecorded(host: Host, s: State, who: Address, amount: int)
    requires ContractSpec.Step(host, s, RequestWithdrawal(who, amount)).reply.Ok?
    ensures var after := ContractSpec.Step(host, s, RequestWithdrawal(who, amount)).state;
            && who in after.credit.requests && who != s.self && after.self == s.self
            && after.credit.requests[who] == GateCredits.Request(amount, SatAddTo(U64_MAX, s.time, s.credit.delay))
            && amount <= GateCredits.Balance(after.credit, who)
  {
  }

  lemma WithdrawIs(host: Host, s: State, who: Address)
    ensures ContractSpec.Step(host, s, Withdraw(who)).reply
            == GateCredits.Withdraw(s.credit, s.accounts, s.self, s.time, who).reply
  {
  }

  /** A pending request within the balance survives any run without calls of its owner. */
  lemma PendingIsPaid(host: Host, s: State, who: Address, between: seq<Call>)
    requires Good(s) && who != s.self && AdmissibleRun(host, s, between) && NoneOwn(between, who)
    requires who in s.credit.requests && s.credit.requests[who].amount <= GateCredits.Balance(s.credit, who)
    requires var later := Run(host, s, between);
             && later.time >= s.credit.requests[who].unlockAt
             && (later.credit.token.Some? ==>
                   Held(later.accounts, later.credit.token.value, who) + s.credit.requests[who].amount <= I128_MAX)
    ensures ContractSpec.Step(host, Run(host, s, between), Withdraw(who)).reply == Ok(s.credit.requests[who].amount)
  {
    var later := Run(host, s, between);
    RunGood(host, s, between);
    RunKeepsCredit(host, s, between, who);
    LedgersReady(later);
    GateCredits.DueWithdrawalSucceeds(later.credit, later.accounts, later.self, later.time, who);
    WithdrawIs(host, later, who);
  }

  /** Whatever governance, relayers, keepers and other depositors do after a request, pausing,
      freezing, changing delays and fees and taking revenue included, the depositor is paid
      the full amount once the delay has passed. The token's own limit on what the depositor
      can hold is the only other condition. */
  lemma NobodyBlocksWithdrawal(host: Host, s: State, who: Address, amount: int, between: seq<Call>)
    requires Good(s) && ContractSpec.Step(host, s, RequestWithdrawal(who, amount)).reply.Ok?
    requires var requested := ContractSpec.Step(host, s, RequestWithdrawal(who, amount)).state;
             var later := Run(host, requested, between);
             && AdmissibleRun(host, requested, between) && NoneOwn(between, who)
             && later.time >= SatAddTo(U64_MAX, s.time, s.credit.delay)
             && (later.credit.token.Some? ==> Held(later.accounts, later.credit.token.value, who) + amount <= I128_MAX)
    ensures var requested := ContractSpec.Step(host, s, RequestWithdrawal(who, amount)).state;
            ContractSpec.Step(host, Run(host, requested, between), Withdraw(who)).reply == Ok(amount)
  {
    RequestIsRecorded(host, s, who, amount);
    StepGood(host, s, RequestWithdrawal(who, amount));
    PendingIsPaid(host, ContractSpec.Step(host, s, RequestWithdrawal(who, amount)).state, who, between);
  }

  // Any credit can be taken out.

  lemma RequestIs(host: Host, s: State, who: Address, amount: int)
    ensures ContractSpec.Step(host, s, RequestWithdrawal(who, amount))
            == WithCredit(s, GateCredits.RequestWithdrawal(s.credit, s.accounts, s.self, s.time, who, amount))
  {
  }

  /** What a withdrawal that goes through does: the depositor holds that much more of the token
      and has that much less credit. */
  ghost predicate PaysOut(s: State, out: Outcome, who: Address, amount: int) {
    && out.reply == Ok(amount) && s.credit.token.Some?
    && Held(out.state.accounts, s.credit.token.value, who) == Held(s.accounts, s.credit.token.value, who) + amount
    && GateCredits.Balance(out.state.credit, who) == GateCredits.Balance(s.credit, who) - amount
  }

  lemma WithdrawalPaysOut(host: Host, s: State, who: Address)
    requires Good(s) && ContractSpec.Step(host, s, Withdraw(who)).reply.Ok?
    ensures PaysOut(s, ContractSpec.Step(host, s, Withdraw(who)), who, ContractSpec.Step(host, s, Withdraw(who)).reply.value)
  {
    LedgersReady(s);
    GateCredits.WithdrawKeeps(s.credit, s.accounts, s.self, s.time, who);
    var out := WithCredit(s, GateCredits.Withdraw(s.credit, s.accounts, s.self, s.time, who));
    assert ContractSpec.Step(host, s, Withdraw(who)) == out;
  }

  /** From every good state and for every depositor: any amount within the balance can be
      requested, first request or not, and whatever others do meanwhile it is paid in full once
      the delay has passed. */
  lemma AnyCreditIsPaid(host: Host, s: State, who: Address, amount: int, between: seq<Call>)
    requires Good(s) && who != s.self && 0 < amount <= GateCredits.Balance(s.credit, who)
    requires var requested := ContractSpec.Step(host, s, RequestWithdrawal(who, amount)).state;
             var later := Run(host, requested, between);
             && AdmissibleRun(host, requested, between) && NoneOwn(between, who)
             && (later.time >= s.time + s.credit.delay || later.time >= U64_MAX)
             && (later.credit.token.Some? ==> Held(later.accounts, later.credit.token.value, who) + amount <= I128_MAX)
    ensures ContractSpec.Step(host, s, RequestWithdrawal(who, amount)).reply.Ok?
    ensures var later := Run(host, ContractSpec.Step(host, s, RequestWithdrawal(who, amount)).state, between);
            PaysOut(later, ContractSpec.Step(host, later, Withdraw(who)), who, amount)
  {
    RequestIs(host, s, who, amount);
    GateCredits.RequestAcceptedExactly(s.credit, s.accounts, s.self, s.time, who, amount);
    NobodyBlocksWithdrawal(host, s, who, amount, between);
    var requested := ContractSpec.Step(host, s, RequestWithdrawal(who, amount)).state;
    StepGood(host, s, RequestWithdrawal(who, amount));
    RunGood(host, requested, between);
    WithdrawalPaysOut(host, Run(host, requested, between), who);
  }

  /** In particular the depositor can do it alone, by waiting. */
  lemma WaitingIsEnough(host: Host, s: State, who: Address, amount: int)
    requires Good(s) && who != s.self && 0 < amount <= GateCredits.Balance(s.credit, who)
    requires s.credit.token.Some? ==> Held(s.accounts, s.credit.token.value, who) + amount <= I128_MAX
    ensures var requested := ContractSpec.Step(host, s, RequestWithdrawal(who, amount)).state;
            var waited := ContractSpec.Step(host, requested, Tick(s.credit.delay, 0)).state;
            PaysOut(waited, ContractSpec.Step(host, waited, Withdraw(who)), who, amount)
  {
    var requested := ContractSpec.Step(host, s, RequestWithdrawal(who, amount)).state;
    RequestIs(host, s, who, amount);
    GateCredits.RequestAcceptedExactly(s.credit, s.accounts, s.self, s.time, who, amount);
    var waited := requested.(time := s.time + s.credit.delay);
    var wait := [Tick(s.credit.delay, 0)];
    assert wait[..0] == [] && Run(host, requested, []) == requested && AdmissibleRun(host, requested, []);
    assert ContractSpec.Step(host, requested, wait[0]).state == waited;
    assert Run(host, requested, wait) == waited && AdmissibleRun(host, requested, wait);
    AnyCreditIsPaid(host, s, who, amount, wait);
  }
}
