/** Prepaid gate-query credits: deposits, delayed withdrawals, metered debits and the
    revenue they earn. Every operation is a function from the ledger and the token accounts
    to their successors. */
module GateCredits {
  import opened Sums
  import opened Options
  import opened Tokens
  import opened Errors
  import opened FeeSchedule

  datatype Request = Request(amount: int, unlockAt: nat)
  datatype Window = Window(start: nat, calls: nat)
  datatype Exemption = Exemption(expiresAt: nat, reason: nat)

  const DEFAULT_FEE_TIER_WINDOW_LEDGERS := 17_280

  datatype Credit = Credit(
    token: Option<Address>,
    balances: map<Address, int>,
    requests: map<Address, Request>,
    delay: nat,
    liability: int,
    revenue: int,
    tiers: seq<FeeTier>,
    window: nat,
    volume: map<Address, Window>,
    exempt: map<Address, Exemption>)

  datatype Step = Step(credit: Credit, accounts: Accounts, reply: Reply)

  const EMPTY := Credit(None, map[], map[], 0, 0, 0, [], DEFAULT_FEE_TIER_WINDOW_LEDGERS, map[], map[])

  function Balance(c: Credit, who: Address): int {
    At(c.balances, who)
  }

  /** A zero balance is stored as no entry. */
  function SetBalance(balances: map<Address, int>, who: Address, amount: int): map<Address, int> {
    if amount == 0 then balances - {who} else balances[who := amount]
  }

  // Operations.

  function Deposit(c: Credit, a: Accounts, self: Address, depositor: Address, amount: int): Step {
    if amount <= 0 then Step(c, a, Fail(InvalidCreditAmount))
    else if depositor == self then Step(c, a, Fail(Trapped))
    else if c.token.None? then Step(c, a, Fail(GateCreditTokenNotSet))
    else
      var moved := Transfer(a, c.token.value, depositor, self, amount);
      if moved.None? then Step(c, a, Fail(Trapped))
      else
        var balance := SatAdd(Balance(c, depositor), amount);
        Step(c.(balances := SetBalance(c.balances, depositor, balance), liability := SatAdd(c.liability, amount)),
             moved.value, Ok(balance))
  }

  function RequestWithdrawal(c: Credit, a: Accounts, self: Address, time: nat, depositor: Address, amount: int): Step {
    if depositor == self then Step(c, a, Fail(Trapped))
    else if amount <= 0 || amount > Balance(c, depositor) then Step(c, a, Fail(InvalidCreditAmount))
    else
      var unlockAt := SatAddTo(U64_MAX, time, c.delay);
      Step(c.(requests := c.requests[depositor := Request(amount, unlockAt)]), a, Ok(unlockAt))
  }

  function Withdraw(c: Credit, a: Accounts, self: Address, time: nat, depositor: Address): Step {
    if depositor == self then Step(c, a, Fail(Trapped))
    else if depositor !in c.requests then Step(c, a, Fail(NoWithdrawalRequest))
    else
      var Request(amount, unlockAt) := c.requests[depositor];
      if time < unlockAt then Step(c, a, Fail(WithdrawalNotYetUnlocked))
      else if amount > Balance(c, depositor) then Step(c, a, Fail(InvalidCreditAmount))
      else if c.token.None? then Step(c, a, Fail(GateCreditTokenNotSet))
      else
        var moved := Transfer(a, c.token.value, self, depositor, amount);
        if moved.None? then Step(c, a, Fail(Trapped))
        else
          Step(c.(requests := c.requests - {depositor},
                  balances := SetBalance(c.balances, depositor, Balance(c, depositor) - amount),
                  liability := Max(c.liability - amount, 0)),
               moved.value, Ok(amount))
  }

  function WithdrawRevenue(c: Credit, a: Accounts, self: Address, recipient: Address, amount: int): Step {
    if amount <= 0 then Step(c, a, Fail(InvalidCreditAmount))
    else if amount > c.revenue then Step(c, a, Fail(ArithmeticOverflow))
    else if c.token.None? then Step(c, a, Fail(GateCreditTokenNotSet))
    else
      var moved := Transfer(a, c.token.value, self, recipient, amount);
      if moved.None? then Step(c, a, Fail(Trapped))
      else Step(c.(revenue := c.revenue - amount), moved.value, Ok(0))
  }

  /** The consumer's window as this call sees it: rolled over once it has run its length. */
  function CurrentWindow(c: Credit, ledger: nat, consumer: Address): Window {
    var w := if consumer in c.volume then c.volume[consumer] else Window(ledger, 0);
    if SatSub(ledger, w.start) >= c.window then Window(ledger, 0) else w
  }

  predicate IsExempt(c: Credit, time: nat, consumer: Address) {
    consumer in c.exempt && c.exempt[consumer].expiresAt > time
  }

  /** The metered query; the reply carries the fee that was charged. */
  function Meter(c: Credit, a: Accounts, self: Address, time: nat, ledger: nat, consumer: Address): Step {
    if consumer == self then Step(c, a, Fail(Trapped))
    else if IsExempt(c, time, consumer) then Step(c, a, Ok(0))
    else
      var w := CurrentWindow(c, ledger, consumer);
      var counted := c.(volume := c.volume[consumer := Window(w.start, SatAddTo(U32_MAX, w.calls, 1))]);
      var fee := FeeAt(c.tiers, w.calls);
      if fee <= 0 then Step(counted, a, Ok(fee))
      else if fee > Balance(c, consumer) then Step(c, a, Fail(InsufficientGateCredits))
      else
        Step(counted.(balances := SetBalance(c.balances, consumer, Balance(c, consumer) - fee),
                      liability := Max(c.liability - fee, 0),
                      revenue := SatAdd(c.revenue, fee)),
             a, Ok(fee))
  }

  // What every state satisfies.

  /** The liability counter is the sum of the balances; no balance, liability or revenue is
      negative; nothing is owed before a token is configured; the fee window is never empty. */
  ghost predicate CreditOk(c: Credit) {
    && (forall d :: d in c.balances ==> c.balances[d] > 0)
    && c.liability == Sum(c.balances)
    && c.revenue >= 0
    && (c.token.None? ==> c.liability == 0 && c.revenue == 0)
    && (forall d :: d in c.requests ==> c.requests[d].amount > 0)
    && ValidSchedule(c.tiers) && c.window > 0
  }

  /** What the ledger owes in `token`. */
  function Owed(c: Credit, token: Address): int {
    if c.token == Some(token) then c.liability + c.revenue else 0
  }

  /** The contract's holdings of `token` beyond what this ledger owes in it. */
  function Slack(c: Credit, a: Accounts, self: Address, token: Address): int {
    Held(a, token, self) - Owed(c, token)
  }

  ghost predicate Ready(c: Credit, a: Accounts, self: Address) {
    && CreditOk(c) && AccountsOk(a)
    && forall t: Address :: Slack(c, a, self, t) >= 0
  }

  /** The step keeps the ledger sound and lowers no token's slack. */
  ghost predicate Keeps(c: Credit, a: Accounts, self: Address, step: Step) {
    && CreditOk(step.credit) && AccountsOk(step.accounts)
    && step.credit.token == c.token
    && (step.reply.Fail? ==> step.credit == c && step.accounts == a)
    && forall t: Address :: Slack(step.credit, step.accounts, self, t) >= Slack(c, a, self, t)
  }

  /** Exactly one depositor's balance changes, by `delta`. */
  ghost predicate Moves(c: Credit, step: Step, who: Address, delta: int) {
    forall d: Address :: Balance(step.credit, d) == Balance(c, d) + if d == who then delta else 0
  }

  lemma SetBalanceSum(balances: map<Address, int>, who: Address, amount: int)
    requires (forall d :: d in balances ==> balances[d] > 0) && amount >= 0
    ensures var next := SetBalance(balances, who, amount);
            && Sum(next) == Sum(balances) - At(balances, who) + amount
            && (forall d :: d in next ==> next[d] > 0)
            && (forall d: Address :: At(next, d) == if d == who then amount else At(balances, d))
  {
    SumUpdate(balances, who, amount);
    SumDelete(balances, who);
  }

  lemma BalanceIsNatural(c: Credit, who: Address)
    requires CreditOk(c)
    ensures Balance(c, who) >= 0
  {
  }

  /** Deposits never saturate: the token itself bounds what the contract can hold, and
      the contract holds all it owes. */
  lemma DepositKeeps(c: Credit, a: Accounts, self: Address, depositor: Address, amount: int)
    requires Ready(c, a, self)
    ensures var step := Deposit(c, a, self, depositor, amount);
            && Keeps(c, a, self, step)
            && Moves(c, step, depositor, if step.reply.Ok? then amount else 0)
            && (step.reply.Ok? ==> step.credit.liability == c.liability + amount && step.credit.revenue == c.revenue)
            && (step.reply.Ok? ==> Held(step.accounts, c.token.value, depositor) == Held(a, c.token.value, depositor) - amount)
  {
    var step := Deposit(c, a, self, depositor, amount);
    if step.reply.Ok? {
      var t := c.token.value;
      TransferMoves(a, t, depositor, self, amount);
      assert Slack(c, a, self, t) >= 0;
      AtMostSum(c.balances, depositor);
      SetBalanceSum(c.balances, depositor, Balance(c, depositor) + amount);
      assert step.credit.liability == c.liability + amount;
    }
  }

  /** Exactly the deposits that the token lets through are accepted, and the reply is the new
      balance. */
  lemma DepositAcceptedExactly(c: Credit, a: Accounts, self: Address, depositor: Address, amount: int)
    requires Ready(c, a, self)
    ensures var step := Deposit(c, a, self, depositor, amount);
            && (step.reply.Ok? <==> && amount > 0 && depositor != self && c.token.Some?
                                    && amount <= Held(a, c.token.value, depositor)
                                    && Held(a, c.token.value, self) + amount <= I128_MAX)
            && (step.reply.Ok? ==> step.reply.value == Balance(c, depositor) + amount == Balance(step.credit, depositor))
            && (amount <= 0 ==> step.reply == Fail(InvalidCreditAmount))
            && (amount > 0 && depositor != self && c.token.None? ==> step.reply == Fail(GateCreditTokenNotSet))
  {
    DepositKeeps(c, a, self, depositor, amount);
    AtMostSum(c.balances, depositor);
    if c.token.Some? {
      assert Slack(c, a, self, c.token.value) >= 0;
    }
  }

  /** Exactly the amounts within the balance can be requested, pending request or not; the
      amount is stored with the moment the delay is over. */
  lemma RequestAcceptedExactly(c: Credit, a: Accounts, self: Address, time: nat, depositor: Address, amount: int)
    requires depositor != self
    ensures var step := RequestWithdrawal(c, a, self, time, depositor, amount);
            var unlockAt := if time + c.delay <= U64_MAX then time + c.delay else U64_MAX;
            && (step.reply.Ok? <==> 0 < amount <= Balance(c, depositor))
            && (if step.reply.Ok?
                then && step.reply == Ok(unlockAt)
                     && step.credit == c.(requests := c.requests[depositor := Request(amount, unlockAt)])
                else step.credit == c && step.reply == Fail(InvalidCreditAmount))
            && step.accounts == a
  {
  }

  lemma RequestKeeps(c: Credit, a: Accounts, self: Address, time: nat, depositor: Address, amount: int)
    requires Ready(c, a, self)
    ensures var step := RequestWithdrawal(c, a, self, time, depositor, amount);
            Keeps(c, a, self, step) && Moves(c, step, depositor, 0)
  {
  }

  /** The clamp in the liability counter never fires. */
  lemma WithdrawKeeps(c: Credit, a: Accounts, self: Address, time: nat, depositor: Address)
    requires Ready(c, a, self)
    ensures var step := Withdraw(c, a, self, time, depositor);
            && Keeps(c, a, self, step)
            && (step.reply.Ok? ==> step.reply.value > 0)
            && Moves(c, step, depositor, if step.reply.Ok? then -step.reply.value else 0)
            && (step.reply.Ok? ==> Held(step.accounts, c.token.value, depositor)
                                   == Held(a, c.token.value, depositor) + step.reply.value)
  {
    var step := Withdraw(c, a, self, time, depositor);
    if step.reply.Ok? {
      var amount := c.requests[depositor].amount;
      TransferMoves(a, c.token.value, self, depositor, amount);
      AtMostSum(c.balances, depositor);
      SetBalanceSum(c.balances, depositor, Balance(c, depositor) - amount);
    }
  }

  lemma RevenueKeeps(c: Credit, a: Accounts, self: Address, recipient: Address, amount: int)
    requires Ready(c, a, self)
    ensures var step := WithdrawRevenue(c, a, self, recipient, amount);
            && Keeps(c, a, self, step)
            && Moves(c, step, self, 0) && step.credit.liability == c.liability
            && step.credit.revenue == c.revenue - (if step.reply.Ok? then amount else 0)
            && (step.reply.Ok? && recipient != self ==>
                  Held(step.accounts, c.token.value, recipient) == Held(a, c.token.value, recipient) + amount)
  {
    var step := WithdrawRevenue(c, a, self, recipient, amount);
    if step.reply.Ok? {
      TransferMoves(a, c.token.value, self, recipient, amount);
    }
  }

  /** Exactly the amounts within the revenue are paid out, to any recipient that can hold them. */
  lemma RevenueAcceptedExactly(c: Credit, a: Accounts, self: Address, recipient: Address, amount: int)
    requires Ready(c, a, self)
    ensures var step := WithdrawRevenue(c, a, self, recipient, amount);
            && (step.reply.Ok? <==> && 0 < amount <= c.revenue
                                    && (recipient == self
                                        || (c.token.Some? && Held(a, c.token.value, recipient) + amount <= I128_MAX)))
            && (amount <= 0 ==> step.reply == Fail(InvalidCreditAmount))
            && (amount > Max(c.revenue, 0) ==> step.reply == Fail(ArithmeticOverflow))
  {
    SumNonNegative(c.balances);
    if c.token.Some? {
      assert Slack(c, a, self, c.token.value) >= 0;
    }
  }

  /** A metered query moves its fee from the consumer's balance to revenue, and no token. */
  lemma MeterKeeps(c: Credit, a: Accounts, self: Address, time: nat, ledger: nat, consumer: Address)
    requires Ready(c, a, self)
    ensures var step := Meter(c, a, self, time, ledger, consumer);
            var fee := if step.reply.Ok? then step.reply.value else 0;
            && Keeps(c, a, self, step) && step.accounts == a
            && fee >= 0 && Moves(c, step, consumer, -fee)
            && step.credit.liability == c.liability - fee
            && step.credit.revenue == c.revenue + fee
  {
    var step := Meter(c, a, self, time, ledger, consumer);
    if step.reply.Ok? && step.reply.value > 0 {
      var fee := step.reply.value;
      AtMostSum(c.balances, consumer);
      SetBalanceSum(c.balances, consumer, Balance(c, consumer) - fee);
      assert c.token.Some?;
      assert Slack(c, a, self, c.token.value) >= 0;
    } else {
      FeeBounds(c.tiers, CurrentWindow(c, ledger, consumer).calls);
    }
  }

  /** The window of a call: the recorded one until its length has run, and a new one, empty and
      starting now, from then on and for a consumer without a record. */
  lemma WindowRolls(c: Credit, ledger: nat, consumer: Address)
    ensures CurrentWindow(c, ledger, consumer)
            == if c.window > 0 && consumer in c.volume && ledger - c.volume[consumer].start < c.window
               then c.volume[consumer] else Window(ledger, 0)
  {
  }

  /** What a metered query costs and when it is refused: a consumer whose exemption has not
      expired pays nothing and is not counted; anyone else pays the fee of the calls already
      counted in the window, or the fee of volume 0 when there is no record or its window has
      run out, in which case a new record starts at this ledger. Only a balance below the fee
      refuses the query, and a refused query is not counted. */
  lemma MeterCharges(c: Credit, a: Accounts, self: Address, time: nat, ledger: nat, consumer: Address)
    requires CreditOk(c)
    ensures var step := Meter(c, a, self, time, ledger, consumer);
            var exempt := consumer in c.exempt && time < c.exempt[consumer].expiresAt;
            var counted := consumer in c.volume && ledger - c.volume[consumer].start < c.window;
            var start := if counted then c.volume[consumer].start else ledger;
            var calls := if counted then c.volume[consumer].calls else 0;
            var fee := if exempt then 0 else FeeAt(c.tiers, calls);
            && step.reply == (if consumer == self then Fail(Trapped)
                              else if fee > Balance(c, consumer) then Fail(InsufficientGateCredits)
                              else Ok(fee))
            && (if step.reply.Ok? && !exempt
                then && step.credit.volume == c.volume[consumer := Window(start, Min(calls + 1, U32_MAX))]
                     && step.credit.requests == c.requests
                else step.credit == c)
  {
    WindowRolls(c, ledger, consumer);
    FeeBounds(c.tiers, CurrentWindow(c, ledger, consumer).calls);
    AtMostSum(c.balances, consumer);
  }

  // Getting credit back.

  /** A due request for no more than the balance is always paid, in full and to its owner:
      neither the other ledgers nor governance can leave the contract short of tokens. The
      only other requirement is the token's own, that the owner can hold the amount. */
  lemma DueWithdrawalSucceeds(c: Credit, a: Accounts, self: Address, time: nat, depositor: Address)
    requires Ready(c, a, self) && depositor != self && depositor in c.requests
    requires c.requests[depositor].unlockAt <= time
    requires c.requests[depositor].amount <= Balance(c, depositor)
    requires c.token.Some? ==> Held(a, c.token.value, depositor) + c.requests[depositor].amount <= I128_MAX
    ensures var step := Withdraw(c, a, self, time, depositor);
            && step.reply == Ok(c.requests[depositor].amount)
            && depositor !in step.credit.requests
            && Balance(step.credit, depositor) == Balance(c, depositor) - c.requests[depositor].amount
  {
    AtMostSum(c.balances, depositor);
    assert c.token.Some?;
    assert Slack(c, a, self, c.token.value) >= 0;
    WithdrawKeeps(c, a, self, time, depositor);
  }

  /** Why a withdrawal is refused. */
  lemma WithdrawRefusals(c: Credit, a: Accounts, self: Address, time: nat, depositor: Address)
    requires depositor != self
    ensures var step := Withdraw(c, a, self, time, depositor);
            && (depositor !in c.requests ==> step.reply == Fail(NoWithdrawalRequest))
            && (depositor in c.requests && time < c.requests[depositor].unlockAt ==> step.reply == Fail(WithdrawalNotYetUnlocked))
            && (step.reply.Fail? ==> step.credit == c && step.accounts == a)
  {
  }

  /** When a due request is cleared: exactly when it is paid, that is when the balance still
      covers it and the depositor can hold the amount. In every other case the host discards
      the writes of the failed call and the request stays. */
  lemma DueRequestClearedExactly(c: Credit, a: Accounts, self: Address, time: nat, depositor: Address)
    requires Ready(c, a, self) && depositor != self && depositor in c.requests
    requires c.requests[depositor].unlockAt <= time
    ensures var step := Withdraw(c, a, self, time, depositor);
            var amount := c.requests[depositor].amount;
            && (depositor !in step.credit.requests
                <==> && amount <= Balance(c, depositor)
                     && c.token.Some? && Held(a, c.token.value, depositor) + amount <= I128_MAX)
            && (depositor in step.credit.requests ==> step.credit == c && step.accounts == a && step.reply.Fail?)
  {
    AtMostSum(c.balances, depositor);
    if c.token.Some? {
      assert Slack(c, a, self, c.token.value) >= 0;
    }
  }

  /** After a request has outgrown the balance: the withdrawal fails for every balance, zero
      included, and any amount within the balance can be requested instead. */
  lemma ShortWithdrawalKeepsRequest(c: Credit, a: Accounts, self: Address, time: nat, depositor: Address, smaller: int)
    requires depositor != self && depositor in c.requests
    requires c.requests[depositor].unlockAt <= time && Balance(c, depositor) < c.requests[depositor].amount
    ensures Withdraw(c, a, self, time, depositor) == Step(c, a, Fail(InvalidCreditAmount))
    ensures var again := RequestWithdrawal(c, a, self, time, depositor, smaller);
            && (again.reply.Ok? <==> 0 < smaller <= Balance(c, depositor))
            && again.credit.requests[depositor]
               == if again.reply.Ok? then Request(smaller, SatAddTo(U64_MAX, time, c.delay)) else c.requests[depositor]
  {
  }
}
