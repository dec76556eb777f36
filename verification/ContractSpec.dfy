/** The three ledgers as one contract over shared token accounts: one step per entry point,
    runs of steps, and what holds of every run. */
module ContractSpec {
  import opened Sums
  import opened Options
  import opened Tokens
  import opened Bytes
  import opened Errors
  import opened FeeSchedule
  import opened RentQueue
  import opened RelayPreimage
  import opened AttestedRelay
  import GateCredits
  import KeeperPool

  datatype State = State(
    self: Address,
    admin: Option<Address>,
    time: nat,
    ledger: nat,
    accounts: Accounts,
    credit: GateCredits.Credit,
    keeper: KeeperPool.Keeper,
    relay: Relay)

  datatype Call =
    // Prepaid credits and metering.
    | Deposit(who: Address, amount: int)
    | RequestWithdrawal(who: Address, amount: int)
    | Withdraw(who: Address)
    | WithdrawRevenue(recipient: Address, amount: int)
    | Meter(consumer: Address)
    | SetCreditToken(token: Address)
    | SetDelay(delay: nat)
    | SetTiers(tiers: seq<FeeTier>)
    | SetFeeWindow(window: nat)
    | SetExemption(consumer: Address, expiresAt: nat, reason: nat)
    | ClearExemption(consumer: Address)
    // Keeper rewards.
    | FundKeeper(amount: int)
    | SetKeeperToken(token: Address)
    | SetKeeperParams(perEntry: int, window: nat, cap: int)
    | ExtendTtls(keeper: Address, entries: seq<Entry>)
    // Relay.
    | RelayScore(relayer: Address, sub: Submission, att: Attestation)
    | SubmitDirect(sub: Submission, nonce: Option<nat>)
    | FundTips(amount: int)
    | SetTipToken(token: Address)
    | SetTipParams(tip: int, cap: int, window: nat)
    | SetService(service: Address)
    | SetKey(key: nat)
    | SetSwitches(frozen: bool, paused: bool, pausedPairs: set<ByteString>, epochOpen: bool)
    | ExpireMark(digest: Digest)
    | ClearScore(entry: Entry)
    // The world around the contract.
    | Tick(secs: nat, ledgers: nat)
    | OutsideTransfer(token: Address, from: Address, to: Address, amount: int)
    | Mint(token: Address, to: Address, amount: int)

  /** `renewed` lists the entries a keeper call renewed. */
  datatype Outcome = Outcome(state: State, reply: Reply, renewed: seq<Entry>)

  function WithCredit(s: State, step: GateCredits.Step): Outcome {
    Outcome(s.(credit := step.credit, accounts := step.accounts), step.reply, [])
  }

  function WithKeeper(s: State, step: KeeperPool.Step): Outcome {
    Outcome(s.(keeper := step.keeper, accounts := step.accounts), step.reply, step.renewed)
  }

  function WithRelay(s: State, step: AttestedRelay.Step): Outcome {
    Outcome(s.(relay := step.relay, keeper := s.keeper.(rent := step.rent), accounts := step.accounts), step.reply, [])
  }

  function Done(s: State): Outcome {
    Outcome(s, Ok(0), [])
  }

  function Refused(s: State, error: Error): Outcome {
    Outcome(s, Fail(error), [])
  }

  predicate NeedsAdmin(call: Call) {
    !(call.Deposit? || call.RequestWithdrawal? || call.Withdraw?
      || call.Tick? || call.OutsideTransfer? || call.Mint? || call.ExpireMark?)
  }

  function CreditStep(s: State, call: Call): Outcome
    requires call.Deposit? || call.RequestWithdrawal? || call.Withdraw? || call.WithdrawRevenue? || call.Meter?
  {
    match call
    case Deposit(who, amount) => WithCredit(s, GateCredits.Deposit(s.credit, s.accounts, s.self, who, amount))
    case RequestWithdrawal(who, amount) =>
      WithCredit(s, GateCredits.RequestWithdrawal(s.credit, s.accounts, s.self, s.time, who, amount))
    case Withdraw(who) => WithCredit(s, GateCredits.Withdraw(s.credit, s.accounts, s.self, s.time, who))
    case WithdrawRevenue(recipient, amount) =>
      WithCredit(s, GateCredits.WithdrawRevenue(s.credit, s.accounts, s.self, recipient, amount))
    case Meter(consumer) =>
      WithCredit(s, GateCredits.Meter(s.credit, s.accounts, s.self, s.time, s.ledger, consumer))
  }

  predicate IsCreditSetting(call: Call) {
    call.SetCreditToken? || call.SetDelay? || call.SetTiers? || call.SetFeeWindow? || call.SetExemption? || call.ClearExemption?
  }

  function CreditSetting(s: State, call: Call): Outcome
    requires IsCreditSetting(call)
  {
    var c := s.credit;
    match call
    case SetCreditToken(token) => Done(s.(credit := c.(token := Some(token))))
    case SetDelay(delay) => Done(s.(credit := c.(delay := delay)))
    case SetTiers(tiers) =>
      if ValidSchedule(tiers) then Done(s.(credit := c.(tiers := tiers))) else Refused(s, InvalidFeeTierSchedule)
    case SetFeeWindow(window) =>
      if window == 0 then Refused(s, InvalidFeeTierSchedule) else Done(s.(credit := c.(window := window)))
    case SetExemption(consumer, expiresAt, reason) =>
      if expiresAt <= s.time then Refused(s, InvalidExemptionExpiry)
      else Done(s.(credit := c.(exempt := c.exempt[consumer := GateCredits.Exemption(expiresAt, reason)])))
    case ClearExemption(consumer) => Done(s.(credit := c.(exempt := c.exempt - {consumer})))
  }

  predicate IsKeeperCall(call: Call) {
    call.FundKeeper? || call.SetKeeperToken? || call.SetKeeperParams? || call.ExtendTtls?
  }

  function KeeperStep(s: State, admin: Address, call: Call): Outcome
    requires IsKeeperCall(call)
  {
    match call
    case FundKeeper(amount) => WithKeeper(s, KeeperPool.Fund(s.keeper, s.accounts, s.self, admin, amount))
    case SetKeeperToken(token) => Done(s.(keeper := s.keeper.(token := Some(token))))
    case SetKeeperParams(perEntry, window, cap) =>
      WithKeeper(s, KeeperPool.SetParams(s.keeper, s.accounts, perEntry, window, cap))
    case ExtendTtls(keeper, entries) =>
      WithKeeper(s, KeeperPool.ExtendTtls(s.keeper, s.accounts, s.self, s.ledger, keeper, entries))
  }

  predicate IsRelayCall(call: Call) {
    call.RelayScore? || call.SubmitDirect? || call.FundTips? || call.SetTipToken? || call.SetTipParams?
  }

  function RelayStep(host: Host, s: State, admin: Address, call: Call): Outcome
    requires IsRelayCall(call)
  {
    var r, rent := s.relay, s.keeper.rent;
    match call
    case RelayScore(relayer, sub, att) =>
      WithRelay(s, AttestedRelay.RelayScore(host, r, rent, s.accounts, s.self, s.time, s.ledger, relayer, sub, att))
    case SubmitDirect(sub, nonce) =>
      WithRelay(s, AttestedRelay.SubmitDirect(host, r, rent, s.accounts, s.time, s.ledger, sub, nonce))
    case FundTips(amount) => WithRelay(s, AttestedRelay.FundTips(r, rent, s.accounts, s.self, admin, amount))
    case SetTipToken(token) => Done(s.(relay := r.(tipToken := Some(token))))
    case SetTipParams(tip, cap, window) => WithRelay(s, AttestedRelay.SetTipParams(r, rent, s.accounts, tip, cap, window))
  }

  predicate IsSwitch(call: Call) {
    call.SetService? || call.SetKey? || call.SetSwitches? || call.ExpireMark? || call.ClearScore?
  }

  function SwitchStep(s: State, call: Call): Outcome
    requires IsSwitch(call)
  {
    var r := s.relay;
    match call
    case SetService(service) => Done(s.(relay := r.(service := service)))
    case SetKey(key) => Done(s.(relay := r.(key := key)))
    case SetSwitches(frozen, paused, pausedPairs, epochOpen) =>
      Done(s.(relay := r.(frozen := frozen, paused := paused, pausedPairs := pausedPairs, epochOpen := epochOpen)))
    case ExpireMark(digest) =>
      if digest in r.used && s.ledger > r.used[digest] then Done(s.(relay := r.(used := r.used - {digest})))
      else Refused(s, Trapped)
    case ClearScore(entry) =>
      Done(s.(keeper := s.keeper.(rent := Clear(s.keeper.rent, entry)), relay := r.(scores := r.scores - {entry})))
  }

  predicate IsOutside(call: Call) {
    call.Tick? || call.OutsideTransfer? || call.Mint?
  }

  function OutsideStep(s: State, call: Call): Outcome
    requires IsOutside(call)
  {
    match call
    case Tick(secs, ledgers) => Done(s.(time := s.time + secs, ledger := s.ledger + ledgers))
    case OutsideTransfer(token, from, to, amount) =>
      var moved := Transfer(s.accounts, token, from, to, amount);
      if from == s.self || moved.None? then Refused(s, Trapped) else Done(s.(accounts := moved.value))
    case Mint(token, to, amount) =>
      if amount < 0 || Held(s.accounts, token, to) + amount > I128_MAX then Refused(s, Trapped)
      else Done(s.(accounts := s.accounts[(token, to) := Held(s.accounts, token, to) + amount]))
  }

  function Step(host: Host, s: State, call: Call): Outcome {
    if NeedsAdmin(call) && s.admin.None? then Refused(s, NotInitialized)
    else
      var admin := if s.admin.Some? then s.admin.value else s.self;
      if IsOutside(call) then OutsideStep(s, call)
      else if IsSwitch(call) then SwitchStep(s, call)
      else if IsRelayCall(call) then RelayStep(host, s, admin, call)
      else if IsKeeperCall(call) then KeeperStep(s, admin, call)
      else if IsCreditSetting(call) then CreditSetting(s, call)
      else CreditStep(s, call)
  }

  /** A fresh contract among existing token accounts. */
  ghost predicate Initial(s: State) {
    && AccountsOk(s.accounts)
    && s.credit == GateCredits.EMPTY && s.keeper == KeeperPool.EMPTY
    && exists service :: s.relay == Fresh(service)
  }

  // Solvency.

  /** The contract's holdings of `token` beyond everything its ledgers owe in it, even when
      several of them use the same token. */
  function Free(s: State, token: Address): int {
    Held(s.accounts, token, s.self)
    - GateCredits.Owed(s.credit, token) - KeeperPool.Owed(s.keeper, token) - AttestedRelay.Owed(s.relay, token)
  }

  ghost predicate Good(s: State) {
    && AccountsOk(s.accounts)
    && GateCredits.CreditOk(s.credit) && KeeperPool.KeeperOk(s.keeper, s.ledger) && RelayOk(s.relay)
    && forall t: Address :: Free(s, t) >= 0
  }

  /** A pool's token is changed only when the pool is empty, and arguments fit their types. */
  predicate Admissible(s: State, call: Call) {
    match call
    case SetCreditToken(token) => s.credit.token == Some(token) || (s.credit.liability == 0 && s.credit.revenue == 0)
    case SetKeeperToken(token) => s.keeper.token == Some(token) || s.keeper.pool == 0
    case SetTipToken(token) => s.relay.tipToken == Some(token) || s.relay.tipPool == 0
    case SetKeeperParams(_, _, cap) => cap <= I128_MAX
    case _ => true
  }

  lemma OwedNonNegative(s: State, t: Address)
    requires Good(s)
    ensures GateCredits.Owed(s.credit, t) >= 0 && KeeperPool.Owed(s.keeper, t) >= 0 && AttestedRelay.Owed(s.relay, t) >= 0
  {
    SumNonNegative(s.credit.balances);
  }

  lemma LedgersReady(s: State)
    requires Good(s)
    ensures GateCredits.Ready(s.credit, s.accounts, s.self)
    ensures KeeperPool.Ready(s.keeper, s.accounts, s.self, s.ledger)
    ensures AttestedRelay.Ready(s.relay, s.keeper.rent, s.accounts, s.self, s.ledger)
  {
    forall t: Address
      ensures GateCredits.Slack(s.credit, s.accounts, s.self, t) >= 0
      ensures KeeperPool.Slack(s.keeper, s.accounts, s.self, t) >= 0
      ensures AttestedRelay.Slack(s.relay, s.accounts, s.self, t) >= 0
    {
      OwedNonNegative(s, t);
      assert Free(s, t) >= 0;
    }
  }

  ghost predicate KeepsGood(s: State, out: Outcome) {
    && Good(out.state) && out.state.self == s.self
    && (out.reply.Fail? ==> out.state == s)
    && forall t: Address :: Free(out.state, t) >= Free(s, t)
  }

  lemma CreditKeepsGood(s: State, step: GateCredits.Step)
    requires Good(s) && GateCredits.Keeps(s.credit, s.accounts, s.self, step)
    ensures KeepsGood(s, WithCredit(s, step))
  {
    var after := WithCredit(s, step).state;
    forall t: Address ensures Free(after, t) >= Free(s, t) && Free(s, t) >= 0 {
      assert GateCredits.Slack(step.credit, step.accounts, s.self, t) >= GateCredits.Slack(s.credit, s.accounts, s.self, t);
    }
  }

  lemma KeeperKeepsGood(s: State, step: KeeperPool.Step)
    requires Good(s) && KeeperPool.Keeps(s.keeper, s.accounts, s.self, s.ledger, step)
    ensures KeepsGood(s, WithKeeper(s, step))
  {
    var after := WithKeeper(s, step).state;
    forall t: Address ensures Free(after, t) >= Free(s, t) && Free(s, t) >= 0 {
      assert KeeperPool.Slack(step.keeper, step.accounts, s.self, t) >= KeeperPool.Slack(s.keeper, s.accounts, s.self, t);
    }
  }

  lemma RelayKeepsGood(s: State, step: AttestedRelay.Step)
    requires Good(s) && AttestedRelay.Keeps(s.relay, s.keeper.rent, s.accounts, s.self, s.ledger, step)
    ensures KeepsGood(s, WithRelay(s, step))
  {
    var after := WithRelay(s, step).state;
    forall t: Address ensures Free(after, t) >= Free(s, t) && Free(s, t) >= 0 {
      assert AttestedRelay.Slack(step.relay, step.accounts, s.self, t) >= AttestedRelay.Slack(s.relay, s.accounts, s.self, t);
    }
  }

  lemma CreditStepGood(s: State, call: Call)
    requires Good(s)
    requires call.Deposit? || call.RequestWithdrawal? || call.Withdraw? || call.WithdrawRevenue? || call.Meter?
    ensures KeepsGood(s, CreditStep(s, call))
  {
    LedgersReady(s);
    match call
    case Deposit(who, amount) =>
      GateCredits.DepositKeeps(s.credit, s.accounts, s.self, who, amount);
      CreditKeepsGood(s, GateCredits.Deposit(s.credit, s.accounts, s.self, who, amount));
    case RequestWithdrawal(who, amount) =>
      GateCredits.RequestKeeps(s.credit, s.accounts, s.self, s.time, who, amount);
      CreditKeepsGood(s, GateCredits.RequestWithdrawal(s.credit, s.accounts, s.self, s.time, who, amount));
    case Withdraw(who) =>
      GateCredits.WithdrawKeeps(s.credit, s.accounts, s.self, s.time, who);
      CreditKeepsGood(s, GateCredits.Withdraw(s.credit, s.accounts, s.self, s.time, who));
    case WithdrawRevenue(recipient, amount) =>
      GateCredits.RevenueKeeps(s.credit, s.accounts, s.self, recipient, amount);
      CreditKeepsGood(s, GateCredits.WithdrawRevenue(s.credit, s.accounts, s.self, recipient, amount));
    case Meter(consumer) =>
      GateCredits.MeterKeeps(s.credit, s.accounts, s.self, s.time, s.ledger, consumer);
      CreditKeepsGood(s, GateCredits.Meter(s.credit, s.accounts, s.self, s.time, s.ledger, consumer));
  }

  lemma CreditSettingGood(s: State, call: Call)
    requires Good(s) && IsCreditSetting(call) && Admissible(s, call)
    ensures KeepsGood(s, CreditSetting(s, call))
  {
    var after := CreditSetting(s, call).state;
    forall t: Address ensures Free(after, t) >= Free(s, t) && Free(s, t) >= 0 {
      assert GateCredits.Owed(after.credit, t) <= GateCredits.Owed(s.credit, t);
    }
  }

  lemma KeeperStepGood(s: State, admin: Address, call: Call)
    requires Good(s) && IsKeeperCall(call) && Admissible(s, call)
    ensures KeepsGood(s, KeeperStep(s, admin, call))
  {
    LedgersReady(s);
    match call
    case FundKeeper(amount) =>
      KeeperPool.FundKeeps(s.keeper, s.accounts, s.self, s.ledger, admin, amount);
      KeeperKeepsGood(s, KeeperPool.Fund(s.keeper, s.accounts, s.self, admin, amount));
    case SetKeeperToken(token) =>
      var after := KeeperStep(s, admin, call).state;
      forall t: Address ensures Free(after, t) >= Free(s, t) && Free(s, t) >= 0 {
        assert KeeperPool.Owed(after.keeper, t) <= KeeperPool.Owed(s.keeper, t);
      }
    case SetKeeperParams(perEntry, window, cap) =>
      KeeperPool.SetParamsKeeps(s.keeper, s.accounts, s.self, s.ledger, perEntry, window, cap);
      KeeperKeepsGood(s, KeeperPool.SetParams(s.keeper, s.accounts, perEntry, window, cap));
    case ExtendTtls(keeper, entries) =>
      KeeperPool.ExtendKeeps(s.keeper, s.accounts, s.self, s.ledger, keeper, entries);
      KeeperKeepsGood(s, KeeperPool.ExtendTtls(s.keeper, s.accounts, s.self, s.ledger, keeper, entries));
  }

  lemma RelayStepGood(host: Host, s: State, admin: Address, call: Call)
    requires Good(s) && IsRelayCall(call) && Admissible(s, call)
    ensures KeepsGood(s, RelayStep(host, s, admin, call))
  {
    LedgersReady(s);
    var r, rent := s.relay, s.keeper.rent;
    match call
    case RelayScore(relayer, sub, att) =>
      RelayKeeps(host, r, rent, s.accounts, s.self, s.time, s.ledger, relayer, sub, att);
      RelayKeepsGood(s, AttestedRelay.RelayScore(host, r, rent, s.accounts, s.self, s.time, s.ledger, relayer, sub, att));
    case SubmitDirect(sub, nonce) =>
      SubmitKeeps(host, r, rent, s.accounts, s.self, s.time, s.ledger, sub, nonce);
      RelayKeepsGood(s, AttestedRelay.SubmitDirect(host, r, rent, s.accounts, s.time, s.ledger, sub, nonce));
    case FundTips(amount) =>
      FundTipsKeeps(r, rent, s.accounts, s.self, s.ledger, admin, amount);
      RelayKeepsGood(s, AttestedRelay.FundTips(r, rent, s.accounts, s.self, admin, amount));
    case SetTipToken(token) =>
      var after := RelayStep(host, s, admin, call).state;
      forall t: Address ensures Free(after, t) >= Free(s, t) && Free(s, t) >= 0 {
        assert AttestedRelay.Owed(after.relay, t) <= AttestedRelay.Owed(s.relay, t);
      }
    case SetTipParams(tip, cap, window) =>
      RelayKeepsGood(s, AttestedRelay.SetTipParams(r, rent, s.accounts, tip, cap, window));
  }

  lemma SwitchStepGood(s: State, call: Call)
    requires Good(s) && IsSwitch(call)
    ensures KeepsGood(s, SwitchStep(s, call))
  {
    var after := SwitchStep(s, call).state;
    if call.ClearScore? {
      ClearKeeps(s.keeper.rent, call.entry, s.ledger);
    }
    assert forall t: Address :: Free(after, t) == Free(s, t);
  }

  lemma OutsideStepGood(s: State, call: Call)
    requires Good(s) && IsOutside(call)
    ensures KeepsGood(s, OutsideStep(s, call))
  {
    var after := OutsideStep(s, call).state;
    match call
    case Tick(_, ledgers) =>
      TickKeeps(s.keeper.rent, s.ledger, s.ledger + ledgers);
      assert forall t: Address :: Free(after, t) == Free(s, t);
    case OutsideTransfer(token, from, to, amount) =>
      if from != s.self && Transfer(s.accounts, token, from, to, amount).Some? {
        TransferMoves(s.accounts, token, from, to, amount);
      }
      forall t: Address ensures Free(after, t) >= Free(s, t) && Free(s, t) >= 0 {
        assert Held(after.accounts, t, s.self) >= Held(s.accounts, t, s.self);
      }
    case Mint(token, to, amount) =>
      forall t: Address ensures Free(after, t) >= Free(s, t) && Free(s, t) >= 0 {
        assert Held(after.accounts, t, s.self) >= Held(s.accounts, t, s.self);
      }
  }

  /** Every admissible step of every entry point keeps the contract solvent in every token,
      its counters exact, and lowers no token's free holdings; a failed step changes nothing. */
  lemma StepGood(host: Host, s: State, call: Call)
    requires Good(s) && Admissible(s, call)
    ensures KeepsGood(s, Step(host, s, call))
  {
    var admin := if s.admin.Some? then s.admin.value else s.self;
    if NeedsAdmin(call) && s.admin.None? {
    } else if IsOutside(call) {
      OutsideStepGood(s, call);
    } else if IsSwitch(call) {
      SwitchStepGood(s, call);
    } else if IsRelayCall(call) {
      RelayStepGood(host, s, admin, call);
    } else if IsKeeperCall(call) {
      KeeperStepGood(s, admin, call);
    } else if IsCreditSetting(call) {
      CreditSettingGood(s, call);
    } else {
      CreditStepGood(s, call);
    }
  }
}
