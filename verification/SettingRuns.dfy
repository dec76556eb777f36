/** The contract's configuration over every run: who can change it, and to what. */
module SettingRuns {
  import opened Options
  import opened Tokens
  import opened Bytes
  import opened Errors
  import opened FeeSchedule
  import opened AttestedRelay
  import opened ContractSpec
  import opened ContractRuns
  import GateCredits

  /** Everything governance configures. */
  datatype Settings = Settings(
    creditToken: Option<Address>,
    delay: nat,
    tiers: seq<FeeTier>,
    feeWindow: nat,
    exempt: map<Address, GateCredits.Exemption>,
    keeperToken: Option<Address>,
    perEntry: int,
    rewardWindow: nat,
    rewardCap: int,
    tipToken: Option<Address>,
    tip: int,
    tipCap: int,
    tipWindow: nat,
    service: Address,
    key: nat,
    frozen: bool,
    paused: bool,
    pausedPairs: set<ByteString>,
    epochOpen: bool)

  function SettingsOf(s: State): Settings {
    Settings(s.credit.token, s.credit.delay, s.credit.tiers, s.credit.window, s.credit.exempt,
             s.keeper.token, s.keeper.perEntry, s.keeper.window, s.keeper.cap,
             s.relay.tipToken, s.relay.tip, s.relay.tipCap, s.relay.tipWindow,
             s.relay.service, s.relay.key, s.relay.frozen, s.relay.paused, s.relay.pausedPairs, s.relay.epochOpen)
  }

  predicate IsSetter(call: Call) {
    || IsCreditSetting(call) || call.SetKeeperToken? || call.SetKeeperParams? || call.SetTipToken? || call.SetTipParams?
    || call.SetService? || call.SetKey? || call.SetSwitches?
  }

  /** The values a setter takes. */
  predicate Takes(time: nat, call: Call) {
    match call
    case SetTiers(tiers) => ValidSchedule(tiers)
    case SetFeeWindow(window) => window > 0
    case SetExemption(_, expiresAt, _) => time < expiresAt
    case SetKeeperParams(perEntry, window, cap) => 0 <= perEntry <= 1_000_000_000 && window <= 518_400 && 0 <= cap
    case SetTipParams(tip, cap, _) => 0 <= tip && 0 <= cap
    case _ => true
  }

  /** The configuration a setter asks for. */
  function Configured(c: Settings, call: Call): Settings {
    match call
    case SetCreditToken(token) => c.(creditToken := Some(token))
    case SetDelay(delay) => c.(delay := delay)
    case SetTiers(tiers) => c.(tiers := tiers)
    case SetFeeWindow(window) => c.(feeWindow := window)
    case SetExemption(who, expiresAt, reason) => c.(exempt := c.exempt[who := GateCredits.Exemption(expiresAt, reason)])
    case ClearExemption(who) => c.(exempt := c.exempt - {who})
    case SetKeeperToken(token) => c.(keeperToken := Some(token))
    case SetKeeperParams(perEntry, window, cap) => c.(perEntry := perEntry, rewardWindow := window, rewardCap := cap)
    case SetTipToken(token) => c.(tipToken := Some(token))
    case SetTipParams(tip, cap, window) => c.(tip := tip, tipCap := cap, tipWindow := if window == 0 then 1 else window)
    case SetService(service) => c.(service := service)
    case SetKey(key) => c.(key := key)
    case SetSwitches(frozen, paused, pausedPairs, epochOpen) =>
      c.(frozen := frozen, paused := paused, pausedPairs := pausedPairs, epochOpen := epochOpen)
    case _ => c
  }

  /** What a step means for the configuration: an initialised contract takes a setter's valid
      values, refuses its invalid ones, and no other call changes anything. */
  ghost predicate Configures(s: State, call: Call, out: Outcome) {
    && (IsSetter(call) ==> (out.reply.Ok? <==> s.admin.Some? && Takes(s.time, call)))
    && SettingsOf(out.state) == (if IsSetter(call) && out.reply.Ok? then Configured(SettingsOf(s), call) else SettingsOf(s))
    && out.state.admin == s.admin
    && out.state.time == s.time + if call.Tick? then call.secs else 0
  }

  /** How a fresh contract is configured: no tokens, no fees and rewards, no delay, and the
      epoch still closed. */
  lemma InitialSettings(s: State)
    requires Initial(s)
    ensures SettingsOf(s) == Settings(None, 0, [], 17_280, map[], None, 0, 0, 0, None, 0, 0, 1,
                                      s.relay.service, 0, false, false, {}, false)
  {
  }

  // One step.

  lemma RelayConfigures(host: Host, s: State, admin: Address, call: Call)
    requires IsRelayCall(call) && s.admin.Some?
    ensures Configures(s, call, RelayStep(host, s, admin, call))
  {
    var r, rent := s.relay, s.keeper.rent;
    match call
    case RelayScore(relayer, sub, att) =>
      SettingsStay(host, r, rent, s.accounts, s.self, s.time, s.ledger, relayer, sub, att);
      TipParamsStay(host, r, rent, s.accounts, s.self, s.time, s.ledger, relayer, sub, att);
      RelayedConfigures(s, call, AttestedRelay.RelayScore(host, r, rent, s.accounts, s.self, s.time, s.ledger, relayer, sub, att));
    case SubmitDirect(sub, nonce) =>
      RelayedConfigures(s, call, AttestedRelay.SubmitDirect(host, r, rent, s.accounts, s.time, s.ledger, sub, nonce));
    case FundTips(amount) =>
      RelayedConfigures(s, call, AttestedRelay.FundTips(r, rent, s.accounts, s.self, admin, amount));
    case SetTipToken(_) =>
    case SetTipParams(_, _, _) =>
  }

  lemma RelayedConfigures(s: State, call: Call, step: AttestedRelay.Step)
    requires !IsSetter(call) && !call.Tick? && SameSettings(s.relay, step.relay)
    requires step.relay.tip == s.relay.tip && step.relay.tipCap == s.relay.tipCap && step.relay.tipWindow == s.relay.tipWindow
    ensures Configures(s, call, WithRelay(s, step))
  {
  }

  lemma KeeperConfigures(s: State, admin: Address, call: Call)
    requires IsKeeperCall(call) && s.admin.Some?
    ensures Configures(s, call, KeeperStep(s, admin, call))
  {
  }

  lemma SwitchConfigures(s: State, call: Call)
    requires IsSwitch(call) && s.admin.Some?
    ensures Configures(s, call, SwitchStep(s, call))
  {
  }

  lemma ExpiryConfigures(s: State, digest: Digest)
    ensures Configures(s, ExpireMark(digest), SwitchStep(s, ExpireMark(digest)))
  {
  }

  lemma OutsideConfigures(s: State, call: Call)
    requires IsOutside(call)
    ensures Configures(s, call, OutsideStep(s, call))
  {
  }

  lemma CreditSettingConfigures(s: State, call: Call)
    requires IsCreditSetting(call) && s.admin.Some?
    ensures Configures(s, call, CreditSetting(s, call))
  {
  }

  lemma CreditConfigures(s: State, call: Call)
    requires call.Deposit? || call.RequestWithdrawal? || call.Withdraw? || call.WithdrawRevenue? || call.Meter?
    ensures Configures(s, call, CreditStep(s, call))
  {
    var c, a, self := s.credit, s.accounts, s.self;
    match call
    case Deposit(who, amount) => CreditedConfigures(s, call, GateCredits.Deposit(c, a, self, who, amount));
    case RequestWithdrawal(who, amount) =>
      CreditedConfigures(s, call, GateCredits.RequestWithdrawal(c, a, self, s.time, who, amount));
    case Withdraw(who) => CreditedConfigures(s, call, GateCredits.Withdraw(c, a, self, s.time, who));
    case WithdrawRevenue(recipient, amount) =>
      CreditedConfigures(s, call, GateCredits.WithdrawRevenue(c, a, self, recipient, amount));
    case Meter(consumer) => CreditedConfigures(s, call, GateCredits.Meter(c, a, self, s.time, s.ledger, consumer));
  }

  predicate SameCreditSettings(c: GateCredits.Credit, c': GateCredits.Credit) {
    c'.token == c.token && c'.delay == c.delay && c'.tiers == c.tiers && c'.window == c.window && c'.exempt == c.exempt
  }

  lemma CreditedConfigures(s: State, call: Call, step: GateCredits.Step)
    requires !IsSetter(call) && !call.Tick? && SameCreditSettings(s.credit, step.credit)
    ensures Configures(s, call, WithCredit(s, step))
  {
  }

  lemma StepConfigures(host: Host, s: State, call: Call)
    ensures Configures(s, call, ContractSpec.Step(host, s, call))
  {
    var out := ContractSpec.Step(host, s, call);
    if NeedsAdmin(call) && s.admin.None? {
      assert out == Refused(s, NotInitialized);
    } else if IsOutside(call) {
      assert out == OutsideStep(s, call);
      OutsideConfigures(s, call);
    } else if call.ExpireMark? {
      assert out == SwitchStep(s, call);
      ExpiryConfigures(s, call.digest);
    } else if IsSwitch(call) {
      assert out == SwitchStep(s, call);
      SwitchConfigures(s, call);
    } else if IsRelayCall(call) {
      assert out == RelayStep(host, s, AdminOf(s), call);
      RelayConfigures(host, s, AdminOf(s), call);
    } else if IsKeeperCall(call) {
      assert out == KeeperStep(s, AdminOf(s), call);
      KeeperConfigures(s, AdminOf(s), call);
    } else if IsCreditSetting(call) {
      assert out == CreditSetting(s, call);
      CreditSettingConfigures(s, call);
    } else {
      assert out == CreditStep(s, call);
      CreditConfigures(s, call);
    }
  }

  // The whole run.

  /** The setters of a run, and the clock. */
  function Governance(calls: seq<Call>): seq<Call> {
    if calls == [] then []
    else
      var k := |calls| - 1;
      if IsSetter(calls[k]) || calls[k].Tick? then Governance(calls[..k]) + [calls[k]] else Governance(calls[..k])
  }

  lemma RunSnoc(host: Host, s: State, calls: seq<Call>, call: Call)
    ensures Run(host, s, calls + [call]) == ContractSpec.Step(host, Run(host, s, calls), call).state
  {
    assert (calls + [call])[..|calls|] == calls;
  }

  /** Only governance configures: whatever depositors, consumers, keepers, relayers and token
      holders do in between, the configuration at the end of a run is the one its setters
      alone would have left. */
  lemma {:induction false} OnlyGovernanceConfigures(host: Host, s: State, calls: seq<Call>)
    ensures var end, alone := Run(host, s, calls), Run(host, s, Governance(calls));
            SettingsOf(end) == SettingsOf(alone) && end.admin == alone.admin && end.time == alone.time
    decreases |calls|
  {
    if calls != [] {
      var k := |calls| - 1;
      OnlyGovernanceConfigures(host, s, calls[..k]);
      StepConfigures(host, Run(host, s, calls[..k]), calls[k]);
      if IsSetter(calls[k]) || calls[k].Tick? {
        StepConfigures(host, Run(host, s, Governance(calls[..k])), calls[k]);
        RunSnoc(host, s, Governance(calls[..k]), calls[k]);
      }
    }
  }

  /** What the setters left is still there after any run without setters. */
  lemma {:induction false} SettingsLast(host: Host, s: State, calls: seq<Call>)
    requires forall i :: 0 <= i < |calls| ==> !IsSetter(calls[i])
    ensures SettingsOf(Run(host, s, calls)) == SettingsOf(s)
    decreases |calls|
  {
    if calls != [] {
      var k := |calls| - 1;
      SettingsLast(host, s, calls[..k]);
      StepConfigures(host, Run(host, s, calls[..k]), calls[k]);
    }
  }
}
