/** Token holdings over every run of the contract. */
module TokenRuns {
  import opened Sums
  import opened Options
  import opened Tokens
  import opened Errors
  import opened AttestedRelay
  import opened ContractSpec
  import opened ContractRuns
  import GateCredits
  import KeeperPool

  /** Tokens that change hands. */
  datatype Movement = Movement(token: Address, from: Address, to: Address, amount: int)

  function Move(token: Option<Address>, from: Address, to: Address, amount: int): Option<Movement> {
    if token.Some? && amount > 0 then Some(Movement(token.value, from, to, amount)) else None
  }

  /** What a step moves: deposits and funding come to the contract, withdrawals, revenue, rewards
      and tips leave it, for whoever the call names and in the token of its own ledger. */
  function MovementOf(t: Taken): Option<Movement> {
    var s := t.before;
    if t.out.reply.Fail? then None
    else
      match t.call
      case Deposit(who, amount) => Move(s.credit.token, who, s.self, amount)
      case Withdraw(who) => Move(s.credit.token, s.self, who, t.out.reply.value)
      case WithdrawRevenue(recipient, amount) => Move(s.credit.token, s.self, recipient, amount)
      case FundKeeper(amount) => Move(s.keeper.token, AdminOf(s), s.self, amount)
      case ExtendTtls(keeper, _) => Move(s.keeper.token, s.self, keeper, t.out.reply.value)
      case FundTips(amount) => Move(s.relay.tipToken, AdminOf(s), s.self, amount)
      case RelayScore(relayer, _, _) => Move(s.relay.tipToken, s.self, relayer, s.relay.tipPool - t.out.state.relay.tipPool)
      case OutsideTransfer(token, from, to, amount) => Move(Some(token), from, to, amount)
      case _ => None
  }

  function Minted(t: Taken, token: Address, who: Address): int {
    if t.call.Mint? && t.out.reply.Ok? && t.call.token == token && t.call.to == who then t.call.amount else 0
  }

  /** What a movement adds to a holding. */
  function Gain(m: Option<Movement>, token: Address, who: Address): int {
    if m.None? || m.value.token != token then 0
    else (if m.value.to == who then m.value.amount else 0) - (if m.value.from == who then m.value.amount else 0)
  }

  /** The step moves these tokens and no others. */
  ghost predicate Moves(t: Taken) {
    forall token: Address, who: Address ::
      Held(t.out.state.accounts, token, who)
      == Held(t.before.accounts, token, who) + Gain(MovementOf(t), token, who) + Minted(t, token, who)
  }

  // One step.

  lemma TransferGains(a: Accounts, b: Accounts, m: Movement)
    requires AccountsOk(a) && Transfer(a, m.token, m.from, m.to, m.amount) == Some(b)
    ensures forall token: Address, who: Address :: Held(b, token, who) == Held(a, token, who) + Gain(Some(m), token, who)
  {
    TransferMoves(a, m.token, m.from, m.to, m.amount);
  }

  /** The step is a transfer of what it is said to move, or moves nothing. */
  ghost predicate Pays(t: Taken) {
    && !t.call.Mint?
    && match MovementOf(t)
       case Some(m) => Transfer(t.before.accounts, m.token, m.from, m.to, m.amount) == Some(t.out.state.accounts)
       case None => t.out.state.accounts == t.before.accounts
  }

  lemma PaymentMoves(t: Taken)
    requires AccountsOk(t.before.accounts) && Pays(t)
    ensures Moves(t)
  {
    if MovementOf(t).Some? {
      TransferGains(t.before.accounts, t.out.state.accounts, MovementOf(t).value);
    }
  }

  lemma CreditPays(s: State, call: Call)
    requires Good(s)
    requires call.Deposit? || call.RequestWithdrawal? || call.Withdraw? || call.WithdrawRevenue? || call.Meter?
    ensures Pays(Taken(s, call, CreditStep(s, call)))
  {
    LedgersReady(s);
    if call.Withdraw? {
      GateCredits.WithdrawKeeps(s.credit, s.accounts, s.self, s.time, call.who);
    }
  }

  lemma KeeperPays(s: State, admin: Address, call: Call)
    requires Good(s) && IsKeeperCall(call) && admin == AdminOf(s)
    ensures Pays(Taken(s, call, KeeperStep(s, admin, call)))
  {
    LedgersReady(s);
    if call.ExtendTtls? {
      KeeperPool.ExtendMovesReward(s.keeper, s.accounts, s.self, s.ledger, call.keeper, call.entries);
    }
  }

  lemma RelayPays(host: Host, s: State, admin: Address, call: Call)
    requires Good(s) && IsRelayCall(call) && admin == AdminOf(s)
    ensures Pays(Taken(s, call, RelayStep(host, s, admin, call)))
  {
    match call
    case RelayScore(relayer, sub, att) =>
      RelayMovesTip(host, s.relay, s.keeper.rent, s.accounts, s.self, s.time, s.ledger, relayer, sub, att);
      TipPays(s, call, AttestedRelay.RelayScore(host, s.relay, s.keeper.rent, s.accounts, s.self, s.time, s.ledger, relayer, sub, att));
    case SubmitDirect(_, _) => NothingPays(Taken(s, call, RelayStep(host, s, admin, call)));
    case FundTips(amount) =>
      FundingPays(s, admin, amount, AttestedRelay.FundTips(s.relay, s.keeper.rent, s.accounts, s.self, admin, amount));
    case SetTipToken(_) => NothingPays(Taken(s, call, RelayStep(host, s, admin, call)));
    case SetTipParams(_, _, _) => NothingPays(Taken(s, call, RelayStep(host, s, admin, call)));
  }

  lemma TipPays(s: State, call: Call, step: AttestedRelay.Step)
    requires call.RelayScore?
    requires var paid := s.relay.tipPool - step.relay.tipPool;
             if paid > 0
             then && step.reply == ACCEPTED && s.relay.tipToken.Some?
                  && Transfer(s.accounts, s.relay.tipToken.value, s.self, call.relayer, paid) == Some(step.accounts)
             else paid == 0 && step.accounts == s.accounts
    ensures Pays(Taken(s, call, WithRelay(s, step)))
  {
  }

  lemma FundingPays(s: State, admin: Address, amount: int, step: AttestedRelay.Step)
    requires admin == AdminOf(s)
    requires step == AttestedRelay.FundTips(s.relay, s.keeper.rent, s.accounts, s.self, admin, amount)
    ensures Pays(Taken(s, FundTips(amount), WithRelay(s, step)))
  {
  }

  lemma OutsideMoves(s: State, call: Call)
    requires Good(s) && IsOutside(call)
    ensures Moves(Taken(s, call, OutsideStep(s, call)))
  {
    var t := Taken(s, call, OutsideStep(s, call));
    if call.OutsideTransfer? && t.out.reply.Ok? {
      TransferGains(s.accounts, t.out.state.accounts, Movement(call.token, call.from, call.to, call.amount));
    }
  }

  lemma NothingPays(t: Taken)
    requires IsSwitch(t.call) || IsCreditSetting(t.call) || t.call.SubmitDirect? || t.call.SetTipToken? || t.call.SetTipParams?
    requires t.out.state.accounts == t.before.accounts
    ensures Pays(t)
  {
  }

  lemma StepMoves(host: Host, t: Taken)
    requires Good(t.before) && IsStep(host, t)
    ensures Moves(t)
  {
    var s, call := t.before, t.call;
    if NeedsAdmin(call) && s.admin.None? {
      assert t.out == Refused(s, NotInitialized);
    } else if IsOutside(call) {
      assert t.out == OutsideStep(s, call);
      OutsideMoves(s, call);
    } else {
      if IsSwitch(call) {
        assert t.out == SwitchStep(s, call);
        NothingPays(t);
      } else if IsRelayCall(call) {
        assert t.out == RelayStep(host, s, AdminOf(s), call);
        RelayPays(host, s, AdminOf(s), call);
      } else if IsKeeperCall(call) {
        assert t.out == KeeperStep(s, AdminOf(s), call);
        KeeperPays(s, AdminOf(s), call);
      } else if IsCreditSetting(call) {
        assert t.out == CreditSetting(s, call);
        NothingPays(t);
      } else {
        assert t.out == CreditStep(s, call);
        CreditPays(s, call);
      }
      PaymentMoves(t);
    }
  }

  // The whole run.

  ghost function GainTotal(trace: seq<Taken>, token: Address, who: Address): int {
    if trace == [] then 0
    else
      var t := trace[|trace| - 1];
      GainTotal(trace[..|trace| - 1], token, who) + Gain(MovementOf(t), token, who) + Minted(t, token, who)
  }

  /** Every token is accounted for: over every run, what anyone holds of any token is what they
      held before plus what the calls' own movements brought and took. */
  lemma {:induction false} TokensBalance(host: Host, trace: seq<Taken>, s: State, end: State, token: Address, who: Address)
    requires Good(s) && IsRun(host, trace, s, end)
    ensures Good(end) && Held(end.accounts, token, who) == Held(s.accounts, token, who) + GainTotal(trace, token, who)
  {
    if trace != [] {
      var k := |trace| - 1;
      TokensBalance(host, trace[..k], s, trace[k].before, token, who);
      StepMoves(host, trace[k]);
      StepIsGood(host, trace[k]);
    }
  }

  // Conservation.

  ghost function HeldBy(a: Accounts, token: Address, people: set<Address>): (held: map<Address, int>)
    ensures held.Keys == people && forall who :: who in people ==> held[who] == Held(a, token, who)
  {
    map who | who in people :: Held(a, token, who)
  }

  /** What a group of holders has together. */
  ghost function TotalHeld(a: Accounts, token: Address, people: set<Address>): int {
    Sum(HeldBy(a, token, people))
  }

  /** Everyone a step moves tokens between belongs to the group, and nothing is minted to it. */
  predicate Within(t: Taken, token: Address, people: set<Address>) {
    && (MovementOf(t).Some? && MovementOf(t).value.token == token ==> MovementOf(t).value.from in people && MovementOf(t).value.to in people)
    && !(t.call.Mint? && t.call.token == token && t.call.to in people)
  }

  lemma MoveConserves(a: Accounts, b: Accounts, m: Option<Movement>, token: Address, people: set<Address>)
    requires forall who: Address :: Held(b, token, who) == Held(a, token, who) + Gain(m, token, who)
    requires m.Some? && m.value.token == token ==> m.value.from in people && m.value.to in people
    ensures TotalHeld(b, token, people) == TotalHeld(a, token, people)
  {
    var before, after := HeldBy(a, token, people), HeldBy(b, token, people);
    if m.None? || m.value.token != token || m.value.from == m.value.to {
      assert after == before;
    } else {
      SumMoves(before, after, m.value.from, m.value.to, m.value.amount);
    }
  }

  lemma SumMoves(before: map<Address, int>, after: map<Address, int>, from: Address, to: Address, amount: int)
    requires from in before && to in before && from != to && after.Keys == before.Keys
    requires forall who :: who in before ==>
               after[who] == before[who] + (if who == to then amount else 0) - (if who == from then amount else 0)
    ensures Sum(after) == Sum(before)
  {
    SumShift(before, from, to, amount);
    assert after == before[from := before[from] - amount][to := before[to] + amount];
  }

  lemma StepConserves(host: Host, t: Taken, token: Address, people: set<Address>)
    requires Good(t.before) && IsStep(host, t) && Within(t, token, people)
    ensures TotalHeld(t.out.state.accounts, token, people) == TotalHeld(t.before.accounts, token, people)
  {
    StepMoves(host, t);
    if t.call.Mint? {
      assert HeldBy(t.out.state.accounts, token, people) == HeldBy(t.before.accounts, token, people);
    } else {
      MoveConserves(t.before.accounts, t.out.state.accounts, MovementOf(t), token, people);
    }
  }

  /** No run makes or loses tokens: as long as they stay within a group that includes everyone
      they move between, the group's total stays the same. */
  lemma {:induction false} TokensAreConserved(host: Host, trace: seq<Taken>, s: State, end: State, token: Address, people: set<Address>)
    requires Good(s) && IsRun(host, trace, s, end)
    requires forall i :: 0 <= i < |trace| ==> Within(trace[i], token, people)
    ensures Good(end) && TotalHeld(end.accounts, token, people) == TotalHeld(s.accounts, token, people)
  {
    if trace != [] {
      var k := |trace| - 1;
      TokensAreConserved(host, trace[..k], s, trace[k].before, token, people);
      StepConserves(host, trace[k], token, people);
      StepIsGood(host, trace[k]);
    }
  }
}
