/** What a consumer's metered queries cost over a run of the contract. */
module MeterRuns {
  import opened Options
  import opened Tokens
  import opened Errors
  import opened FeeSchedule
  import opened AttestedRelay
  import opened ContractSpec
  import opened ContractRuns
  import opened CreditRuns
  import GateCredits

  /** A query that goes through and is charged for. */
  predicate Billed(s: State, call: Call, reply: Reply, consumer: Address) {
    call == Meter(consumer) && reply.Ok? && !(consumer in s.credit.exempt && s.time < s.credit.exempt[consumer].expiresAt)
  }

  function Bill(s: State, call: Call, reply: Reply, consumer: Address): nat {
    if Billed(s, call, reply, consumer) then 1 else 0
  }

  function Fee(call: Call, reply: Reply, consumer: Address): int {
    if call == Meter(consumer) then BookFlow(call, reply, Revenue) else 0
  }

  /** How many queries of `consumer` a run bills. */
  ghost function Billings(trace: seq<Taken>, consumer: Address): nat {
    if trace == [] then 0
    else
      var t := trace[|trace| - 1];
      Billings(trace[..|trace| - 1], consumer) + Bill(t.before, t.call, t.out.reply, consumer)
  }

  /** What the queries of `consumer` add to the revenue during a run. */
  ghost function FeesTaken(trace: seq<Taken>, consumer: Address): int {
    if trace == [] then 0
    else
      var t := trace[|trace| - 1];
      FeesTaken(trace[..|trace| - 1], consumer) + Fee(t.call, t.out.reply, consumer)
  }

  /** Every billed query of the run meets the schedule `tiers` and falls in the window of length
      `length` that starts at `start`. Between them anything may happen. */
  ghost predicate OneWindow(trace: seq<Taken>, consumer: Address, tiers: seq<FeeTier>, start: nat, length: nat) {
    forall i :: 0 <= i < |trace| ==> InWindow(trace[i], consumer, tiers, start, length)
  }

  predicate InWindow(t: Taken, consumer: Address, tiers: seq<FeeTier>, start: nat, length: nat) {
    Billed(t.before, t.call, t.out.reply, consumer) ==>
      t.before.credit.tiers == tiers && t.before.credit.window == length && SatSub(t.before.ledger, start) < length
  }

  // One step.

  ghost predicate SameVolume(s: State, after: State, consumer: Address) {
    && (consumer in after.credit.volume <==> consumer in s.credit.volume)
    && (consumer in s.credit.volume ==> after.credit.volume[consumer] == s.credit.volume[consumer])
  }

  lemma CreditKeepsVolume(s: State, call: Call, consumer: Address)
    requires call.Deposit? || call.RequestWithdrawal? || call.Withdraw? || call.WithdrawRevenue? || call.Meter?
    requires call != Meter(consumer)
    ensures SameVolume(s, CreditStep(s, call).state, consumer)
  {
  }

  lemma SettingKeepsVolume(s: State, call: Call)
    requires IsCreditSetting(call)
    ensures CreditSetting(s, call).state.credit.volume == s.credit.volume
  {
  }

  lemma StepKeepsVolume(host: Host, s: State, call: Call, consumer: Address)
    requires call != Meter(consumer)
    ensures SameVolume(s, ContractSpec.Step(host, s, call).state, consumer)
  {
    if IsOutside(call) || IsSwitch(call) || IsRelayCall(call) || IsKeeperCall(call) {
      OthersKeepCredit(host, s, call);
    } else if IsCreditSetting(call) {
      SettingKeepsVolume(s, call);
    } else {
      CreditKeepsVolume(s, call, consumer);
    }
  }

  /** `consumer` has a record whose window has not run out. */
  predicate HasWindow(s: State, consumer: Address) {
    consumer in s.credit.volume && s.ledger - s.credit.volume[consumer].start < s.credit.window
  }

  /** What a step means for a consumer: a billed query inside the recorded window is priced by
      its count and counted there; without one it is priced at volume 0 and leaves a record of
      one call from this ledger on; any other step changes neither the record nor what the
      consumer has paid. */
  ghost predicate Metered(t: Taken, consumer: Address) {
    var c, fee := t.before.credit, Fee(t.call, t.out.reply, consumer);
    if Billed(t.before, t.call, t.out.reply, consumer)
    then && consumer in t.out.state.credit.volume
         && if HasWindow(t.before, consumer)
            then && fee == FeeAt(c.tiers, c.volume[consumer].calls)
                 && t.out.state.credit.volume[consumer]
                    == GateCredits.Window(c.volume[consumer].start, Min(c.volume[consumer].calls + 1, U32_MAX))
            else fee == FeeAt(c.tiers, 0) && t.out.state.credit.volume[consumer] == GateCredits.Window(t.before.ledger, 1)
    else fee == 0 && SameVolume(t.before, t.out.state, consumer)
  }

  lemma QueryIsMetered(s: State, consumer: Address)
    requires Good(s)
    ensures Metered(Taken(s, Meter(consumer), CreditStep(s, Meter(consumer))), consumer)
  {
    GateCredits.MeterCharges(s.credit, s.accounts, s.self, s.time, s.ledger, consumer);
    LedgersReady(s);
    GateCredits.MeterKeeps(s.credit, s.accounts, s.self, s.time, s.ledger, consumer);
  }

  lemma StepIsMetered(host: Host, t: Taken, consumer: Address)
    requires Good(t.before) && IsStep(host, t)
    ensures Metered(t, consumer)
  {
    var s, call := t.before, t.call;
    if call != Meter(consumer) {
      StepKeepsVolume(host, s, call, consumer);
    } else if s.admin.None? {
      assert t.out == Refused(s, NotInitialized);
    } else {
      assert t.out == CreditStep(s, call);
      QueryIsMetered(s, consumer);
    }
  }

  // The whole run.

  /** After `n` billed queries the counter stands at `v + n`, saturated, in the same window. */
  ghost predicate Counted(s: State, consumer: Address, start: nat, v: nat, n: nat) {
    consumer in s.credit.volume && s.credit.volume[consumer] == GateCredits.Window(start, Min(v + n, U32_MAX))
  }

  /** What the next query costs after `n` billed ones. */
  function Price(tiers: seq<FeeTier>, v: nat, n: nat): int {
    FeeAt(tiers, Min(v + n, U32_MAX))
  }

  /** `paid(n)` adds up the prices of the first `n` queries. */
  ghost predicate AddsUp(paid: nat -> int, tiers: seq<FeeTier>, v: nat) {
    forall n: nat {:trigger Price(tiers, v, n)} :: paid(n + 1) == paid(n) + Price(tiers, v, n)
  }

  lemma FeesPaidAddsUp(tiers: seq<FeeTier>, v: nat)
    requires ValidSchedule(tiers)
    ensures AddsUp((n: nat) => FeesPaid(tiers, v, n), tiers, v)
  {
    forall n: nat ensures FeesPaid(tiers, v, n + 1) == FeesPaid(tiers, v, n) + Price(tiers, v, n) {
      FeeAtSaturates(tiers, v + n);
    }
  }

  /** `n` queries of the window have been billed, and `fees` is what they cost. */
  ghost predicate Settled(s: State, consumer: Address, paid: nat -> int, start: nat, v: nat, n: nat, fees: int) {
    Counted(s, consumer, start, v, n) && fees == paid(n)
  }

  lemma SettleOneMore(t: Taken, consumer: Address, tiers: seq<FeeTier>, paid: nat -> int, start: nat, length: nat, v: nat,
                      n: nat, fees: int)
    requires Metered(t, consumer) && InWindow(t, consumer, tiers, start, length)
    requires AddsUp(paid, tiers, v) && Settled(t.before, consumer, paid, start, v, n, fees)
    ensures Settled(t.out.state, consumer, paid, start, v,
                    n + Bill(t.before, t.call, t.out.reply, consumer), fees + Fee(t.call, t.out.reply, consumer))
  {
    assert paid(n + 1) == paid(n) + Price(tiers, v, n);
  }

  /** The same over a run. */
  lemma {:induction false} RunSettles(trace: seq<Taken>, s: State, end: State, consumer: Address,
                                      tiers: seq<FeeTier>, paid: nat -> int, start: nat, length: nat, v: nat, n: nat, fees: int)
    requires MeteredRun(trace, s, end, consumer)
    requires AddsUp(paid, tiers, v) && OneWindow(trace, consumer, tiers, start, length)
    requires Settled(s, consumer, paid, start, v, n, fees)
    ensures Settled(end, consumer, paid, start, v, n + Billings(trace, consumer), fees + FeesTaken(trace, consumer))
  {
    if trace != [] {
      var k := |trace| - 1;
      var front := trace[..k];
      RunSettles(front, s, trace[k].before, consumer, tiers, paid, start, length, v, n, fees);
      SettleOneMore(trace[k], consumer, tiers, paid, start, length, v,
                    n + Billings(front, consumer), fees + FeesTaken(front, consumer));
    }
  }

  /** The query that finds or opens the window. */
  lemma FirstQuery(t: Taken, consumer: Address)
    requires Metered(t, consumer) && Billed(t.before, t.call, t.out.reply, consumer) && t.before.credit.window > 0
    ensures var w := GateCredits.CurrentWindow(t.before.credit, t.before.ledger, consumer);
            && Counted(t.out.state, consumer, w.start, w.calls, 1)
            && Fee(t.call, t.out.reply, consumer) == FeesPaid(t.before.credit.tiers, w.calls, 1)
  {
    var tiers, v := t.before.credit.tiers, GateCredits.CurrentWindow(t.before.credit, t.before.ledger, consumer).calls;
    assert FeesPaid(tiers, v, 1) == FeesPaid(tiers, v, 0) + FeeAt(tiers, v);
  }

  /** From a billed query of the consumer on, over every run, whatever else happens in between
      and at whatever times: the n queries billed in that window, the first one included, take
      exactly the sum over tiers of the fee times the overlap of the tier's range with
      [v, v + n), v being the volume before the first one. */
  lemma WindowRevenueByTier(host: Host, first: Taken, trace: seq<Taken>, end: State, consumer: Address)
    requires Good(first.before) && IsStep(host, first) && Billed(first.before, first.call, first.out.reply, consumer)
    requires IsRun(host, trace, first.out.state, end)
    requires OneWindow(trace, consumer, first.before.credit.tiers,
                       GateCredits.CurrentWindow(first.before.credit, first.before.ledger, consumer).start, first.before.credit.window)
    ensures Fee(first.call, first.out.reply, consumer) + FeesTaken(trace, consumer)
            == TierTotal(first.before.credit.tiers, None,
                         GateCredits.CurrentWindow(first.before.credit, first.before.ledger, consumer).calls,
                         1 + Billings(trace, consumer))
  {
    StepIsGood(host, first);
    StepIsMetered(host, first, consumer);
    RunIsMetered(host, trace, first.out.state, end, consumer);
    TraceRevenueByTier(first, trace, end, consumer);
  }

  /** When the first of them finds no window to count in, all are priced from volume 0. */
  lemma NewWindowRevenueByTier(host: Host, first: Taken, trace: seq<Taken>, end: State, consumer: Address)
    requires Good(first.before) && IsStep(host, first) && Billed(first.before, first.call, first.out.reply, consumer)
    requires !HasWindow(first.before, consumer) && IsRun(host, trace, first.out.state, end)
    requires OneWindow(trace, consumer, first.before.credit.tiers, first.before.ledger, first.before.credit.window)
    ensures Fee(first.call, first.out.reply, consumer) + FeesTaken(trace, consumer)
            == TierTotal(first.before.credit.tiers, None, 0, 1 + Billings(trace, consumer))
  {
    GateCredits.WindowRolls(first.before.credit, first.before.ledger, consumer);
    WindowRevenueByTier(host, first, trace, end, consumer);
  }

  /** The steps of a run lead from `s` to `end` and mean for the consumer what they should. */
  ghost predicate MeteredRun(trace: seq<Taken>, s: State, end: State, consumer: Address) {
    if trace == [] then s == end
    else
      var t := trace[|trace| - 1];
      MeteredRun(trace[..|trace| - 1], s, t.before, consumer) && Metered(t, consumer) && t.out.state == end
  }

  lemma {:induction false} RunIsMetered(host: Host, trace: seq<Taken>, s: State, end: State, consumer: Address)
    requires Good(s) && IsRun(host, trace, s, end)
    ensures MeteredRun(trace, s, end, consumer) && Good(end)
  {
    if trace != [] {
      var k := |trace| - 1;
      RunIsMetered(host, trace[..k], s, trace[k].before, consumer);
      StepIsMetered(host, trace[k], consumer);
      StepIsGood(host, trace[k]);
    }
  }

  lemma TraceRevenueByTier(first: Taken, trace: seq<Taken>, end: State, consumer: Address)
    requires Good(first.before) && Metered(first, consumer) && Billed(first.before, first.call, first.out.reply, consumer)
    requires MeteredRun(trace, first.out.state, end, consumer)
    requires OneWindow(trace, consumer, first.before.credit.tiers,
                       GateCredits.CurrentWindow(first.before.credit, first.before.ledger, consumer).start, first.before.credit.window)
    ensures Fee(first.call, first.out.reply, consumer) + FeesTaken(trace, consumer)
            == TierTotal(first.before.credit.tiers, None,
                         GateCredits.CurrentWindow(first.before.credit, first.before.ledger, consumer).calls,
                         1 + Billings(trace, consumer))
  {
    var c := first.before.credit;
    var w := GateCredits.CurrentWindow(c, first.before.ledger, consumer);
    FirstQuery(first, consumer);
    FeesPaidAddsUp(c.tiers, w.calls);
    RunSettles(trace, first.out.state, end, consumer, c.tiers, (n: nat) => FeesPaid(c.tiers, w.calls, n),
               w.start, c.window, w.calls, 1, Fee(first.call, first.out.reply, consumer));
    FeesByTier(c.tiers, w.calls, 1 + Billings(trace, consumer));
  }

  // What the fees do to the books.

  predicate OnlyRevenueFrom(calls: seq<Call>, consumer: Address) {
    forall i :: 0 <= i < |calls| ==> !calls[i].WithdrawRevenue? && (calls[i].Meter? ==> calls[i].consumer == consumer)
  }

  predicate NoOwnMovement(calls: seq<Call>, consumer: Address) {
    forall i :: 0 <= i < |calls| ==> !(calls[i].Deposit? && calls[i].who == consumer) && calls[i] != Withdraw(consumer)
  }

  lemma FeeIsFlow(call: Call, reply: Reply, consumer: Address)
    ensures !call.WithdrawRevenue? && (call.Meter? ==> call.consumer == consumer) ==>
              BookFlow(call, reply, Revenue) == Fee(call, reply, consumer)
    ensures !(call.Deposit? && call.who == consumer) && call != Withdraw(consumer) ==>
              BookFlow(call, reply, BalanceOf(consumer)) == -Fee(call, reply, consumer)
  {
  }

  lemma FeesOfTrace(host: Host, s: State, calls: seq<Call>, consumer: Address)
    requires calls != []
    ensures var k := |calls| - 1;
            FeesTaken(Trace(host, s, calls), consumer)
            == FeesTaken(Trace(host, s, calls[..k]), consumer) + Fee(calls[k], Last(host, s, calls).reply, consumer)
  {
    var k := |calls| - 1;
    assert Trace(host, s, calls)[..k] == Trace(host, s, calls[..k]);
  }

  lemma {:induction false} FeesAreTheFlow(host: Host, s: State, calls: seq<Call>, consumer: Address)
    ensures OnlyRevenueFrom(calls, consumer) ==> BookTotal(host, s, calls, Revenue) == FeesTaken(Trace(host, s, calls), consumer)
    ensures NoOwnMovement(calls, consumer) ==> BookTotal(host, s, calls, BalanceOf(consumer)) == -FeesTaken(Trace(host, s, calls), consumer)
    decreases |calls|
  {
    if calls != [] {
      var k := |calls| - 1;
      FeesAreTheFlow(host, s, calls[..k], consumer);
      FeesOfTrace(host, s, calls, consumer);
      FeeIsFlow(calls[k], Last(host, s, calls).reply, consumer);
    }
  }

  /** What a run takes from a consumer in fees is what its balance loses and what the revenue
      gains, as long as nothing else moves them. */
  lemma FeesMoveTheBooks(host: Host, s: State, calls: seq<Call>, consumer: Address)
    requires Good(s) && AdmissibleRun(host, s, calls)
    ensures OnlyRevenueFrom(calls, consumer) ==>
              Run(host, s, calls).credit.revenue == s.credit.revenue + FeesTaken(Trace(host, s, calls), consumer)
    ensures NoOwnMovement(calls, consumer) ==>
              GateCredits.Balance(Run(host, s, calls).credit, consumer)
              == GateCredits.Balance(s.credit, consumer) - FeesTaken(Trace(host, s, calls), consumer)
  {
    FeesAreTheFlow(host, s, calls, consumer);
    BooksBalance(host, s, calls, Revenue);
    BooksBalance(host, s, calls, BalanceOf(consumer));
  }
}
