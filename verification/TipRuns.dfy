/** Relay tips over every run of the contract. */
module TipRuns {
  import opened Options
  import opened Tokens
  import opened Errors
  import opened AttestedRelay
  import opened ContractSpec
  import opened ContractRuns

  predicate IsAccepted(t: Taken) {
    t.call.RelayScore? && t.out.reply == ACCEPTED
  }

  /** The tip of a step. */
  function Tip(t: Taken): int {
    if IsAccepted(t) && t.before.relay.tipToken.Some? then TipPayable(t.before.relay, t.before.ledger) else 0
  }

  function TipFlow(t: Taken): int {
    if t.call.FundTips? && t.out.reply.Ok? then t.call.amount else -Tip(t)
  }

  /** There is a tip window whose length has not run. */
  predicate HasTipWindow(s: State) {
    s.relay.tipState.Some? && s.ledger - s.relay.tipState.value.start < s.relay.tipWindow
  }

  /** What a step means for the tip pool and the tip window. */
  ghost predicate Tipped(t: Taken) {
    var r, r' := t.before.relay, t.out.state.relay;
    && Tip(t) >= 0 && r'.tipPool == r.tipPool + TipFlow(t)
    && r'.tipState == if !(IsAccepted(t) && r.tip > 0 && r.tipToken.Some? && r.tipCap != 0) then r.tipState
                      else if HasTipWindow(t.before)
                      then Some(TipWindow(r.tipState.value.start, SatAdd(r.tipState.value.spent, Tip(t))))
                      else Some(TipWindow(t.before.ledger, SatAdd(0, Tip(t))))
  }

  lemma RelayIsTipped(host: Host, s: State, admin: Address, call: Call)
    requires Good(s) && IsRelayCall(call)
    ensures Tipped(Taken(s, call, RelayStep(host, s, admin, call)))
  {
    LedgersReady(s);
    TipBounds(s.relay, s.ledger);
    match call
    case RelayScore(relayer, sub, att) =>
      var out := RelayStep(host, s, admin, call);
      if out.reply == ACCEPTED {
        TipReachesRelayer(host, s.relay, s.keeper.rent, s.accounts, s.self, s.time, s.ledger, relayer, sub, att);
        TipIsCounted(host, s.relay, s.keeper.rent, s.accounts, s.self, s.time, s.ledger, relayer, sub, att);
      } else {
        RefusedRelayKeeps(host, s, admin, call);
      }
    case SubmitDirect(_, _) =>
    case FundTips(amount) => FundingIsTipped(host, s, admin, amount);
    case SetTipToken(_) =>
    case SetTipParams(_, _, _) =>
  }

  lemma RefusedRelayKeeps(host: Host, s: State, admin: Address, call: Call)
    requires call.RelayScore? && RelayStep(host, s, admin, call).reply != ACCEPTED
    ensures RelayStep(host, s, admin, call).state.relay == s.relay
  {
  }

  lemma FundingIsTipped(host: Host, s: State, admin: Address, amount: int)
    requires Good(s)
    ensures Tipped(Taken(s, FundTips(amount), RelayStep(host, s, admin, FundTips(amount))))
  {
    LedgersReady(s);
    var step := AttestedRelay.FundTips(s.relay, s.keeper.rent, s.accounts, s.self, admin, amount);
    if step.reply.Ok? {
      TransferMoves(s.accounts, s.relay.tipToken.value, admin, s.self, amount);
      assert AttestedRelay.Slack(s.relay, s.accounts, s.self, s.relay.tipToken.value) >= 0;
    }
  }

  lemma UntouchedIsTipped(t: Taken)
    requires !IsRelayCall(t.call) || t.out.reply.Fail?
    requires t.out.state.relay.tipPool == t.before.relay.tipPool && t.out.state.relay.tipState == t.before.relay.tipState
    ensures Tipped(t)
  {
  }

  lemma OthersKeepTips(host: Host, s: State, call: Call)
    requires !IsRelayCall(call)
    ensures var r := ContractSpec.Step(host, s, call).state.relay;
            r.tipPool == s.relay.tipPool && r.tipState == s.relay.tipState
  {
  }

  lemma StepIsTipped(host: Host, t: Taken)
    requires Good(t.before) && IsStep(host, t)
    ensures Tipped(t)
  {
    if !IsRelayCall(t.call) {
      OthersKeepTips(host, t.before, t.call);
      UntouchedIsTipped(t);
    } else if t.before.admin.None? {
      assert t.out == Refused(t.before, NotInitialized);
      UntouchedIsTipped(t);
    } else {
      assert t.out == RelayStep(host, t.before, AdminOf(t.before), t.call);
      RelayIsTipped(host, t.before, AdminOf(t.before), t.call);
    }
  }

  /** The steps of a run lead from `s` to `end` and each does to the tips what it should. */
  ghost predicate TippedRun(trace: seq<Taken>, s: State, end: State) {
    if trace == [] then s == end
    else
      var t := trace[|trace| - 1];
      TippedRun(trace[..|trace| - 1], s, t.before) && Tipped(t) && t.out.state == end
  }

  lemma {:induction false} RunIsTipped(host: Host, trace: seq<Taken>, s: State, end: State)
    requires Good(s) && IsRun(host, trace, s, end)
    ensures TippedRun(trace, s, end) && Good(end)
  {
    if trace != [] {
      var k := |trace| - 1;
      RunIsTipped(host, trace[..k], s, trace[k].before);
      StepIsTipped(host, trace[k]);
      StepIsGood(host, trace[k]);
    }
  }

  // The tip pool as a book.

  function TipTotal(trace: seq<Taken>): int {
    if trace == [] then 0 else TipTotal(trace[..|trace| - 1]) + TipFlow(trace[|trace| - 1])
  }

  lemma {:induction false} PoolFollowsFlow(trace: seq<Taken>, s: State, end: State)
    requires TippedRun(trace, s, end)
    ensures end.relay.tipPool == s.relay.tipPool + TipTotal(trace)
  {
    if trace != [] {
      var k := |trace| - 1;
      PoolFollowsFlow(trace[..k], s, trace[k].before);
    }
  }

  /** Over every run the tip pool is what it was plus the funding minus the tips. */
  lemma TipBookBalances(host: Host, trace: seq<Taken>, s: State, end: State)
    requires Good(s) && IsRun(host, trace, s, end)
    ensures end.relay.tipPool == s.relay.tipPool + TipTotal(trace)
  {
    RunIsTipped(host, trace, s, end);
    PoolFollowsFlow(trace, s, end);
  }

  // One tip window.

  /** A step that pays tips does so under the cap `cap`, in the window of length `length` that
      starts at `start`. */
  predicate TipsInWindow(t: Taken, start: nat, length: nat, cap: int) {
    IsAccepted(t) && t.before.relay.tip > 0 && t.before.relay.tipToken.Some? ==>
      t.before.relay.tipCap == cap && t.before.relay.tipWindow == length && SatSub(t.before.ledger, start) < length
  }

  function TipsPaid(trace: seq<Taken>): int {
    if trace == [] then 0 else TipsPaid(trace[..|trace| - 1]) + Tip(trace[|trace| - 1])
  }

  /** The window is open and has paid `spent`. */
  ghost predicate OpenWindow(s: State, start: nat, spent: int) {
    s.relay.tipState == Some(TipWindow(start, spent))
  }

  lemma TipOneMore(t: Taken, start: nat, length: nat, cap: int, spent: int)
    requires Tipped(t) && TipsInWindow(t, start, length, cap) && OpenWindow(t.before, start, spent)
    requires 0 < cap <= I128_MAX && 0 <= spent <= I128_MAX
    ensures OpenWindow(t.out.state, start, spent + Tip(t)) && 0 <= Tip(t) <= Max(cap - spent, 0)
  {
  }

  lemma {:induction false} RunTips(trace: seq<Taken>, s: State, end: State, start: nat, length: nat, cap: int, spent: int)
    requires TippedRun(trace, s, end) && OpenWindow(s, start, spent)
    requires forall i :: 0 <= i < |trace| ==> TipsInWindow(trace[i], start, length, cap)
    requires 0 < cap <= I128_MAX && 0 <= spent <= I128_MAX
    ensures OpenWindow(end, start, spent + TipsPaid(trace)) && 0 <= TipsPaid(trace) <= Max(cap - spent, 0)
  {
    if trace != [] {
      var k := |trace| - 1;
      RunTips(trace[..k], s, trace[k].before, start, length, cap, spent);
      TipOneMore(trace[k], start, length, cap, spent + TipsPaid(trace[..k]));
    }
  }

  /** Within one tip window and under one non-zero cap, all relays together, the one that finds
      or opens the window included, are tipped at most what the cap leaves; whatever else
      happens in between. */
  lemma WindowTipsWithinCap(host: Host, first: Taken, trace: seq<Taken>, end: State)
    requires Good(first.before) && IsStep(host, first) && IsRun(host, trace, first.out.state, end)
    requires IsAccepted(first) && first.before.relay.tip > 0 && first.before.relay.tipToken.Some?
    requires 0 < first.before.relay.tipCap <= I128_MAX
    requires CurrentTipWindow(first.before.relay, first.before.ledger).spent <= I128_MAX
    requires forall i :: 0 <= i < |trace| ==>
               TipsInWindow(trace[i], CurrentTipWindow(first.before.relay, first.before.ledger).start,
                            first.before.relay.tipWindow, first.before.relay.tipCap)
    ensures var w := CurrentTipWindow(first.before.relay, first.before.ledger);
            && OpenWindow(end, w.start, w.spent + Tip(first) + TipsPaid(trace))
            && 0 <= Tip(first) + TipsPaid(trace) <= Max(first.before.relay.tipCap - w.spent, 0)
  {
    StepIsTipped(host, first);
    StepIsGood(host, first);
    RunIsTipped(host, trace, first.out.state, end);
    TraceTipsWithinCap(first, trace, end);
  }

  lemma TraceTipsWithinCap(first: Taken, trace: seq<Taken>, end: State)
    requires RelayOk(first.before.relay) && Tipped(first) && TippedRun(trace, first.out.state, end)
    requires IsAccepted(first) && first.before.relay.tip > 0 && first.before.relay.tipToken.Some?
    requires 0 < first.before.relay.tipCap <= I128_MAX
    requires CurrentTipWindow(first.before.relay, first.before.ledger).spent <= I128_MAX
    requires forall i :: 0 <= i < |trace| ==>
               TipsInWindow(trace[i], CurrentTipWindow(first.before.relay, first.before.ledger).start,
                            first.before.relay.tipWindow, first.before.relay.tipCap)
    ensures var w := CurrentTipWindow(first.before.relay, first.before.ledger);
            && OpenWindow(end, w.start, w.spent + Tip(first) + TipsPaid(trace))
            && 0 <= Tip(first) + TipsPaid(trace) <= Max(first.before.relay.tipCap - w.spent, 0)
  {
    var r := first.before.relay;
    var w := CurrentTipWindow(r, first.before.ledger);
    TipBounds(r, first.before.ledger);
    RunTips(trace, first.out.state, end, w.start, r.tipWindow, r.tipCap, w.spent + Tip(first));
  }
}
