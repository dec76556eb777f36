/** What holds of every run of the contract. */
module ContractRuns {
  import opened Sums
  import opened Options
  import opened Tokens
  import opened Errors
  import opened RentQueue
  import opened AttestedRelay
  import opened ContractSpec
  import GateCredits
  import KeeperPool

  function Run(host: Host, s: State, calls: seq<Call>): State {
    if calls == [] then s
    else
      var k := |calls| - 1;
      ContractSpec.Step(host, Run(host, s, calls[..k]), calls[k]).state
  }

  /** The outcome of the last call. */
  function Last(host: Host, s: State, calls: seq<Call>): Outcome
    requires calls != []
  {
    var k := |calls| - 1;
    ContractSpec.Step(host, Run(host, s, calls[..k]), calls[k])
  }

  /** One step of a run. */
  datatype Taken = Taken(before: State, call: Call, out: Outcome)

  ghost function Trace(host: Host, s: State, calls: seq<Call>): (trace: seq<Taken>)
    ensures |trace| == |calls|
  {
    if calls == [] then []
    else
      var k := |calls| - 1;
      Trace(host, s, calls[..k]) + [Taken(Run(host, s, calls[..k]), calls[k], Last(host, s, calls))]
  }

  /** `t` is an admissible step of the contract. */
  ghost predicate IsStep(host: Host, t: Taken) {
    t.out == ContractSpec.Step(host, t.before, t.call) && Admissible(t.before, t.call)
  }

  /** `trace` is a run of the contract from `s` to `end`. */
  ghost predicate IsRun(host: Host, trace: seq<Taken>, s: State, end: State) {
    if trace == [] then s == end
    else
      var t := trace[|trace| - 1];
      IsRun(host, trace[..|trace| - 1], s, t.before) && IsStep(host, t) && t.out.state == end
  }

  /** The steps of an admissible sequence of calls are a run. */
  lemma {:induction false} TraceIsRun(host: Host, s: State, calls: seq<Call>)
    requires AdmissibleRun(host, s, calls)
    ensures IsRun(host, Trace(host, s, calls), s, Run(host, s, calls))
    decreases |calls|
  {
    if calls != [] {
      var k := |calls| - 1;
      TraceIsRun(host, s, calls[..k]);
      assert Trace(host, s, calls)[..k] == Trace(host, s, calls[..k]);
    }
  }

  lemma StepIsGood(host: Host, t: Taken)
    requires Good(t.before) && IsStep(host, t)
    ensures Good(t.out.state)
  {
    StepGood(host, t.before, t.call);
  }

  ghost predicate AdmissibleRun(host: Host, s: State, calls: seq<Call>) {
    calls == [] ||
    var k := |calls| - 1;
    AdmissibleRun(host, s, calls[..k]) && Admissible(Run(host, s, calls[..k]), calls[k])
  }

  lemma InitialIsGood(s: State)
    requires Initial(s)
    ensures Good(s)
  {
    assert Sum(s.credit.balances) == 0;
    forall t: Address ensures Free(s, t) >= 0 {
      assert Held(s.accounts, t, s.self) >= 0;
    }
  }

  /** Solvency over every run: in every token the contract holds at least what all its ledgers
      owe, the liability counter is the sum of the depositors' balances, nothing is negative,
      and no token's free holdings ever fall. */
  lemma {:induction false} RunGood(host: Host, s: State, calls: seq<Call>)
    requires Good(s) && AdmissibleRun(host, s, calls)
    ensures Good(Run(host, s, calls)) && Run(host, s, calls).self == s.self
    ensures forall t: Address :: Free(Run(host, s, calls), t) >= Free(s, t)
    decreases |calls|
  {
    if calls != [] {
      var k := |calls| - 1;
      RunGood(host, s, calls[..k]);
      var mid := Run(host, s, calls[..k]);
      StepGood(host, mid, calls[k]);
      forall t: Address ensures Free(Run(host, s, calls), t) >= Free(s, t) {
        assert Free(mid, t) >= Free(s, t);
      }
    }
  }

  /** Changing the credit token under outstanding credit: the contract stays solvent exactly
      when its free holdings of the new token cover everything the credit ledger owes. */
  lemma CreditTokenSwitch(host: Host, s: State, token: Address)
    requires Good(s) && s.admin.Some? && s.credit.token != Some(token)
    ensures Good(ContractSpec.Step(host, s, SetCreditToken(token)).state)
            <==> s.credit.liability + s.credit.revenue <= Free(s, token)
  {
    var after := ContractSpec.Step(host, s, SetCreditToken(token)).state;
    assert Free(after, token) == Free(s, token) - (s.credit.liability + s.credit.revenue);
    SumNonNegative(s.credit.balances);
    forall t: Address | t != token ensures Free(after, t) >= Free(s, t) && Free(s, t) >= 0 {
    }
  }

  /** Before there is an administrator exactly the depositors' own calls, and what happens
      around the contract, can do anything; afterwards no call is refused for the lack of one. */
  lemma NeedsInitialization(host: Host, s: State, call: Call)
    ensures ContractSpec.Step(host, s, call).reply == Fail(NotInitialized)
            <==> s.admin.None? && !(call.Deposit? || call.RequestWithdrawal? || call.Withdraw? || call.ExpireMark?
                                    || call.Tick? || call.OutsideTransfer? || call.Mint?)
  {
    var out := ContractSpec.Step(host, s, call);
    if NeedsAdmin(call) && s.admin.None? {
      assert out == Refused(s, NotInitialized);
    } else if IsOutside(call) {
      assert out == OutsideStep(s, call);
    } else if IsSwitch(call) {
      assert out == SwitchStep(s, call);
    } else if IsRelayCall(call) {
      assert out == RelayStep(host, s, AdminOf(s), call);
      RelayIsInitialized(host, s, AdminOf(s), call);
    } else if IsKeeperCall(call) {
      assert out == KeeperStep(s, AdminOf(s), call);
    } else if IsCreditSetting(call) {
      assert out == CreditSetting(s, call);
    } else {
      assert out == CreditStep(s, call);
    }
  }

  lemma RelayIsInitialized(host: Host, s: State, admin: Address, call: Call)
    requires IsRelayCall(call)
    ensures RelayStep(host, s, admin, call).reply != Fail(NotInitialized)
  {
  }

  // Books.

  datatype Book = BalanceOf(who: Address) | Liability | Revenue | KeeperFunds

  function BookValue(s: State, book: Book): int {
    match book
    case BalanceOf(who) => GateCredits.Balance(s.credit, who)
    case Liability => s.credit.liability
    case Revenue => s.credit.revenue
    case KeeperFunds => s.keeper.pool
  }

  /** What a successful call means for a book, read off the call and its reply alone. */
  function BookFlow(call: Call, reply: Reply, book: Book): int {
    if reply.Fail? then 0
    else
      match call
      case Deposit(who, amount) => if book == BalanceOf(who) || book == Liability then amount else 0
      case Withdraw(who) => if book == BalanceOf(who) || book == Liability then -reply.value else 0
      case Meter(consumer) =>
        if book == BalanceOf(consumer) || book == Liability then -reply.value
        else if book == Revenue then reply.value else 0
      case WithdrawRevenue(_, amount) => if book == Revenue then -amount else 0
      case FundKeeper(amount) => if book == KeeperFunds then amount else 0
      case ExtendTtls(_, _) => if book == KeeperFunds then -reply.value else 0
      case _ => 0
  }

  lemma CreditMovesBook(s: State, call: Call, book: Book)
    requires Good(s)
    requires call.Deposit? || call.RequestWithdrawal? || call.Withdraw? || call.WithdrawRevenue? || call.Meter?
    ensures var out := CreditStep(s, call);
            BookValue(out.state, book) == BookValue(s, book) + BookFlow(call, out.reply, book)
  {
    LedgersReady(s);
    var c, a, self := s.credit, s.accounts, s.self;
    match call
    case Deposit(who, amount) => GateCredits.DepositKeeps(c, a, self, who, amount);
    case RequestWithdrawal(who, amount) => GateCredits.RequestKeeps(c, a, self, s.time, who, amount);
    case Withdraw(who) => WithdrawMovesBook(s, who, book);
    case WithdrawRevenue(recipient, amount) => GateCredits.RevenueKeeps(c, a, self, recipient, amount);
    case Meter(consumer) => GateCredits.MeterKeeps(c, a, self, s.time, s.ledger, consumer);
  }

  lemma WithdrawMovesBook(s: State, who: Address, book: Book)
    requires Good(s)
    ensures var out := CreditStep(s, Withdraw(who));
            BookValue(out.state, book) == BookValue(s, book) + BookFlow(Withdraw(who), out.reply, book)
  {
    LedgersReady(s);
    GateCredits.WithdrawKeeps(s.credit, s.accounts, s.self, s.time, who);
    AtMostSum(s.credit.balances, who);
  }

  lemma KeeperMovesBook(s: State, admin: Address, call: Call, book: Book)
    requires Good(s) && IsKeeperCall(call)
    ensures var out := KeeperStep(s, admin, call);
            BookValue(out.state, book) == BookValue(s, book) + BookFlow(call, out.reply, book)
  {
    LedgersReady(s);
    var k, a, self := s.keeper, s.accounts, s.self;
    match call
    case FundKeeper(amount) => KeeperPool.FundKeeps(k, a, self, s.ledger, admin, amount);
    case SetKeeperToken(_) =>
    case SetKeeperParams(_, _, _) =>
    case ExtendTtls(keeper, entries) =>
      KeeperPool.ExtendPays(k, a, self, s.ledger, keeper, entries);
      KeeperPool.ExtendKeeps(k, a, self, s.ledger, keeper, entries);
  }

  // What each family of calls leaves alone.

  predicate SameCreditBooks(s: State, t: State) {
    s.credit.balances == t.credit.balances && s.credit.liability == t.credit.liability && s.credit.revenue == t.credit.revenue
  }

  predicate SameKeeperBooks(s: State, t: State) {
    s.keeper.pool == t.keeper.pool && s.keeper.spent == t.keeper.spent && s.keeper.cap == t.keeper.cap
  }

  lemma RelayFrame(host: Host, s: State, admin: Address, call: Call)
    requires IsRelayCall(call)
    ensures var out := RelayStep(host, s, admin, call);
            && SameCreditBooks(s, out.state) && SameKeeperBooks(s, out.state) && out.state.ledger == s.ledger
            && (out.state.keeper.rent == s.keeper.rent
                || exists e :: out.state.keeper.rent == Write(s.keeper.rent, e, s.ledger))
  {
  }

  lemma SwitchFrame(s: State, call: Call)
    requires IsSwitch(call)
    ensures var out := SwitchStep(s, call);
            && SameCreditBooks(s, out.state) && SameKeeperBooks(s, out.state) && out.state.ledger == s.ledger
            && out.state.keeper.rent.touched == s.keeper.rent.touched
  {
  }

  lemma OutsideFrame(s: State, call: Call)
    requires IsOutside(call)
    ensures var out := OutsideStep(s, call);
            && out.state.credit == s.credit && out.state.keeper == s.keeper
            && (call.Tick? ==> out.state.ledger == s.ledger + call.ledgers)
            && (!call.Tick? ==> out.state.ledger == s.ledger)
  {
  }

  lemma SettingFrame(s: State, call: Call)
    requires IsCreditSetting(call)
    ensures var out := CreditSetting(s, call);
            SameCreditBooks(s, out.state) && out.state.keeper == s.keeper && out.state.ledger == s.ledger
  {
  }

  lemma CreditFrame(s: State, call: Call)
    requires call.Deposit? || call.RequestWithdrawal? || call.Withdraw? || call.WithdrawRevenue? || call.Meter?
    ensures var out := CreditStep(s, call);
            out.state.keeper == s.keeper && out.state.ledger == s.ledger
  {
  }

  lemma KeeperFrame(s: State, admin: Address, call: Call)
    requires IsKeeperCall(call)
    ensures var out := KeeperStep(s, admin, call);
            && out.state.credit == s.credit && out.state.ledger == s.ledger
            && (!call.ExtendTtls? ==> out.state.keeper.rent == s.keeper.rent && out.state.keeper.spent == s.keeper.spent)
            && (!call.SetKeeperParams? ==> out.state.keeper.cap == s.keeper.cap)
  {
  }

  lemma NoFlow(call: Call, reply: Reply, book: Book)
    requires IsRelayCall(call) || IsSwitch(call) || IsOutside(call) || IsCreditSetting(call)
    ensures BookFlow(call, reply, book) == 0
  {
  }

  lemma SameBooks(s: State, t: State, book: Book)
    requires SameCreditBooks(s, t) && SameKeeperBooks(s, t)
    ensures BookValue(t, book) == BookValue(s, book)
  {
  }

  function AdminOf(s: State): Address {
    if s.admin.Some? then s.admin.value else s.self
  }

  /** Every step of every entry point moves every book by exactly its flow. */
  lemma StepMovesBook(host: Host, s: State, call: Call, book: Book)
    requires Good(s)
    ensures var out := ContractSpec.Step(host, s, call);
            BookValue(out.state, book) == BookValue(s, book) + BookFlow(call, out.reply, book)
  {
    var out := ContractSpec.Step(host, s, call);
    if NeedsAdmin(call) && s.admin.None? {
    } else if IsOutside(call) {
      OutsideFrame(s, call);
      NoFlow(call, out.reply, book);
      SameBooks(s, out.state, book);
    } else if IsSwitch(call) {
      SwitchFrame(s, call);
      NoFlow(call, out.reply, book);
      SameBooks(s, out.state, book);
    } else if IsRelayCall(call) {
      RelayFrame(host, s, AdminOf(s), call);
      NoFlow(call, out.reply, book);
      SameBooks(s, out.state, book);
    } else if IsKeeperCall(call) {
      KeeperMovesBook(s, AdminOf(s), call, book);
    } else if IsCreditSetting(call) {
      SettingFrame(s, call);
      NoFlow(call, out.reply, book);
      SameBooks(s, out.state, book);
    } else {
      CreditMovesBook(s, call, book);
    }
  }

  function BookTotal(host: Host, s: State, calls: seq<Call>, book: Book): int {
    if calls == [] then 0
    else
      var k := |calls| - 1;
      BookTotal(host, s, calls[..k], book) + BookFlow(calls[k], Last(host, s, calls).reply, book)
  }

  /** Over every run, each depositor's balance is deposits minus withdrawals minus fees, the
      revenue is the fees minus what governance withdrew, and the keeper pool is what was
      funded minus what was paid. */
  lemma {:induction false} BooksBalance(host: Host, s: State, calls: seq<Call>, book: Book)
    requires Good(s) && AdmissibleRun(host, s, calls)
    ensures BookValue(Run(host, s, calls), book) == BookValue(s, book) + BookTotal(host, s, calls, book)
    decreases |calls|
  {
    if calls != [] {
      var k := |calls| - 1;
      RunGood(host, s, calls[..k]);
      BooksBalance(host, s, calls[..k], book);
      StepMovesBook(host, Run(host, s, calls[..k]), calls[k], book);
    }
  }

  /** Only the depositor's own withdrawal or metered query can lower a balance; no governance
      step and no other user's call can. */
  lemma OnlyOwnerLowersBalance(host: Host, s: State, call: Call, who: Address)
    requires Good(s)
    requires GateCredits.Balance(ContractSpec.Step(host, s, call).state.credit, who) < GateCredits.Balance(s.credit, who)
    ensures call == Withdraw(who) || call == Meter(who)
  {
    StepMovesBook(host, s, call, BalanceOf(who));
  }

  // Keeper payments.

  ghost function PaidToKeepers(host: Host, s: State, calls: seq<Call>): int {
    if calls == [] then 0
    else
      var k := |calls| - 1;
      var out := Last(host, s, calls);
      PaidToKeepers(host, s, calls[..k]) + if calls[k].ExtendTtls? && out.reply.Ok? then out.reply.value else 0
  }

  /** Calls that neither move the ledger on nor change the reward parameters. */
  predicate WithinLedger(calls: seq<Call>) {
    forall i :: 0 <= i < |calls| ==> !calls[i].SetKeeperParams? && (calls[i].Tick? ==> calls[i].ledgers == 0)
  }

  /** A call that neither moves the ledger on nor changes the parameters pays keepers only
      through the per-ledger counter. */
  ghost predicate CountsPayment(s: State, out: Outcome, paid: int) {
    && out.state.ledger == s.ledger && out.state.keeper.cap == s.keeper.cap && paid >= 0
    && (s.keeper.cap > 0 ==>
          && KeeperPool.Spent(out.state.keeper, s.ledger) == KeeperPool.Spent(s.keeper, s.ledger) + paid
          && (paid > 0 ==> KeeperPool.Spent(out.state.keeper, s.ledger) <= s.keeper.cap))
  }

  lemma KeeperWithinLedger(s: State, admin: Address, call: Call)
    requires Good(s) && IsKeeperCall(call) && !call.SetKeeperParams?
    ensures var out := KeeperStep(s, admin, call);
            CountsPayment(s, out, if call.ExtendTtls? && out.reply.Ok? then out.reply.value else 0)
  {
    KeeperFrame(s, admin, call);
    if call.ExtendTtls? {
      LedgersReady(s);
      KeeperPool.ExtendPays(s.keeper, s.accounts, s.self, s.ledger, call.keeper, call.entries);
      KeeperPool.ExtendKeeps(s.keeper, s.accounts, s.self, s.ledger, call.keeper, call.entries);
    }
  }

  /** A step that leaves the ledger number and the keeper's books alone pays nobody. */
  lemma NoPayment(s: State, out: Outcome)
    requires SameKeeperBooks(s, out.state) && out.state.ledger == s.ledger
    ensures CountsPayment(s, out, 0)
  {
  }

  lemma KeeperBooksFrame(host: Host, s: State, call: Call)
    requires !IsKeeperCall(call) && (call.Tick? ==> call.ledgers == 0)
    ensures SameKeeperBooks(s, ContractSpec.Step(host, s, call).state) && ContractSpec.Step(host, s, call).state.ledger == s.ledger
  {
    if NeedsAdmin(call) && s.admin.None? {
      assert ContractSpec.Step(host, s, call) == Refused(s, NotInitialized);
    } else if IsOutside(call) {
      assert ContractSpec.Step(host, s, call) == OutsideStep(s, call);
      OutsideFrame(s, call);
    } else if IsSwitch(call) {
      assert ContractSpec.Step(host, s, call) == SwitchStep(s, call);
      SwitchFrame(s, call);
    } else if IsRelayCall(call) {
      assert ContractSpec.Step(host, s, call) == RelayStep(host, s, AdminOf(s), call);
      RelayFrame(host, s, AdminOf(s), call);
    } else if IsCreditSetting(call) {
      assert ContractSpec.Step(host, s, call) == CreditSetting(s, call);
      SettingFrame(s, call);
    } else {
      assert ContractSpec.Step(host, s, call) == CreditStep(s, call);
      CreditFrame(s, call);
    }
  }

  lemma StepWithinLedger(host: Host, s: State, call: Call)
    requires Good(s) && !call.SetKeeperParams? && (call.Tick? ==> call.ledgers == 0)
    ensures var out := ContractSpec.Step(host, s, call);
            CountsPayment(s, out, if call.ExtendTtls? && out.reply.Ok? then out.reply.value else 0)
  {
    var out := ContractSpec.Step(host, s, call);
    if !IsKeeperCall(call) {
      KeeperBooksFrame(host, s, call);
      NoPayment(s, out);
    } else if s.admin.None? {
      assert out == Refused(s, NotInitialized);
      NoPayment(s, out);
    } else {
      assert out == KeeperStep(s, AdminOf(s), call);
      KeeperWithinLedger(s, AdminOf(s), call);
    }
  }

  /** Within one ledger, and under one non-zero cap, all keeper calls together are paid at most
      what the cap leaves. */
  lemma {:induction false} LedgerPayoutWithinCap(host: Host, s: State, calls: seq<Call>)
    requires Good(s) && AdmissibleRun(host, s, calls) && WithinLedger(calls) && s.keeper.cap > 0
    ensures var after := Run(host, s, calls);
            && after.ledger == s.ledger && after.keeper.cap == s.keeper.cap
            && KeeperPool.Spent(after.keeper, s.ledger) == KeeperPool.Spent(s.keeper, s.ledger) + PaidToKeepers(host, s, calls)
            && 0 <= PaidToKeepers(host, s, calls) <= Max(s.keeper.cap - KeeperPool.Spent(s.keeper, s.ledger), 0)
    decreases |calls|
  {
    if calls != [] {
      var k := |calls| - 1;
      LedgerPayoutWithinCap(host, s, calls[..k]);
      RunGood(host, s, calls[..k]);
      StepWithinLedger(host, Run(host, s, calls[..k]), calls[k]);
    }
  }

  /** `e` was touched no earlier than `ledger`. */
  ghost predicate TouchedSince(s: State, e: Entry, ledger: nat) {
    e in s.keeper.rent.touched && s.keeper.rent.touched[e] >= ledger
  }

  lemma StepKeepsTouch(host: Host, s: State, call: Call, e: Entry, ledger: nat)
    requires Good(s) && TouchedSince(s, e, ledger)
    ensures TouchedSince(ContractSpec.Step(host, s, call).state, e, ledger)
  {
    if NeedsAdmin(call) && s.admin.None? {
    } else if IsOutside(call) {
      OutsideFrame(s, call);
    } else if IsSwitch(call) {
      SwitchFrame(s, call);
    } else if IsRelayCall(call) {
      assert ContractSpec.Step(host, s, call) == RelayStep(host, s, AdminOf(s), call);
      RelayFrame(host, s, AdminOf(s), call);
    } else if IsKeeperCall(call) {
      assert ContractSpec.Step(host, s, call) == KeeperStep(s, AdminOf(s), call);
      KeeperKeepsTouch(s, AdminOf(s), call, e, ledger);
    } else if IsCreditSetting(call) {
      SettingFrame(s, call);
    } else {
      CreditFrame(s, call);
    }
  }

  lemma KeeperKeepsTouch(s: State, admin: Address, call: Call, e: Entry, ledger: nat)
    requires Good(s) && TouchedSince(s, e, ledger) && IsKeeperCall(call)
    ensures TouchedSince(KeeperStep(s, admin, call).state, e, ledger)
  {
    KeeperFrame(s, admin, call);
    if call.ExtendTtls? {
      KeeperPool.RenewAllRenews(KeeperPool.Batch(s.keeper.rent, []), s.keeper.window, call.entries, s.ledger);
    }
  }

  lemma {:induction false} RunKeepsTouch(host: Host, s: State, calls: seq<Call>, e: Entry, ledger: nat)
    requires Good(s) && AdmissibleRun(host, s, calls) && TouchedSince(s, e, ledger)
    ensures TouchedSince(Run(host, s, calls), e, ledger)
    decreases |calls|
  {
    if calls != [] {
      var k := |calls| - 1;
      RunGood(host, s, calls[..k]);
      RunKeepsTouch(host, s, calls[..k], e, ledger);
      StepKeepsTouch(host, Run(host, s, calls[..k]), calls[k], e, ledger);
    }
  }

  lemma RenewalTouches(host: Host, s: State, keeper: Address, entries: seq<Entry>, e: Entry)
    requires Good(s) && e in ContractSpec.Step(host, s, ExtendTtls(keeper, entries)).renewed
    ensures TouchedSince(ContractSpec.Step(host, s, ExtendTtls(keeper, entries)).state, e, s.ledger)
    ensures e in s.keeper.rent.touched
    ensures s.ledger - s.keeper.rent.touched[e] >= SCORE_TTL_THRESHOLD - s.keeper.window
  {
    var b := KeeperPool.Batch(s.keeper.rent, []);
    var batch := KeeperPool.RenewAll(b, s.keeper.window, entries, s.ledger);
    var out := ContractSpec.Step(host, s, ExtendTtls(keeper, entries));
    assert out.renewed == batch.renewed;
    KeeperPool.RenewAllRenews(b, s.keeper.window, entries, s.ledger);
    var i :| 0 <= i < |out.renewed| && out.renewed[i] == e;
    KeeperPool.RenewedWasDue(b, s.keeper.window, entries, s.ledger, i);
  }

  /** Two renewals of one entry, however the calls in between are split or repeated, are at
      least the threshold minus the window then in force apart. */
  lemma RenewalsAreApart(host: Host, s: State, one: Call, between: seq<Call>, other: Call, e: Entry)
    requires Good(s) && one.ExtendTtls? && other.ExtendTtls?
    requires var first := ContractSpec.Step(host, s, one);
             && e in first.renewed
             && AdmissibleRun(host, first.state, between)
             && e in ContractSpec.Step(host, Run(host, first.state, between), other).renewed
    ensures var later := Run(host, ContractSpec.Step(host, s, one).state, between);
            later.ledger - s.ledger >= SCORE_TTL_THRESHOLD - later.keeper.window
  {
    var first := ContractSpec.Step(host, s, one);
    StepGood(host, s, one);
    RenewalTouches(host, s, one.keeper, one.entries, e);
    RunGood(host, first.state, between);
    RunKeepsTouch(host, first.state, between, e, s.ledger);
    RenewalTouches(host, Run(host, first.state, between), other.keeper, other.entries, e);
  }
}
