/** The permissionless keeper: renews score entries close to expiry and is paid per entry
    from a pool that only governance funds. */
module KeeperPool {
  import opened Options
  import opened Tokens
  import opened Errors
  import opened RentQueue

  const KEEPER_BATCH_MAX := MAX_EXPIRING_ENTRIES_PER_CALL
  const MAX_KEEPER_REWARD_PER_ENTRY := 1_000_000_000

  /** `spent` is the amount paid per ledger sequence number. */
  datatype Keeper = Keeper(
    token: Option<Address>,
    pool: int,
    perEntry: int,
    window: nat,
    cap: int,
    spent: map<nat, int>,
    rent: Rent)

  datatype Step = Step(keeper: Keeper, accounts: Accounts, reply: Reply, renewed: seq<Entry>)

  const EMPTY := Keeper(None, 0, 0, 0, 0, map[], NO_ENTRIES)

  function Spent(k: Keeper, ledger: nat): int {
    if ledger in k.spent then k.spent[ledger] else 0
  }

  predicate Eligible(rent: Rent, window: nat, e: Entry, ledger: nat) {
    var remaining := RemainingTtl(rent, e, ledger);
    remaining.Some? && remaining.value <= window
  }

  datatype Batch = Batch(rent: Rent, renewed: seq<Entry>)

  function RenewOne(b: Batch, window: nat, e: Entry, ledger: nat): Batch {
    if Eligible(b.rent, window, e, ledger) && e in b.rent.live
    then Batch(Track(b.rent, e, ledger), b.renewed + [e])
    else b
  }

  /** The batch loop. */
  function RenewAll(b: Batch, window: nat, entries: seq<Entry>, ledger: nat): Batch {
    if entries == [] then b
    else
      var n := |entries| - 1;
      RenewOne(RenewAll(b, window, entries[..n], ledger), window, entries[n], ledger)
  }

  /** Rewards are added up entry by entry. */
  function Requested(perEntry: int, n: nat): int {
    if n == 0 || perEntry <= 0 then 0 else SatAdd(Requested(perEntry, n - 1), perEntry)
  }

  function Payable(k: Keeper, requested: int, ledger: nat): int {
    var payable := Min(requested, k.pool);
    if k.cap > 0 then Min(payable, Max(k.cap - Spent(k, ledger), 0)) else payable
  }

  function ExtendTtls(k: Keeper, a: Accounts, self: Address, ledger: nat, keeper: Address, entries: seq<Entry>): Step {
    if |entries| > KEEPER_BATCH_MAX then Step(k, a, Fail(BatchTooLarge), [])
    else if keeper == self then Step(k, a, Fail(Trapped), [])
    else
      var batch := RenewAll(Batch(k.rent, []), k.window, entries, ledger);
      var renewed := k.(rent := batch.rent);
      var requested := Requested(k.perEntry, |batch.renewed|);
      var paid := if requested > 0 then Payable(k, requested, ledger) else 0;
      if paid <= 0 then Step(renewed, a, Ok(paid), batch.renewed)
      else if paid > k.pool then Step(k, a, Fail(ArithmeticOverflow), [])
      else if k.token.None? then Step(k, a, Fail(KeeperRewardTokenNotSet), [])
      else
        var moved := Transfer(a, k.token.value, self, keeper, paid);
        if moved.None? then Step(k, a, Fail(Trapped), [])
        else
          Step(renewed.(pool := k.pool - paid, spent := k.spent[ledger := SatAdd(Spent(k, ledger), paid)]),
               moved.value, Ok(paid), batch.renewed)
  }

  function Fund(k: Keeper, a: Accounts, self: Address, admin: Address, amount: int): Step {
    if amount <= 0 then Step(k, a, Fail(InvalidAmount), [])
    else if admin == self then Step(k, a, Fail(Trapped), [])
    else if k.token.None? then Step(k, a, Fail(KeeperRewardTokenNotSet), [])
    else
      var moved := Transfer(a, k.token.value, admin, self, amount);
      if moved.None? then Step(k, a, Fail(Trapped), [])
      else Step(k.(pool := SatAdd(k.pool, amount)), moved.value, Ok(SatAdd(k.pool, amount)), [])
  }

  function SetParams(k: Keeper, a: Accounts, perEntry: int, window: nat, cap: int): Step {
    if perEntry < 0 || perEntry > MAX_KEEPER_REWARD_PER_ENTRY || window > SCORE_TTL_THRESHOLD || cap < 0
    then Step(k, a, Fail(InvalidKeeperRewardParams), [])
    else Step(k.(perEntry := perEntry, window := window, cap := cap), a, Ok(0), [])
  }

  // Invariants.

  ghost predicate KeeperOk(k: Keeper, ledger: nat) {
    && k.pool >= 0 && 0 <= k.perEntry <= MAX_KEEPER_REWARD_PER_ENTRY && 0 <= k.cap <= I128_MAX
    && k.window <= SCORE_TTL_THRESHOLD
    && (k.token.None? ==> k.pool == 0)
    && (forall l :: l in k.spent ==> k.spent[l] >= 0)
    && RentOk(k.rent, ledger)
  }

  function Owed(k: Keeper, token: Address): int {
    if k.token == Some(token) then k.pool else 0
  }

  function Slack(k: Keeper, a: Accounts, self: Address, token: Address): int {
    Held(a, token, self) - Owed(k, token)
  }

  ghost predicate Ready(k: Keeper, a: Accounts, self: Address, ledger: nat) {
    && KeeperOk(k, ledger) && AccountsOk(a)
    && forall t: Address :: Slack(k, a, self, t) >= 0
  }

  ghost predicate Keeps(k: Keeper, a: Accounts, self: Address, ledger: nat, step: Step) {
    && KeeperOk(step.keeper, ledger) && AccountsOk(step.accounts)
    && step.keeper.token == k.token
    && (step.reply.Fail? ==> step.keeper == k && step.accounts == a && step.renewed == [])
    && forall t: Address :: Slack(step.keeper, step.accounts, self, t) >= Slack(k, a, self, t)
  }

  lemma {:induction false} RequestedIsProduct(perEntry: int, n: nat)
    requires 0 <= perEntry <= MAX_KEEPER_REWARD_PER_ENTRY && n <= KEEPER_BATCH_MAX
    ensures Requested(perEntry, n) == n * perEntry
  {
    if n > 0 {
      RequestedIsProduct(perEntry, n - 1);
      assert (n - 1) * perEntry + perEntry == n * perEntry;
      assert 0 <= (n - 1) * perEntry <= 100 * MAX_KEEPER_REWARD_PER_ENTRY by { ProductBound(n - 1, perEntry); }
    }
  }

  lemma ProductBound(n: nat, p: int)
    requires 0 <= p <= MAX_KEEPER_REWARD_PER_ENTRY && n <= KEEPER_BATCH_MAX
    ensures 0 <= n * p <= 100 * MAX_KEEPER_REWARD_PER_ENTRY
  {
    assert n * p <= n * MAX_KEEPER_REWARD_PER_ENTRY;
  }

  /** What the batch loop does to the rent records: the queue stays sound, nothing becomes
      live or dead, touches never go back, every renewed entry is touched now. */
  ghost predicate Renews(b: Batch, after: Batch, ledger: nat) {
    && RentOk(after.rent, ledger)
    && after.rent.live == b.rent.live
    && b.renewed <= after.renewed
    && (forall e :: e in b.rent.touched ==> e in after.rent.touched && b.rent.touched[e] <= after.rent.touched[e])
    && (forall i :: |b.renewed| <= i < |after.renewed| ==>
          && after.renewed[i] in after.rent.live && after.renewed[i] in b.rent.touched
          && after.renewed[i] in after.rent.touched && after.rent.touched[after.renewed[i]] == ledger)
  }

  lemma RenewOneRenews(b: Batch, mid: Batch, window: nat, e: Entry, ledger: nat)
    requires RentOk(b.rent, ledger) && Renews(b, mid, ledger)
    requires forall x :: x in mid.rent.touched ==> x in b.rent.touched
    ensures Renews(b, RenewOne(mid, window, e, ledger), ledger)
    ensures forall x :: x in RenewOne(mid, window, e, ledger).rent.touched ==> x in b.rent.touched
  {
    if Eligible(mid.rent, window, e, ledger) && e in mid.rent.live {
      TrackKeeps(mid.rent, e, ledger);
    }
  }

  lemma {:induction false} RenewAllRenews(b: Batch, window: nat, entries: seq<Entry>, ledger: nat)
    requires RentOk(b.rent, ledger)
    ensures Renews(b, RenewAll(b, window, entries, ledger), ledger)
    ensures forall x :: x in RenewAll(b, window, entries, ledger).rent.touched ==> x in b.rent.touched
    ensures |RenewAll(b, window, entries, ledger).renewed| <= |b.renewed| + |entries|
    decreases |entries|
  {
    if entries != [] {
      var n := |entries| - 1;
      RenewAllRenews(b, window, entries[..n], ledger);
      RenewOneRenews(b, RenewAll(b, window, entries[..n], ledger), window, entries[n], ledger);
    }
  }

  /** What a call that renews `n` entries pays. */
  function Reward(k: Keeper, n: nat, ledger: nat): int {
    Payable(k, Requested(k.perEntry, n), ledger)
  }

  lemma RewardBounds(k: Keeper, ledger: nat, n: nat)
    requires KeeperOk(k, ledger) && n <= KEEPER_BATCH_MAX
    ensures 0 <= Reward(k, n, ledger) <= k.pool && Reward(k, n, ledger) <= n * k.perEntry
    ensures k.cap > 0 && Reward(k, n, ledger) > 0 ==> Spent(k, ledger) + Reward(k, n, ledger) <= k.cap
  {
    RequestedIsProduct(k.perEntry, n);
    ProductBound(n, k.perEntry);
  }

  /** The reward is the most that the renewals, the pool and a non-zero cap allow. */
  lemma RewardIsLargest(k: Keeper, ledger: nat, n: nat, x: int)
    requires KeeperOk(k, ledger) && n <= KEEPER_BATCH_MAX && x <= n * k.perEntry && x <= k.pool
    requires k.cap > 0 ==> Spent(k, ledger) + x <= k.cap
    ensures x <= Reward(k, n, ledger)
  {
    RequestedIsProduct(k.perEntry, n);
  }

  /** The call with its batch already worked out. */
  lemma ExtendIs(k: Keeper, a: Accounts, self: Address, ledger: nat, keeper: Address, entries: seq<Entry>)
    requires Ready(k, a, self, ledger) && |entries| <= KEEPER_BATCH_MAX && keeper != self
    ensures var step := ExtendTtls(k, a, self, ledger, keeper, entries);
            var batch := RenewAll(Batch(k.rent, []), k.window, entries, ledger);
            && Renews(Batch(k.rent, []), batch, ledger) && |batch.renewed| <= |entries|
            && (step.reply.Ok? ==>
                  && step.renewed == batch.renewed && step.keeper.rent == batch.rent
                  && step.reply.value == Reward(k, |batch.renewed|, ledger))
            && (step.reply.Fail? ==> step == Step(k, a, Fail(Trapped), []))
  {
    var batch := RenewAll(Batch(k.rent, []), k.window, entries, ledger);
    RenewAllRenews(Batch(k.rent, []), k.window, entries, ledger);
    RewardBounds(k, ledger, |batch.renewed|);
  }

  /** A keeper call pays at most the reward per renewed entry, at most the pool and, when a
      cap is in force, at most what the cap leaves for this ledger. It counts the payment under
      this ledger and no other. It never fails for lack of pool or token. */
  lemma ExtendPays(k: Keeper, a: Accounts, self: Address, ledger: nat, keeper: Address, entries: seq<Entry>)
    requires Ready(k, a, self, ledger)
    ensures var step := ExtendTtls(k, a, self, ledger, keeper, entries);
            && (step.reply.Fail? ==> step.reply.error == BatchTooLarge || step.reply.error == Trapped)
            && (step.reply.Ok? ==>
                  && 0 <= step.reply.value <= k.pool && step.reply.value <= |step.renewed| * k.perEntry
                  && step.keeper.pool == k.pool - step.reply.value
                  && (step.reply.value > 0 ==> Spent(step.keeper, ledger) == Min(Spent(k, ledger) + step.reply.value, I128_MAX))
                  && (k.cap > 0 ==> Spent(step.keeper, ledger) == Spent(k, ledger) + step.reply.value)
                  && (k.cap > 0 && step.reply.value > 0 ==> Spent(step.keeper, ledger) <= k.cap))
            && (forall l: nat :: l != ledger ==> Spent(step.keeper, l) == Spent(k, l))
            && (|entries| > 100 ==> step.reply == Fail(BatchTooLarge))
  {
    if |entries| <= KEEPER_BATCH_MAX && keeper != self {
      ExtendIs(k, a, self, ledger, keeper, entries);
      RewardBounds(k, ledger, |RenewAll(Batch(k.rent, []), k.window, entries, ledger).renewed|);
    }
  }

  /** The payment is the full reward and reaches the keeper. */
  lemma ExtendReachesKeeper(k: Keeper, a: Accounts, self: Address, ledger: nat, keeper: Address, entries: seq<Entry>)
    requires Ready(k, a, self, ledger)
    requires ExtendTtls(k, a, self, ledger, keeper, entries).reply.Ok?
    ensures var step := ExtendTtls(k, a, self, ledger, keeper, entries);
            && step.reply.value == Reward(k, |step.renewed|, ledger)
            && (k.token.Some? ==> Held(step.accounts, k.token.value, keeper) == Held(a, k.token.value, keeper) + step.reply.value)
  {
    var step := ExtendTtls(k, a, self, ledger, keeper, entries);
    ExtendIs(k, a, self, ledger, keeper, entries);
    ExtendPays(k, a, self, ledger, keeper, entries);
    if step.reply.value > 0 {
      TransferMoves(a, k.token.value, self, keeper, step.reply.value);
    }
  }

  /** The reward is the only token movement of a keeper call. */
  lemma ExtendMovesReward(k: Keeper, a: Accounts, self: Address, ledger: nat, keeper: Address, entries: seq<Entry>)
    requires Ready(k, a, self, ledger)
    ensures var step := ExtendTtls(k, a, self, ledger, keeper, entries);
            if step.reply.Ok? && step.reply.value > 0
            then k.token.Some? && Transfer(a, k.token.value, self, keeper, step.reply.value) == Some(step.accounts)
            else step.accounts == a
  {
  }

  lemma ExtendKeeps(k: Keeper, a: Accounts, self: Address, ledger: nat, keeper: Address, entries: seq<Entry>)
    requires Ready(k, a, self, ledger)
    ensures var step := ExtendTtls(k, a, self, ledger, keeper, entries);
            Keeps(k, a, self, ledger, step)
  {
    var step := ExtendTtls(k, a, self, ledger, keeper, entries);
    if step.reply.Ok? {
      ExtendIs(k, a, self, ledger, keeper, entries);
      ExtendPays(k, a, self, ledger, keeper, entries);
      if step.reply.value > 0 {
        TransferMoves(a, k.token.value, self, keeper, step.reply.value);
      }
    }
  }

  lemma FundKeeps(k: Keeper, a: Accounts, self: Address, ledger: nat, admin: Address, amount: int)
    requires Ready(k, a, self, ledger)
    ensures var step := Fund(k, a, self, admin, amount);
            && Keeps(k, a, self, ledger, step)
            && (step.reply.Ok? ==> step.keeper.pool == k.pool + amount)
            && step.keeper.rent == k.rent
  {
    var step := Fund(k, a, self, admin, amount);
    if step.reply.Ok? {
      TransferMoves(a, k.token.value, admin, self, amount);
      assert Slack(k, a, self, k.token.value) >= 0;
    }
  }

  /** Exactly the funding that the token lets through is accepted, and it all goes to the pool. */
  lemma FundExactly(k: Keeper, a: Accounts, self: Address, ledger: nat, admin: Address, amount: int)
    requires Ready(k, a, self, ledger)
    ensures var step := Fund(k, a, self, admin, amount);
            && (step.reply.Ok? <==> && amount > 0 && admin != self && k.token.Some?
                                    && amount <= Held(a, k.token.value, admin)
                                    && Held(a, k.token.value, self) + amount <= I128_MAX)
            && step.keeper == k.(pool := k.pool + if step.reply.Ok? then amount else 0)
            && (step.reply.Ok? ==> step.reply.value == k.pool + amount)
  {
    if k.token.Some? {
      assert Slack(k, a, self, k.token.value) >= 0;
    }
  }

  lemma SetParamsKeeps(k: Keeper, a: Accounts, self: Address, ledger: nat, perEntry: int, window: nat, cap: int)
    requires Ready(k, a, self, ledger) && cap <= I128_MAX
    ensures Keeps(k, a, self, ledger, SetParams(k, a, perEntry, window, cap))
  {
  }

  // How often one entry can be paid for.

  /** An entry is renewed only after THRESHOLD - window ledgers since its last touch. */
  lemma {:induction false} RenewedWasDue(b: Batch, window: nat, entries: seq<Entry>, ledger: nat, i: nat)
    requires RentOk(b.rent, ledger)
    requires |b.renewed| <= i < |RenewAll(b, window, entries, ledger).renewed|
    ensures var e := RenewAll(b, window, entries, ledger).renewed[i];
            e in b.rent.touched && ledger - b.rent.touched[e] >= SCORE_TTL_THRESHOLD - window
    decreases |entries|
  {
    if entries != [] {
      var n := |entries| - 1;
      var mid := RenewAll(b, window, entries[..n], ledger);
      RenewAllRenews(b, window, entries[..n], ledger);
      if i < |mid.renewed| {
        RenewedWasDue(b, window, entries[..n], ledger, i);
      }
    }
  }

  /** The loop leaves an entry's touch alone unless it renews the entry. */
  lemma {:induction false} UntouchedUnlessRenewed(b: Batch, window: nat, entries: seq<Entry>, ledger: nat, e: Entry)
    requires e in b.rent.touched
    ensures var after := RenewAll(b, window, entries, ledger);
            && after.rent.live == b.rent.live
            && (e in after.renewed || (e in after.rent.touched && after.rent.touched[e] == b.rent.touched[e]))
    decreases |entries|
  {
    if entries != [] {
      UntouchedUnlessRenewed(b, window, entries[..|entries| - 1], ledger, e);
    }
  }

  /** Every listed entry that is live and was last touched at least THRESHOLD - window ledgers
      ago is renewed. */
  lemma {:induction false} DueIsRenewed(b: Batch, window: nat, entries: seq<Entry>, ledger: nat, e: Entry)
    requires e in entries && e in b.rent.live && e in b.rent.touched
    requires ledger - b.rent.touched[e] >= SCORE_TTL_THRESHOLD - window
    ensures e in RenewAll(b, window, entries, ledger).renewed
    decreases |entries|
  {
    var n := |entries| - 1;
    var mid := RenewAll(b, window, entries[..n], ledger);
    if e in entries[..n] {
      DueIsRenewed(b, window, entries[..n], ledger, e);
    } else {
      assert e == entries[n];
      UntouchedUnlessRenewed(b, window, entries[..n], ledger, e);
    }
  }

  lemma {:induction false} RenewedWasListed(b: Batch, window: nat, entries: seq<Entry>, ledger: nat, e: Entry)
    requires e in RenewAll(b, window, entries, ledger).renewed && e !in b.renewed
    ensures e in entries
    decreases |entries|
  {
    if entries != [] {
      var n := |entries| - 1;
      if e in RenewAll(b, window, entries[..n], ledger).renewed {
        RenewedWasListed(b, window, entries[..n], ledger, e);
      }
    }
  }

  /** Renewing keeps tracked entries tracked and adds none but renewed ones. */
  lemma {:induction false} RenewKeepsIndex(b: Batch, window: nat, entries: seq<Entry>, ledger: nat, e: Entry)
    requires RentOk(b.rent, ledger)
    ensures var after := RenewAll(b, window, entries, ledger);
            && (e in b.rent.index ==> e in after.rent.index)
            && (e in after.rent.index ==> e in b.rent.index || e in after.renewed)
    decreases |entries|
  {
    if entries != [] {
      var n := |entries| - 1;
      var mid := RenewAll(b, window, entries[..n], ledger);
      RenewKeepsIndex(b, window, entries[..n], ledger, e);
      RenewAllRenews(b, window, entries[..n], ledger);
      TrackRecords(mid.rent, entries[n], ledger);
      OthersMembers(mid.rent.index, entries[n], e);
    }
  }

  /** A call that goes through renews exactly the listed entries that are live and were last
      touched at least THRESHOLD - window ledgers ago: these are touched now, all other entries
      keep their touch, no entry becomes live or dead, and tracked entries stay tracked. */
  lemma ExtendRenewsExactly(k: Keeper, a: Accounts, self: Address, ledger: nat, keeper: Address, entries: seq<Entry>, e: Entry)
    requires Ready(k, a, self, ledger) && ExtendTtls(k, a, self, ledger, keeper, entries).reply.Ok?
    ensures var step := ExtendTtls(k, a, self, ledger, keeper, entries);
            var rent, after := k.rent, step.keeper.rent;
            && (e in step.renewed
                <==> e in entries && e in rent.live && e in rent.touched
                     && ledger - rent.touched[e] >= SCORE_TTL_THRESHOLD - k.window)
            && (e in after.touched <==> e in rent.touched)
            && (e in rent.touched ==> after.touched[e] == if e in step.renewed then ledger else rent.touched[e])
            && after.live == rent.live
            && (e in rent.index ==> e in after.index)
            && (e in after.index ==> e in rent.index || e in step.renewed)
  {
    var step := ExtendTtls(k, a, self, ledger, keeper, entries);
    var b := Batch(k.rent, []);
    ExtendIs(k, a, self, ledger, keeper, entries);
    RenewAllRenews(b, k.window, entries, ledger);
    RenewKeepsIndex(b, k.window, entries, ledger, e);
    if e in k.rent.touched {
      UntouchedUnlessRenewed(b, k.window, entries, ledger, e);
    }
    if e in step.renewed {
      RenewedWasListed(b, k.window, entries, ledger, e);
      var i :| 0 <= i < |step.renewed| && step.renewed[i] == e;
      RenewedWasDue(b, k.window, entries, ledger, i);
    } else if e in entries && e in k.rent.live && e in k.rent.touched
              && ledger - k.rent.touched[e] >= SCORE_TTL_THRESHOLD - k.window {
      DueIsRenewed(b, k.window, entries, ledger, e);
    }
  }

  /** Below the full threshold, no entry is renewed twice in one call, however often it is
      listed. */
  lemma {:induction false} NoRepeatInBatch(b: Batch, window: nat, entries: seq<Entry>, ledger: nat)
    requires RentOk(b.rent, ledger) && b.renewed == [] && window < SCORE_TTL_THRESHOLD
    ensures Distinct(RenewAll(b, window, entries, ledger).renewed)
    decreases |entries|
  {
    if entries != [] {
      var n := |entries| - 1;
      var mid := RenewAll(b, window, entries[..n], ledger);
      NoRepeatInBatch(b, window, entries[..n], ledger);
      RenewAllRenews(b, window, entries[..n], ledger);
      assert forall i :: 0 <= i < |mid.renewed| ==> mid.rent.touched[mid.renewed[i]] == ledger;
    }
  }

  /** At the full threshold, which `SetParams` still accepts, every listing of a live tracked
      entry is renewed again. */
  lemma RepeatAtFullWindow(rent: Rent, e: Entry, ledger: nat)
    requires e in rent.live && e in rent.touched
    ensures RenewAll(Batch(rent, []), SCORE_TTL_THRESHOLD, [e, e], ledger).renewed == [e, e]
  {
    var b := Batch(rent, []);
    var once := RenewOne(b, SCORE_TTL_THRESHOLD, e, ledger);
    assert [e, e][..1] == [e] && [e][..0] == [];
    assert RenewAll(b, SCORE_TTL_THRESHOLD, [], ledger) == b;
    assert RenewAll(b, SCORE_TTL_THRESHOLD, [e], ledger) == once;
    assert once.renewed == [] + [e] == [e];
  }

  // Splitting a batch.

  lemma {:induction false} RenewConcat(b: Batch, window: nat, xs: seq<Entry>, ys: seq<Entry>, ledger: nat)
    ensures RenewAll(b, window, xs + ys, ledger) == RenewAll(RenewAll(b, window, xs, ledger), window, ys, ledger)
    decreases |ys|
  {
    if ys == [] {
      assert xs + ys == xs;
    } else {
      var n := |ys| - 1;
      assert (xs + ys)[..|xs + ys| - 1] == xs + ys[..n];
      RenewConcat(b, window, xs, ys[..n], ledger);
    }
  }

  /** Carrying earlier renewals along does not change what is renewed. */
  lemma {:induction false} RenewFrom(rent: Rent, done: seq<Entry>, window: nat, entries: seq<Entry>, ledger: nat)
    ensures var anew := RenewAll(Batch(rent, []), window, entries, ledger);
            RenewAll(Batch(rent, done), window, entries, ledger) == Batch(anew.rent, done + anew.renewed)
    decreases |entries|
  {
    if entries == [] {
      assert done + [] == done;
    } else {
      var n := |entries| - 1;
      RenewFrom(rent, done, window, entries[..n], ledger);
      var anew := RenewAll(Batch(rent, []), window, entries[..n], ledger);
      assert (done + anew.renewed) + [entries[n]] == done + (anew.renewed + [entries[n]]);
    }
  }

  /** The ledger's books after paying `paid`. */
  function AfterPaying(k: Keeper, ledger: nat, paid: int): Keeper {
    if paid <= 0 then k
    else k.(pool := k.pool - paid, spent := k.spent[ledger := SatAdd(Spent(k, ledger), paid)])
  }

  lemma PayableSplits(k: Keeper, ledger: nat, x: int, y: int)
    requires KeeperOk(k, ledger) && x >= 0 && y >= 0
    ensures var px := Payable(k, x, ledger);
            px + Payable(AfterPaying(k, ledger, px), y, ledger) == Payable(k, x + y, ledger)
  {
  }

  lemma RewardSplits(k: Keeper, ledger: nat, m: nat, n: nat)
    requires KeeperOk(k, ledger) && m + n <= KEEPER_BATCH_MAX
    ensures var px := Reward(k, m, ledger);
            px + Reward(AfterPaying(k, ledger, px), n, ledger) == Reward(k, m + n, ledger)
  {
    RequestedIsProduct(k.perEntry, m);
    RequestedIsProduct(k.perEntry, n);
    RequestedIsProduct(k.perEntry, m + n);
    ProductBound(m, k.perEntry);
    ProductBound(n, k.perEntry);
    assert (m + n) * k.perEntry == m * k.perEntry + n * k.perEntry;
    PayableSplits(k, ledger, m * k.perEntry, n * k.perEntry);
  }

  lemma SplitRenewsTheSame(rent: Rent, window: nat, xs: seq<Entry>, ys: seq<Entry>, ledger: nat)
    requires RentOk(rent, ledger)
    ensures var bx := RenewAll(Batch(rent, []), window, xs, ledger);
            var bz := RenewAll(Batch(bx.rent, []), window, ys, ledger);
            && RenewAll(Batch(rent, []), window, xs + ys, ledger) == Batch(bz.rent, bx.renewed + bz.renewed)
            && |bx.renewed| <= |xs| && |bz.renewed| <= |ys|
  {
    var bx := RenewAll(Batch(rent, []), window, xs, ledger);
    RenewAllRenews(Batch(rent, []), window, xs, ledger);
    RenewAllRenews(Batch(bx.rent, []), window, ys, ledger);
    RenewConcat(Batch(rent, []), window, xs, ys, ledger);
    RenewFrom(bx.rent, bx.renewed, window, ys, ledger);
    assert bx == Batch(bx.rent, bx.renewed);
  }

  /** Two calls in one ledger renew and pay in total exactly what one call with both batches
      does. */
  lemma SplitPaysTheSame(k: Keeper, ledger: nat, xs: seq<Entry>, ys: seq<Entry>)
    requires KeeperOk(k, ledger) && |xs| + |ys| <= KEEPER_BATCH_MAX
    ensures var bx := RenewAll(Batch(k.rent, []), k.window, xs, ledger);
            var bz := RenewAll(Batch(bx.rent, []), k.window, ys, ledger);
            var both := RenewAll(Batch(k.rent, []), k.window, xs + ys, ledger);
            var px := Reward(k, |bx.renewed|, ledger);
            && both == Batch(bz.rent, bx.renewed + bz.renewed)
            && px + Reward(AfterPaying(k, ledger, px), |bz.renewed|, ledger) == Reward(k, |both.renewed|, ledger)
  {
    SplitRenewsTheSame(k.rent, k.window, xs, ys, ledger);
    var bx := RenewAll(Batch(k.rent, []), k.window, xs, ledger);
    var bz := RenewAll(Batch(bx.rent, []), k.window, ys, ledger);
    RewardSplits(k, ledger, |bx.renewed|, |bz.renewed|);
  }

  /** The keeper can be paid whatever the pool holds. */
  predicate CanReceive(k: Keeper, a: Accounts, who: Address) {
    k.token.Some? ==> Held(a, k.token.value, who) + k.pool <= I128_MAX
  }

  /** A call by a keeper that can be paid, spelled out. */
  lemma ExtendIsPaid(k: Keeper, a: Accounts, self: Address, ledger: nat, keeper: Address, entries: seq<Entry>)
    requires Ready(k, a, self, ledger) && |entries| <= KEEPER_BATCH_MAX && keeper != self && CanReceive(k, a, keeper)
    ensures var batch := RenewAll(Batch(k.rent, []), k.window, entries, ledger);
            var paid := Reward(k, |batch.renewed|, ledger);
            && |batch.renewed| <= KEEPER_BATCH_MAX && 0 <= paid <= k.pool && (paid > 0 ==> k.token.Some?)
            && ExtendTtls(k, a, self, ledger, keeper, entries)
               == Step(AfterPaying(k, ledger, paid).(rent := batch.rent), AfterPayment(k, a, self, keeper, paid), Ok(paid), batch.renewed)
  {
    var batch := RenewAll(Batch(k.rent, []), k.window, entries, ledger);
    RenewAllRenews(Batch(k.rent, []), k.window, entries, ledger);
    RewardBounds(k, ledger, |batch.renewed|);
    if k.token.Some? {
      assert Slack(k, a, self, k.token.value) >= 0;
    }
  }

  /** The accounts after `paid` went from the pool to the keeper. */
  function AfterPayment(k: Keeper, a: Accounts, self: Address, keeper: Address, paid: int): Accounts {
    if paid > 0 && k.token.Some? && Transfer(a, k.token.value, self, keeper, paid).Some?
    then Transfer(a, k.token.value, self, keeper, paid).value else a
  }

  lemma PaymentsAdd(k: Keeper, a: Accounts, self: Address, keeper: Address, p: int, q: int)
    requires p >= 0 && q >= 0 && keeper != self && (p + q > 0 ==> k.token.Some?)
    requires k.token.Some? ==> Held(a, k.token.value, self) >= p + q && Held(a, k.token.value, keeper) + p + q <= I128_MAX
    ensures AfterPayment(k, AfterPayment(k, a, self, keeper, p), self, keeper, q) == AfterPayment(k, a, self, keeper, p + q)
  {
  }

  lemma SpendingAdds(k: Keeper, ledger: nat, rent: Rent, p: int, q: int)
    requires KeeperOk(k, ledger) && p >= 0 && q >= 0
    ensures AfterPaying(AfterPaying(k, ledger, p).(rent := rent), ledger, q) == AfterPaying(k, ledger, p + q).(rent := rent)
  {
  }

  lemma RewardIgnoresRent(k: Keeper, rent: Rent, n: nat, ledger: nat)
    ensures Reward(k.(rent := rent), n, ledger) == Reward(k, n, ledger)
  {
  }

  /** After being paid the keeper can still be paid whatever is left. */
  lemma StillPayable(k: Keeper, a: Accounts, self: Address, ledger: nat, keeper: Address, paid: int)
    requires Ready(k, a, self, ledger) && keeper != self && CanReceive(k, a, keeper)
    requires 0 <= paid <= k.pool && (paid > 0 ==> k.token.Some?)
    ensures CanReceive(AfterPaying(k, ledger, paid), AfterPayment(k, a, self, keeper, paid), keeper)
  {
    if paid > 0 {
      assert Slack(k, a, self, k.token.value) >= 0;
      TransferMoves(a, k.token.value, self, keeper, paid);
    }
  }

  /** Splitting a batch over two calls in one ledger: the two replies and the two lists of
      renewed entries add up to those of the single call, and the contract and the token
      accounts end up in the same state. */
  lemma SplitCallsAddUp(k: Keeper, a: Accounts, self: Address, ledger: nat, keeper: Address, xs: seq<Entry>, ys: seq<Entry>)
    requires Ready(k, a, self, ledger) && |xs| + |ys| <= KEEPER_BATCH_MAX && keeper != self && CanReceive(k, a, keeper)
    ensures var one := ExtendTtls(k, a, self, ledger, keeper, xs);
            var two := ExtendTtls(one.keeper, one.accounts, self, ledger, keeper, ys);
            var both := ExtendTtls(k, a, self, ledger, keeper, xs + ys);
            && one.reply.Ok? && two.reply.Ok? && both.reply.Ok?
            && one.reply.value + two.reply.value == both.reply.value
            && one.renewed + two.renewed == both.renewed
            && two.keeper == both.keeper && two.accounts == both.accounts
  {
    var one := ExtendTtls(k, a, self, ledger, keeper, xs);
    ExtendIsPaid(k, a, self, ledger, keeper, xs);
    ExtendIsPaid(k, a, self, ledger, keeper, xs + ys);
    ExtendLeavesReady(k, a, self, ledger, keeper, xs);
    StillPayable(k, a, self, ledger, keeper, one.reply.value);
    ExtendIsPaid(one.keeper, one.accounts, self, ledger, keeper, ys);
    SplitPaysTheSame(k, ledger, xs, ys);
    var two := ExtendTtls(one.keeper, one.accounts, self, ledger, keeper, ys);
    var p, q := one.reply.value, two.reply.value;
    RewardIgnoresRent(AfterPaying(k, ledger, p), one.keeper.rent, |two.renewed|, ledger);
    SpendingAdds(k, ledger, one.keeper.rent, p, q);
    if k.token.Some? {
      assert Slack(k, a, self, k.token.value) >= 0;
    }
    PaymentsAdd(k, a, self, keeper, p, q);
  }

  lemma ExtendLeavesReady(k: Keeper, a: Accounts, self: Address, ledger: nat, keeper: Address, entries: seq<Entry>)
    requires Ready(k, a, self, ledger)
    ensures var step := ExtendTtls(k, a, self, ledger, keeper, entries);
            Ready(step.keeper, step.accounts, self, ledger)
  {
    ExtendKeeps(k, a, self, ledger, keeper, entries);
    var step := ExtendTtls(k, a, self, ledger, keeper, entries);
    forall t: Address ensures Slack(step.keeper, step.accounts, self, t) >= 0 {
      assert Slack(step.keeper, step.accounts, self, t) >= Slack(k, a, self, t);
    }
  }
}
