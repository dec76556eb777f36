/** Score entries over every run of the contract: from the score that is stored to the keeper
    that renews it. */
module RentRuns {
  import opened Tokens
  import opened Errors
  import opened RentQueue
  import opened AttestedRelay
  import opened ContractSpec
  import opened ContractRuns
  import opened RelayRuns
  import KeeperPool

  /** The step stores a score of `e`. */
  predicate Stores(t: Taken, e: Entry) {
    (t.call.RelayScore? || t.call.SubmitDirect?) && t.out.reply == ACCEPTED && Entry(t.call.sub.wallet, t.call.sub.pair) == e
  }

  predicate Clears(t: Taken, e: Entry) {
    t.call == ClearScore(e) && t.out.reply.Ok?
  }

  predicate Touches(t: Taken, e: Entry) {
    Stores(t, e) || Clears(t, e) || e in t.out.renewed
  }

  predicate SameTouch(r: Rent, r': Rent, e: Entry) {
    && (e in r'.touched <==> e in r.touched)
    && (e in r.touched ==> r'.touched[e] == r.touched[e])
  }

  predicate SameRecord(r: Rent, r': Rent, e: Entry) {
    SameTouch(r, r', e) && (e in r'.live <==> e in r.live) && (e in r'.index <==> e in r.index)
  }

  predicate HasRoom(r: Rent, e: Entry) {
    e in r.index || |r.index| < MAX_TRACKED_SCORE_ENTRIES
  }

  /** What a step means for one entry: a stored score is live, touched now and tracked if there
      is room; a cleared one is neither live nor tracked; a renewed one is touched now and stays
      tracked; any other step leaves the entry alone. */
  ghost predicate Followed(t: Taken, e: Entry) {
    var r, r' := t.before.keeper.rent, t.out.state.keeper.rent;
    if Stores(t, e) then e in r'.live && e in r'.touched && r'.touched[e] == t.before.ledger && (e in r'.index <==> HasRoom(r, e))
    else if Clears(t, e) then SameTouch(r, r', e) && e !in r'.live && e !in r'.index
    else if e in t.out.renewed
    then && e in r.live && e in r'.live && e in r'.touched && r'.touched[e] == t.before.ledger
         && (e in r.index ==> e in r'.index)
    else SameRecord(r, r', e)
  }

  // One step.

  lemma BackIsFollowed(r: Rent, r': Rent, x: Entry, ledger: nat, e: Entry)
    requires TouchedAtBack(r, r', x, ledger) && r'.live == r.live + {x}
    ensures if e == x then e in r'.live && e in r'.touched && r'.touched[e] == ledger && (e in r'.index <==> HasRoom(r, e))
            else SameRecord(r, r', e)
  {
    OthersMembers(r.index, x, e);
  }

  lemma SubmissionIsFollowed(host: Host, s: State, admin: Address, call: Call, e: Entry)
    requires Good(s) && (call.RelayScore? || call.SubmitDirect?)
    ensures Followed(Taken(s, call, RelayStep(host, s, admin, call)), e)
  {
    var out, x := RelayStep(host, s, admin, call), Entry(call.sub.wallet, call.sub.pair);
    if out.reply == ACCEPTED {
      if call.RelayScore? {
        RelayStores(host, s.relay, s.keeper.rent, s.accounts, s.self, s.time, s.ledger, call.relayer, call.sub, call.att);
      } else {
        SubmitAcceptedExactly(host, s.relay, s.keeper.rent, s.accounts, s.time, s.ledger, call.sub, call.nonce);
      }
      BackIsFollowed(s.keeper.rent, out.state.keeper.rent, x, s.ledger, e);
    }
  }

  lemma SwitchIsFollowed(s: State, call: Call, e: Entry)
    requires Good(s) && IsSwitch(call)
    ensures Followed(Taken(s, call, SwitchStep(s, call)), e)
  {
    if call.ClearScore? {
      ClearRecords(s.keeper.rent, call.entry, s.ledger);
      OthersMembers(s.keeper.rent.index, call.entry, e);
    }
  }

  lemma RenewalIsFollowed(s: State, admin: Address, keeper: Address, entries: seq<Entry>, e: Entry)
    requires Good(s)
    ensures Followed(Taken(s, ExtendTtls(keeper, entries), KeeperStep(s, admin, ExtendTtls(keeper, entries))), e)
  {
    LedgersReady(s);
    if KeeperPool.ExtendTtls(s.keeper, s.accounts, s.self, s.ledger, keeper, entries).reply.Ok? {
      KeeperPool.ExtendRenewsExactly(s.keeper, s.accounts, s.self, s.ledger, keeper, entries, e);
    }
  }

  lemma UntouchedIsFollowed(t: Taken, e: Entry)
    requires t.out.state.keeper.rent == t.before.keeper.rent && !Touches(t, e)
    ensures Followed(t, e)
  {
  }

  lemma OthersKeepRent(host: Host, s: State, call: Call)
    requires !call.RelayScore? && !call.SubmitDirect? && !IsSwitch(call) && !call.ExtendTtls?
    ensures ContractSpec.Step(host, s, call).state.keeper.rent == s.keeper.rent && ContractSpec.Step(host, s, call).renewed == []
  {
  }

  lemma StepIsFollowed(host: Host, t: Taken, e: Entry)
    requires Good(t.before) && IsStep(host, t)
    ensures Followed(t, e)
  {
    var s, call := t.before, t.call;
    if NeedsAdmin(call) && s.admin.None? {
      assert t.out == Refused(s, NotInitialized);
    } else if call.RelayScore? || call.SubmitDirect? {
      assert t.out == RelayStep(host, s, AdminOf(s), call);
      SubmissionIsFollowed(host, s, AdminOf(s), call, e);
    } else if IsSwitch(call) {
      assert t.out == SwitchStep(s, call);
      SwitchIsFollowed(s, call, e);
    } else if call.ExtendTtls? {
      assert t.out == KeeperStep(s, AdminOf(s), call);
      RenewalIsFollowed(s, AdminOf(s), call.keeper, call.entries, e);
    } else {
      OthersKeepRent(host, s, call);
      UntouchedIsFollowed(t, e);
    }
  }

  // The stored scores.

  predicate SameScore(s: State, after: State, e: Entry) {
    && (e in after.relay.scores <==> e in s.relay.scores)
    && (e in s.relay.scores ==> after.relay.scores[e] == s.relay.scores[e])
  }

  /** What a step means for the score of one entry. */
  ghost predicate ScoreFollowed(t: Taken, e: Entry) {
    if Stores(t, e) then e in t.out.state.relay.scores && t.out.state.relay.scores[e] == t.call.sub
    else if Clears(t, e) then e !in t.out.state.relay.scores
    else SameScore(t.before, t.out.state, e)
  }

  lemma SubmissionScores(host: Host, s: State, admin: Address, call: Call, e: Entry)
    requires Good(s) && (call.RelayScore? || call.SubmitDirect?)
    ensures ScoreFollowed(Taken(s, call, RelayStep(host, s, admin, call)), e)
  {
    if call.SubmitDirect? {
      SubmitAcceptedExactly(host, s.relay, s.keeper.rent, s.accounts, s.time, s.ledger, call.sub, call.nonce);
    } else if RelayStep(host, s, admin, call).reply == ACCEPTED {
      AcceptanceMeans(host, s.relay, s.keeper.rent, s.accounts, s.self, s.time, s.ledger, call.relayer, call.sub, call.att);
    } else {
      NotAcceptedIsUnchanged(host, s, admin, call.relayer, call.sub, call.att);
    }
  }

  lemma OthersKeepScores(host: Host, s: State, call: Call)
    requires !call.RelayScore? && !call.SubmitDirect? && !IsSwitch(call)
    ensures ContractSpec.Step(host, s, call).state.relay.scores == s.relay.scores
  {
    if !IsRelayCall(call) {
      RelayUntouched(host, s, call);
    } else if s.admin.Some? {
      StepOfFamily(host, s, call);
      TipCallsKeepScores(host, s, AdminOf(s), call);
    }
  }

  lemma TipCallsKeepScores(host: Host, s: State, admin: Address, call: Call)
    requires IsRelayCall(call) && !call.RelayScore? && !call.SubmitDirect?
    ensures RelayStep(host, s, admin, call).state.relay.scores == s.relay.scores
  {
  }

  lemma StepScores(host: Host, t: Taken, e: Entry)
    requires Good(t.before) && IsStep(host, t)
    ensures ScoreFollowed(t, e)
  {
    var s, call := t.before, t.call;
    if NeedsAdmin(call) && s.admin.None? {
      assert t.out == Refused(s, NotInitialized);
    } else if call.RelayScore? || call.SubmitDirect? {
      assert t.out == RelayStep(host, s, AdminOf(s), call);
      SubmissionScores(host, s, AdminOf(s), call, e);
    } else if IsSwitch(call) {
      assert t.out == SwitchStep(s, call);
    } else {
      OthersKeepScores(host, s, call);
    }
  }

  /** The last score stands: over any run that neither stores nor clears a score of the entry
      again, the contract holds the one that was submitted. */
  lemma {:induction false} LastScoreStands(host: Host, first: Taken, trace: seq<Taken>, end: State, e: Entry)
    requires Good(first.before) && IsStep(host, first) && Stores(first, e)
    requires IsRun(host, trace, first.out.state, end)
    requires forall i :: 0 <= i < |trace| ==> !Stores(trace[i], e) && !Clears(trace[i], e)
    ensures Good(end) && e in end.relay.scores && end.relay.scores[e] == first.call.sub
    decreases |trace|
  {
    if trace == [] {
      StepIsGood(host, first);
      StepScores(host, first, e);
    } else {
      var k := |trace| - 1;
      LastScoreStands(host, first, trace[..k], trace[k].before, e);
      StepScores(host, trace[k], e);
      StepIsGood(host, trace[k]);
      assert !Stores(trace[k], e);
    }
  }

  // The whole run.

  /** Over a run that neither stores, clears nor renews the entry, its record stays. */
  lemma {:induction false} RunKeepsRecord(host: Host, trace: seq<Taken>, s: State, end: State, e: Entry)
    requires Good(s) && IsRun(host, trace, s, end) && forall i :: 0 <= i < |trace| ==> !Touches(trace[i], e)
    ensures Good(end) && SameRecord(s.keeper.rent, end.keeper.rent, e)
  {
    if trace != [] {
      var k := |trace| - 1;
      RunKeepsRecord(host, trace[..k], s, trace[k].before, e);
      StepIsFollowed(host, trace[k], e);
      StepIsGood(host, trace[k]);
      assert !Touches(trace[k], e);
    }
  }

  /** A stored score that found room in the queue, over any run that neither stores, clears nor
      renews it again: the expiry scan lists it exactly from the threshold on. */
  lemma StoredEntryComesDue(host: Host, first: Taken, trace: seq<Taken>, end: State, e: Entry)
    requires Good(first.before) && IsStep(host, first) && Stores(first, e) && HasRoom(first.before.keeper.rent, e)
    requires IsRun(host, trace, first.out.state, end) && forall i :: 0 <= i < |trace| ==> !Touches(trace[i], e)
    ensures Good(end) && e in end.keeper.rent.index && e in end.keeper.rent.live
    ensures e in Due(end.keeper.rent, end.keeper.rent.index, end.ledger)
            <==> end.ledger - first.before.ledger >= SCORE_TTL_THRESHOLD
  {
    StepIsFollowed(host, first, e);
    StepIsGood(host, first);
    RunKeepsRecord(host, trace, first.out.state, end, e);
    DueExactly(end.keeper.rent, end.keeper.rent.index, end.ledger, e);
  }

  /** And it can be saved: from then on a call that lists it, by any keeper that can be paid,
      goes through, renews it, and it is not due afterwards. */
  lemma DueEntryIsRenewed(host: Host, s: State, keeper: Address, entries: seq<Entry>, e: Entry)
    requires Good(s) && s.admin.Some? && keeper != s.self && KeeperPool.CanReceive(s.keeper, s.accounts, keeper)
    requires |entries| <= KeeperPool.KEEPER_BATCH_MAX && e in entries
    requires e in Due(s.keeper.rent, s.keeper.rent.index, s.ledger)
    ensures var out := ContractSpec.Step(host, s, ExtendTtls(keeper, entries));
            var rent := out.state.keeper.rent;
            && out.reply.Ok? && e in out.renewed
            && e in rent.index && e !in Due(rent, rent.index, s.ledger)
  {
    LedgersReady(s);
    DueExactly(s.keeper.rent, s.keeper.rent.index, s.ledger, e);
    KeeperPool.ExtendIsPaid(s.keeper, s.accounts, s.self, s.ledger, keeper, entries);
    KeeperPool.ExtendRenewsExactly(s.keeper, s.accounts, s.self, s.ledger, keeper, entries, e);
    var out := ContractSpec.Step(host, s, ExtendTtls(keeper, entries));
    assert out == KeeperStep(s, AdminOf(s), ExtendTtls(keeper, entries));
    DueExactly(out.state.keeper.rent, out.state.keeper.rent.index, s.ledger, e);
  }

  /** What a keeper call renews, in terms of the contract: exactly the listed entries with a
      live score whose last touch is at least the threshold minus the reward window ago. */
  lemma RenewedExactly(host: Host, s: State, keeper: Address, entries: seq<Entry>, e: Entry)
    requires Good(s) && ContractSpec.Step(host, s, ExtendTtls(keeper, entries)).reply.Ok?
    ensures e in ContractSpec.Step(host, s, ExtendTtls(keeper, entries)).renewed
            <==> e in entries && e in s.keeper.rent.live && e in s.keeper.rent.touched
                 && s.ledger - s.keeper.rent.touched[e] >= SCORE_TTL_THRESHOLD - s.keeper.window
  {
    LedgersReady(s);
    assert ContractSpec.Step(host, s, ExtendTtls(keeper, entries)) == KeeperStep(s, AdminOf(s), ExtendTtls(keeper, entries));
    KeeperPool.ExtendRenewsExactly(s.keeper, s.accounts, s.self, s.ledger, keeper, entries, e);
  }
}
