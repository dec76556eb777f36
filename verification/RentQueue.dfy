/** Proactive rent management: which score entries were last touched when, and the queue
    that lets the expiry scan stop early. */
module RentQueue {
  import opened Bytes
  import opened Options
  import opened Tokens

  datatype Entry = Entry(wallet: ByteString, pair: ByteString)

  const SCORE_TTL_THRESHOLD := 518_400
  const MAX_TRACKED_SCORE_ENTRIES := 500
  const MAX_EXPIRING_ENTRIES_PER_CALL := 100

  /** `live` holds the entries with a stored score. */
  datatype Rent = Rent(index: seq<Entry>, touched: map<Entry, nat>, live: set<Entry>)

  const NO_ENTRIES := Rent([], map[], {})

  /** `Vec::remove`. */
  function RemoveAt(index: seq<Entry>, k: nat): (r: seq<Entry>)
    requires k < |index|
    ensures |r| == |index| - 1
    ensures forall i :: 0 <= i < |r| ==> r[i] == index[if i < k then i else i + 1]
  {
    index[..k] + index[k + 1..]
  }

  /** `first_index_of`. */
  function Find(index: seq<Entry>, e: Entry): (k: nat)
    requires e in index
    ensures k < |index| && index[k] == e
  {
    if index[0] == e then 0 else 1 + Find(index[1..], e)
  }

  /** `index` without the first occurrence of `e`. */
  function Without(index: seq<Entry>, e: Entry): seq<Entry> {
    if e in index then RemoveAt(index, Find(index, e)) else index
  }

  function MoveToBack(index: seq<Entry>, e: Entry): seq<Entry> {
    if e in index then Without(index, e) + [e]
    else if |index| >= MAX_TRACKED_SCORE_ENTRIES then index
    else index + [e]
  }

  /** `track_score_entry`. */
  function Track(r: Rent, e: Entry, ledger: nat): Rent {
    r.(index := MoveToBack(r.index, e), touched := r.touched[e := ledger])
  }

  /** `set_score`, as far as rent is concerned. */
  function Write(r: Rent, e: Entry, ledger: nat): Rent {
    Track(r, e, ledger).(live := r.live + {e})
  }

  /** `clear_score`: the touch marker stays. */
  function Clear(r: Rent, e: Entry): Rent {
    r.(live := r.live - {e}, index := Without(r.index, e))
  }

  /** `estimate_entry_ttl`. */
  function RemainingTtl(r: Rent, e: Entry, ledger: nat): Option<int> {
    if e in r.touched then Some(SatSub(SCORE_TTL_THRESHOLD, SatSub(ledger, r.touched[e]))) else None
  }

  // The queue invariant.

  ghost predicate Distinct(index: seq<Entry>) {
    forall i, j :: 0 <= i < j < |index| ==> index[i] != index[j]
  }

  /** Tracked entries are live and touched, no later than now, least recently touched first. */
  ghost predicate Queued(index: seq<Entry>, touched: map<Entry, nat>, live: set<Entry>, ledger: nat) {
    && (forall i :: 0 <= i < |index| ==> index[i] in live && index[i] in touched && touched[index[i]] <= ledger)
    && (forall i, j :: 0 <= i < j < |index| ==> index[i] != index[j] && touched[index[i]] <= touched[index[j]])
  }

  ghost predicate RentOk(r: Rent, ledger: nat) {
    && Queued(r.index, r.touched, r.live, ledger)
    && |r.index| <= MAX_TRACKED_SCORE_ENTRIES
    && forall e :: e in r.touched ==> r.touched[e] <= ledger
  }

  lemma RemoveAtKeeps(index: seq<Entry>, touched: map<Entry, nat>, live: set<Entry>, ledger: nat, k: nat)
    requires Queued(index, touched, live, ledger) && k < |index|
    ensures Queued(RemoveAt(index, k), touched, live, ledger)
  {
  }

  lemma RemoveAtMembers(index: seq<Entry>, k: nat, x: Entry)
    requires Distinct(index) && k < |index|
    ensures x in RemoveAt(index, k) <==> x in index && x != index[k]
  {
    if x in index && x != index[k] {
      var i :| 0 <= i < |index| && index[i] == x;
      assert RemoveAt(index, k)[if i < k then i else i - 1] == x;
    }
  }

  /** Removing an entry keeps the queue and really removes it. */
  lemma WithoutKeeps(index: seq<Entry>, touched: map<Entry, nat>, live: set<Entry>, ledger: nat, e: Entry)
    requires Queued(index, touched, live, ledger)
    ensures Queued(Without(index, e), touched, live, ledger)
    ensures e !in Without(index, e)
    ensures e in index ==> |Without(index, e)| == |index| - 1
  {
    if e in index {
      RemoveAtKeeps(index, touched, live, ledger, Find(index, e));
      RemoveAtMembers(index, Find(index, e), e);
    }
  }

  lemma AppendKeeps(index: seq<Entry>, touched: map<Entry, nat>, live: set<Entry>, ledger: nat, e: Entry)
    requires Queued(index, touched, live, ledger) && e !in index && e in live
    requires forall x :: x in touched ==> touched[x] <= ledger
    ensures Queued(index + [e], touched[e := ledger], live, ledger)
  {
  }

  lemma TouchKeeps(index: seq<Entry>, touched: map<Entry, nat>, live: set<Entry>, ledger: nat, e: Entry)
    requires Queued(index, touched, live, ledger) && e !in index
    ensures Queued(index, touched[e := ledger], live, ledger)
  {
  }

  lemma TrackKeeps(r: Rent, e: Entry, ledger: nat)
    requires RentOk(r, ledger) && e in r.live
    ensures RentOk(Track(r, e, ledger), ledger)
  {
    if e in r.index {
      WithoutKeeps(r.index, r.touched, r.live, ledger, e);
      AppendKeeps(Without(r.index, e), r.touched, r.live, ledger, e);
    } else if |r.index| < MAX_TRACKED_SCORE_ENTRIES {
      AppendKeeps(r.index, r.touched, r.live, ledger, e);
    } else {
      TouchKeeps(r.index, r.touched, r.live, ledger, e);
    }
  }

  lemma LiveGrows(index: seq<Entry>, touched: map<Entry, nat>, live: set<Entry>, ledger: nat, e: Entry)
    requires Queued(index, touched, live, ledger)
    ensures Queued(index, touched, live + {e}, ledger)
  {
  }

  lemma WriteKeeps(r: Rent, e: Entry, ledger: nat)
    requires RentOk(r, ledger)
    ensures RentOk(Write(r, e, ledger), ledger)
  {
    LiveGrows(r.index, r.touched, r.live, ledger, e);
    TrackKeeps(r.(live := r.live + {e}), e, ledger);
  }

  lemma ClearKeeps(r: Rent, e: Entry, ledger: nat)
    requires RentOk(r, ledger)
    ensures RentOk(Clear(r, e), ledger)
  {
    WithoutKeeps(r.index, r.touched, r.live, ledger, e);
    var rest := Without(r.index, e);
    assert forall i :: 0 <= i < |rest| ==> rest[i] in rest;
  }

  // What the operations leave behind.

  /** `index` without `e`; the others keep their order. */
  ghost function Others(index: seq<Entry>, e: Entry): seq<Entry> {
    if index == [] then []
    else if index[0] == e then Others(index[1..], e)
    else [index[0]] + Others(index[1..], e)
  }

  lemma {:induction false} OthersAbsent(index: seq<Entry>, e: Entry)
    requires e !in index
    ensures Others(index, e) == index
  {
    if index != [] {
      OthersAbsent(index[1..], e);
    }
  }

  lemma {:induction false} OthersMembers(index: seq<Entry>, e: Entry, x: Entry)
    ensures x in Others(index, e) <==> x in index && x != e
  {
    if index != [] {
      OthersMembers(index[1..], e, x);
      assert index == [index[0]] + index[1..];
    }
  }

  lemma {:induction false} WithoutIsOthers(index: seq<Entry>, e: Entry)
    requires Distinct(index)
    ensures Without(index, e) == Others(index, e)
  {
    if e !in index {
      OthersAbsent(index, e);
    } else {
      var rest := index[1..];
      assert Distinct(rest);
      if index[0] == e {
        OthersAbsent(rest, e);
        assert RemoveAt(index, 0) == rest;
      } else {
        WithoutIsOthers(rest, e);
        assert RemoveAt(index, 1 + Find(rest, e)) == [index[0]] + RemoveAt(rest, Find(rest, e));
      }
    }
  }

  /** `e` is touched now and goes to the back of the queue, unless the queue is full and does
      not hold it. Every other entry keeps its touch and its order. */
  ghost predicate TouchedAtBack(r: Rent, after: Rent, e: Entry, ledger: nat) {
    && after.touched == r.touched[e := ledger]
    && after.index == Others(r.index, e) + if e in r.index || |r.index| < MAX_TRACKED_SCORE_ENTRIES then [e] else []
  }

  lemma TrackRecords(r: Rent, e: Entry, ledger: nat)
    requires RentOk(r, ledger)
    ensures TouchedAtBack(r, Track(r, e, ledger), e, ledger) && Track(r, e, ledger).live == r.live
  {
    WithoutIsOthers(r.index, e);
  }

  /** A stored score is live, touched now and at the back of the queue. */
  lemma WriteRecords(r: Rent, e: Entry, ledger: nat)
    requires RentOk(r, ledger)
    ensures TouchedAtBack(r, Write(r, e, ledger), e, ledger) && Write(r, e, ledger).live == r.live + {e}
  {
    TrackRecords(r, e, ledger);
  }

  /** A cleared score is neither live nor tracked; its touch marker and all other entries
      stay. */
  lemma ClearRecords(r: Rent, e: Entry, ledger: nat)
    requires RentOk(r, ledger)
    ensures Clear(r, e) == Rent(Others(r.index, e), r.touched, r.live - {e})
  {
    WithoutIsOthers(r.index, e);
  }

  lemma TickKeeps(r: Rent, ledger: nat, later: nat)
    requires RentOk(r, ledger) && ledger <= later
    ensures RentOk(r, later)
  {
  }

  // The scan.

  predicate IsDue(r: Rent, ledger: nat, e: Entry) {
    e in r.touched && SatSub(ledger, r.touched[e]) >= SCORE_TTL_THRESHOLD
  }

  /** The due entries of `index`, in index order. */
  function Due(r: Rent, index: seq<Entry>, ledger: nat): (due: seq<Entry>)
    ensures |due| <= |index|
  {
    if index == [] then []
    else
      var k := |index| - 1;
      var front := Due(r, index[..k], ledger);
      if IsDue(r, ledger, index[k]) then front + [index[k]] else front
  }

  /** An entry is among the due ones exactly when it is tracked and its last touch is at least
      the threshold ago. */
  lemma {:induction false} DueExactly(r: Rent, index: seq<Entry>, ledger: nat, e: Entry)
    ensures e in Due(r, index, ledger)
            <==> e in index && e in r.touched && ledger - r.touched[e] >= SCORE_TTL_THRESHOLD
  {
    if index != [] {
      var k := |index| - 1;
      DueExactly(r, index[..k], ledger, e);
      assert index == index[..k] + [index[k]];
    }
  }

  lemma QueuedPrefix(r: Rent, index: seq<Entry>, ledger: nat, n: nat)
    requires Queued(index, r.touched, r.live, ledger) && n <= |index|
    ensures Queued(index[..n], r.touched, r.live, ledger)
  {
  }

  /** What is behind an entry that is not due is not due either. */
  lemma BehindIsNotDue(r: Rent, index: seq<Entry>, ledger: nat, k: nat, n: nat)
    requires Queued(index, r.touched, r.live, ledger) && k <= n < |index| && !IsDue(r, ledger, index[k])
    ensures !IsDue(r, ledger, index[n])
  {
    assert k < n ==> r.touched[index[k]] <= r.touched[index[n]];
  }

  /** On a queue the due entries are a prefix. */
  lemma {:induction false} DueIsPrefix(r: Rent, index: seq<Entry>, ledger: nat, k: nat)
    requires Queued(index, r.touched, r.live, ledger) && k <= |index|
    requires forall i :: 0 <= i < k ==> IsDue(r, ledger, index[i])
    requires k < |index| ==> !IsDue(r, ledger, index[k])
    ensures Due(r, index, ledger) == index[..k]
    decreases |index|
  {
    var n := |index| - 1;
    if n >= 0 {
      var front := index[..n];
      QueuedPrefix(r, index, ledger, n);
      if k < |index| {
        BehindIsNotDue(r, index, ledger, k, n);
        DueIsPrefix(r, front, ledger, k);
        assert front[..k] == index[..k];
      } else {
        DueIsPrefix(r, front, ledger, n);
        assert front[..n] == front && index[..k] == front + [index[n]];
      }
    }
  }

  lemma {:induction false} DueOfPrefix(r: Rent, index: seq<Entry>, ledger: nat, k: nat)
    requires k <= |index|
    ensures Due(r, index[..k], ledger) <= Due(r, index, ledger)
    decreases |index|
  {
    var n := |index| - 1;
    if k <= n {
      assert index[..n][..k] == index[..k];
      DueOfPrefix(r, index[..n], ledger, k);
    } else {
      assert index[..k] == index;
    }
  }

  /** The early-exit scan returns the first due entries of the whole index. */
  method GetExpiringEntries(r: Rent, ledger: nat, maxEntries: nat) returns (result: seq<Entry>)
    requires RentOk(r, ledger)
    ensures var due := Due(r, r.index, ledger);
            result == due[..Min(|due|, Min(maxEntries, MAX_EXPIRING_ENTRIES_PER_CALL))]
  {
    var capped := Min(maxEntries, MAX_EXPIRING_ENTRIES_PER_CALL);
    result := [];
    var i := 0;
    while i < |r.index|
      invariant 0 <= i <= |r.index| && i <= capped
      invariant result == r.index[..i]
      invariant forall j :: 0 <= j < i ==> IsDue(r, ledger, r.index[j])
    {
      if |result| >= capped {
        break;
      }
      var e := r.index[i];
      if e in r.touched && SatSub(ledger, r.touched[e]) >= SCORE_TTL_THRESHOLD {
        result := result + [e];
      } else {
        break;
      }
      i := i + 1;
    }
    ScanIsDue(r, ledger, i, capped);
  }

  lemma ScanIsDue(r: Rent, ledger: nat, i: nat, capped: nat)
    requires RentOk(r, ledger) && i <= |r.index| && i <= capped
    requires forall j :: 0 <= j < i ==> IsDue(r, ledger, r.index[j])
    requires i == |r.index| || i == capped || !IsDue(r, ledger, r.index[i])
    ensures var due := Due(r, r.index, ledger);
            due[..Min(|due|, capped)] == r.index[..i]
  {
    if i == |r.index| || !IsDue(r, ledger, r.index[i]) {
      DueIsPrefix(r, r.index, ledger, i);
    } else {
      AllDue(r, r.index[..i], ledger);
      DueOfPrefix(r, r.index, ledger, i);
    }
  }

  lemma {:induction false} AllDue(r: Rent, index: seq<Entry>, ledger: nat)
    requires forall j :: 0 <= j < |index| ==> IsDue(r, ledger, index[j])
    ensures Due(r, index, ledger) == index
  {
    if index != [] {
      AllDue(r, index[..|index| - 1], ledger);
    }
  }

  ghost function ElapsedOf(r: Rent, ledger: nat, e: Entry): int {
    if e in r.touched then SatSub(ledger, r.touched[e]) else -1
  }

  /** `due` with its longest-elapsed entry first, as the full scan keeps selecting it. */
  ghost predicate Descending(r: Rent, ledger: nat, due: seq<Entry>) {
    forall i, j :: 0 <= i < j < |due| ==> ElapsedOf(r, ledger, due[i]) >= ElapsedOf(r, ledger, due[j])
  }

  lemma {:induction false} DueDescends(r: Rent, index: seq<Entry>, ledger: nat)
    requires Queued(index, r.touched, r.live, ledger)
    ensures Descending(r, ledger, Due(r, index, ledger))
    ensures forall i :: 0 <= i < |Due(r, index, ledger)| ==> Due(r, index, ledger)[i] in index
  {
    var n := |index| - 1;
    if n >= 0 {
      var front := index[..n];
      assert Queued(front, r.touched, r.live, ledger);
      DueDescends(r, front, ledger);
      var due := Due(r, front, ledger);
      forall i | 0 <= i < |due|
        ensures due[i] in index && ElapsedOf(r, ledger, due[i]) >= ElapsedOf(r, ledger, index[n])
      {
        var j :| 0 <= j < n && front[j] == due[i];
        assert index[j] == due[i];
      }
    }
  }

  /** The position of the first longest-elapsed entry. */
  method SelectLongest(r: Rent, ledger: nat, due: seq<Entry>) returns (best: nat)
    requires due != [] && forall i :: 0 <= i < |due| ==> due[i] in r.touched
    ensures best < |due|
    ensures forall i :: 0 <= i < |due| ==> ElapsedOf(r, ledger, due[i]) <= ElapsedOf(r, ledger, due[best])
    ensures forall i :: 0 <= i < best ==> ElapsedOf(r, ledger, due[i]) < ElapsedOf(r, ledger, due[best])
  {
    best := 0;
    for i := 1 to |due|
      invariant best < i
      invariant forall j :: 0 <= j < i ==> ElapsedOf(r, ledger, due[j]) <= ElapsedOf(r, ledger, due[best])
      invariant forall j :: 0 <= j < best ==> ElapsedOf(r, ledger, due[j]) < ElapsedOf(r, ledger, due[best])
    {
      if SatSub(ledger, r.touched[due[i]]) > SatSub(ledger, r.touched[due[best]]) {
        best := i;
      }
    }
  }

  /** The unconditional full scan with selection sort. On every reachable index it agrees
      with the early-exit scan. */
  method FullScanBaseline(r: Rent, ledger: nat, maxEntries: nat) returns (result: seq<Entry>)
    requires RentOk(r, ledger)
    ensures var due := Due(r, r.index, ledger);
            result == due[..Min(|due|, Min(maxEntries, MAX_EXPIRING_ENTRIES_PER_CALL))]
  {
    var capped := Min(maxEntries, MAX_EXPIRING_ENTRIES_PER_CALL);
    var due := [];
    for i := 0 to |r.index|
      invariant due == Due(r, r.index[..i], ledger)
    {
      var e := r.index[i];
      assert r.index[..i + 1][..i] == r.index[..i];
      if e in r.touched && SatSub(ledger, r.touched[e]) >= SCORE_TTL_THRESHOLD {
        due := due + [e];
      }
    }
    assert r.index[..|r.index|] == r.index;
    DueDescends(r, r.index, ledger);
    assert forall i :: 0 <= i < |due| ==> due[i] in r.index;
    result := SelectInOrder(r, ledger, due, Min(capped, |due|));
  }

  lemma FirstIsLongest(r: Rent, ledger: nat, due: seq<Entry>, best: nat)
    requires Descending(r, ledger, due) && best < |due|
    requires forall i :: 0 <= i < best ==> ElapsedOf(r, ledger, due[i]) < ElapsedOf(r, ledger, due[best])
    ensures best == 0
  {
    var first := due[0];
    assert ElapsedOf(r, ledger, first) >= ElapsedOf(r, ledger, due[best]);
  }

  lemma TakeFirst(r: Rent, ledger: nat, all: seq<Entry>, k: nat)
    requires Descending(r, ledger, all) && k < |all|
    ensures all[k..][..0] + all[k..][1..] == all[k + 1..] && all[..k + 1] == all[..k] + [all[k..][0]]
    ensures Descending(r, ledger, all[k + 1..])
  {
  }

  /** Repeatedly taking the first longest-elapsed entry of a descending list takes its front. */
  method SelectInOrder(r: Rent, ledger: nat, all: seq<Entry>, take: nat) returns (result: seq<Entry>)
    requires take <= |all| && Descending(r, ledger, all)
    requires forall i :: 0 <= i < |all| ==> all[i] in r.touched
    ensures result == all[..take]
  {
    var due := all;
    result := [];
    for k := 0 to take
      invariant due == all[k..] && result == all[..k]
      invariant Descending(r, ledger, due)
    {
      var best := SelectLongest(r, ledger, due);
      FirstIsLongest(r, ledger, due, best);
      TakeFirst(r, ledger, all, k);
      result := result + [due[best]];
      due := due[..best] + due[best + 1..];
    }
  }
}
