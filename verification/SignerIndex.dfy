/** Signer lifecycle records and the index of active signers kept beside them. */
module SignerIndex {
  import opened Tokens

  datatype SignerState = Pending | Active | Superseded | Revoked

  datatype Record = Record(state: SignerState, changedAt: nat, changedBy: Address)

  datatype Checked = AllActive | SignerNotActive

  datatype Transition = Now(state: SignerState) | SignerNotFound

  predicate IsActive(records: map<Address, Record>, signer: Address) {
    signer in records && records[signer].state == Active
  }

  /** The index lists the signers recorded active, each once. */
  ghost predicate Agrees(index: seq<Address>, records: map<Address, Record>) {
    && (forall i, j :: 0 <= i < j < |index| ==> index[i] != index[j])
    && (forall s :: s in index <==> IsActive(records, s))
  }

  lemma RemovalAgrees(index: seq<Address>, k: nat, records: map<Address, Record>, signer: Address, record: Record)
    requires Agrees(index, records) && k < |index| && index[k] == signer && record.state != Active
    ensures Agrees(index[..k] + index[k + 1..], records[signer := record])
  {
    var rest, after := index[..k] + index[k + 1..], records[signer := record];
    forall s ensures s in rest <==> IsActive(after, s) {
      if s in index && s != signer {
        var i :| 0 <= i < |index| && index[i] == s;
        assert rest[if i < k then i else i - 1] == s;
      }
    }
  }

  class Signers {
    var time: nat
    var admin: Address
    var grace: nat
    var records: map<Address, Record>
    var index: seq<Address>

    /** Besides the agreement, no record is dated in the future. */
    ghost predicate Valid()
      reads this
    {
      Agrees(index, records) && forall s :: s in records ==> records[s].changedAt <= time
    }

    constructor (time: nat, admin: Address, grace: nat)
      ensures Valid() && records == map[] && this.grace == grace
    {
      this.time, this.admin, this.grace, records, index := time, admin, grace, map[], [];
    }

    method SetGracePeriod(secs: nat)
      requires Valid()
      modifies this`grace
      ensures Valid() && grace == secs
    {
      grace := secs;
    }

    method Advance(secs: nat)
      requires Valid()
      modifies this`time
      ensures Valid() && time == old(time) + secs
    {
      time := time + secs;
    }

    /** `first_index_of`. */
    method FirstIndexOf(signer: Address) returns (k: nat)
      requires signer in index
      ensures k < |index| && index[k] == signer
    {
      k := 0;
      while index[k] != signer
        invariant k < |index| && signer in index[k..]
        decreases |index| - k
      {
        k := k + 1;
      }
    }

    /** Called after the record has been written: brings the index back in step with it. */
    method UpdateActiveIndex(signer: Address, state: SignerState, ghost before: map<Address, Record>)
      requires signer in records && records[signer].state == state
      requires records == before[signer := records[signer]] && Agrees(index, before)
      modifies this`index
      ensures Agrees(index, records)
      ensures old(signer in index) == (state == Active) ==> index == old(index)
    {
      var isActive := state == Active;
      var wasIndexed := signer in index;
      if isActive && !wasIndexed {
        index := index + [signer];
      } else if !isActive && wasIndexed {
        var k := FirstIndexOf(signer);
        RemovalAgrees(index, k, before, signer, records[signer]);
        index := index[..k] + index[k + 1..];
      }
    }

    /** `record_signer_change_event`: any change of state, attributed and dated. */
    method RecordChange(signer: Address, state: SignerState) returns (epoch: nat)
      requires Valid()
      modifies this`records, this`index
      ensures Valid() && epoch == time
      ensures records == old(records)[signer := Record(state, time, admin)]
    {
      ghost var before := records;
      records := records[signer := Record(state, time, admin)];
      UpdateActiveIndex(signer, state, before);
      epoch := time;
    }

    /** A pending signer becomes active when, and only when, the whole grace period has passed
        since it became pending; nobody else changes. */
    method TransitionIfReady(signer: Address) returns (r: Transition)
      requires Valid()
      modifies this`records, this`index
      ensures Valid()
      ensures signer !in old(records) ==> r == SignerNotFound && records == old(records)
      ensures signer in old(records) ==>
                var was := old(records)[signer];
                if was.state == Pending && time - was.changedAt >= grace
                then r == Now(Active) && records == old(records)[signer := Record(Active, time, was.changedBy)]
                else r == Now(was.state) && records == old(records)
    {
      if signer !in records {
        return SignerNotFound;
      }
      var record := records[signer];
      if record.state != Pending {
        return Now(record.state);
      }
      if time - record.changedAt < grace {
        return Now(Pending);
      }
      ghost var before := records;
      records := records[signer := record.(state := Active, changedAt := time)];
      UpdateActiveIndex(signer, Active, before);
      r := Now(Active);
    }

    /** Refuses exactly when some signer has a record that is not active. */
    method ValidateStates(signers: seq<Address>) returns (r: Checked)
      ensures r == SignerNotActive <==> exists i :: 0 <= i < |signers| && signers[i] in records && !IsActive(records, signers[i])
    {
      for i := 0 to |signers|
        invariant forall j :: 0 <= j < i ==> signers[j] in records ==> IsActive(records, signers[j])
      {
        if signers[i] in records && records[signers[i]].state != Active {
          return SignerNotActive;
        }
      }
      r := AllActive;
    }
  }

  // Whole runs.

  datatype Event =
    | Change(signer: Address, state: SignerState)
    | Check(signer: Address)
    | SetGrace(secs: nat)
    | Wait(secs: nat)

  datatype History = History(time: nat, grace: nat, records: map<Address, Record>)

  /** A pending signer that has waited for the whole grace period now in force. */
  predicate IsReady(h: History, signer: Address) {
    signer in h.records && h.records[signer].state == Pending && h.time - h.records[signer].changedAt >= h.grace
  }

  /** What an event does to the clock, the grace period and the records. */
  function Next(h: History, admin: Address, e: Event): History {
    match e
    case Wait(secs) => h.(time := h.time + secs)
    case SetGrace(secs) => h.(grace := secs)
    case Change(signer, state) => h.(records := h.records[signer := Record(state, h.time, admin)])
    case Check(signer) =>
      if IsReady(h, signer)
      then h.(records := h.records[signer := h.records[signer].(state := Active, changedAt := h.time)])
      else h
  }

  function After(h: History, admin: Address, run: seq<Event>): History {
    if run == [] then h else Next(After(h, admin, run[..|run| - 1]), admin, run[|run| - 1])
  }

  /** Drives the object through a run: the records follow the specification and the index
      agrees with them at the end, hence after every prefix. */
  method Drive(signers: Signers, run: seq<Event>)
    requires signers.Valid()
    modifies signers
    ensures signers.Valid() && signers.admin == old(signers.admin)
    ensures After(History(old(signers.time), old(signers.grace), old(signers.records)), old(signers.admin), run)
            == History(signers.time, signers.grace, signers.records)
  {
    ghost var start := History(signers.time, signers.grace, signers.records);
    ghost var admin := signers.admin;
    for i := 0 to |run|
      invariant signers.Valid() && signers.admin == admin
      invariant After(start, admin, run[..i]) == History(signers.time, signers.grace, signers.records)
    {
      assert run[..i + 1][..i] == run[..i];
      match run[i] {
        case Change(signer, state) =>
          var _ := signers.RecordChange(signer, state);
        case Check(signer) =>
          var _ := signers.TransitionIfReady(signer);
        case SetGrace(secs) =>
          signers.SetGracePeriod(secs);
        case Wait(secs) =>
          signers.Advance(secs);
      }
    }
    assert run[..|run|] == run;
  }

  /** The check at `k` promotes the signer, which is ready at that moment. */
  ghost predicate PromotedAt(h: History, admin: Address, run: seq<Event>, signer: Address, k: nat) {
    k < |run| && run[k] == Check(signer) && IsReady(After(h, admin, run[..k]), signer)
  }

  /** No shortcut around the grace period, however often it is changed: a signer that is pending
      at the start, and whose state nobody changes directly, is active after a run only if some
      check found that the whole grace period then in force had passed since it became pending. */
  lemma {:induction false} PromotionTakesFullGrace(h: History, admin: Address, run: seq<Event>, signer: Address)
    requires signer in h.records && h.records[signer].state == Pending
    requires forall i :: 0 <= i < |run| ==> run[i].Change? ==> run[i].signer != signer
    ensures var end := After(h, admin, run);
            && signer in end.records
            && (end.records[signer] == h.records[signer]
                || (end.records[signer].state == Active
                    && exists k: nat :: PromotedAt(h, admin, run, signer, k)
                                   && After(h, admin, run[..k]).records[signer] == h.records[signer]))
  {
    if run != [] {
      var n := |run| - 1;
      var front := run[..n];
      assert forall i :: 0 <= i < n ==> front[i] == run[i];
      PromotionTakesFullGrace(h, admin, front, signer);
      var mid := After(h, admin, front);
      if mid.records[signer] != h.records[signer] {
        var k: nat :| PromotedAt(h, admin, front, signer, k) && After(h, admin, front[..k]).records[signer] == h.records[signer];
        assert front[..k] == run[..k];
        assert PromotedAt(h, admin, run, signer, k);
      } else if After(h, admin, run).records[signer] != h.records[signer] {
        assert PromotedAt(h, admin, run, signer, n);
      }
    }
  }
}
