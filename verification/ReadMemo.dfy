/** The memo of cross-contract shard reads, and what reading through it amounts to. */
module ReadMemo {
  import opened Options
  import opened Tokens

  /** Everything that can influence the value read. */
  datatype Key = Key(shard: Address, subject: Address, policy: nat, revision: nat)

  /** The first entry under `key`. */
  function Lookup(entries: seq<(Key, nat)>, key: Key): Option<nat> {
    if entries == [] then None
    else if entries[0].0 == key then Some(entries[0].1)
    else Lookup(entries[1..], key)
  }

  /** The entries are direct reads, one per key in `keys`, in that order. */
  ghost predicate Mirrors(entries: seq<(Key, nat)>, read: Key -> nat, keys: seq<Key>) {
    && |entries| == |keys|
    && (forall i :: 0 <= i < |keys| ==> entries[i] == (keys[i], read(keys[i])))
    && (forall i, j :: 0 <= i < j < |keys| ==> keys[i] != keys[j])
  }

  lemma {:induction false} LookupMirrors(entries: seq<(Key, nat)>, read: Key -> nat, keys: seq<Key>, key: Key)
    requires Mirrors(entries, read, keys)
    ensures Lookup(entries, key) == if key in keys then Some(read(key)) else None
    decreases |entries|
  {
    if entries != [] {
      assert keys == [keys[0]] + keys[1..];
      LookupMirrors(entries[1..], read, keys[1..], key);
    }
  }

  class Memo {
    const enabled: bool
    var entries: seq<(Key, nat)>
    var hits: nat
    var misses: nat

    constructor (enabled: bool)
      ensures this.enabled == enabled && entries == [] && hits == 0 && misses == 0
    {
      this.enabled, entries, hits, misses := enabled, [], 0, 0;
    }

    method Get(key: Key) returns (r: Option<nat>)
      modifies this`hits, this`misses
      ensures r == if enabled then Lookup(entries, key) else None
      ensures hits == old(hits) + if r.Some? then 1 else 0
      ensures misses == old(misses) + if enabled && r.None? then 1 else 0
    {
      if !enabled {
        return None;
      }
      for i := 0 to |entries|
        invariant Lookup(entries, key) == Lookup(entries[i..], key)
        invariant hits == old(hits) && misses == old(misses)
      {
        assert entries[i..][1..] == entries[i + 1..];
        if entries[i].0 == key {
          hits := hits + 1;
          return Some(entries[i].1);
        }
      }
      misses := misses + 1;
      r := None;
    }

    method Put(key: Key, value: nat)
      modifies this`entries
      ensures entries == if enabled then old(entries) + [(key, value)] else old(entries)
    {
      if !enabled {
        return;
      }
      entries := entries + [(key, value)];
    }

    /** A read through the memo; `called` tells whether the shard itself was asked. */
    method ReadThrough(key: Key, read: Key -> nat, ghost known: seq<Key>) returns (value: nat, called: bool)
      requires enabled ==> Mirrors(entries, read, known)
      modifies this
      ensures value == read(key)
      ensures called <==> !enabled || key !in known
      ensures enabled ==> Mirrors(entries, read, if called then known + [key] else known)
      ensures !enabled ==> entries == old(entries)
      ensures hits == old(hits) + if called then 0 else 1
      ensures misses == old(misses) + if enabled && called then 1 else 0
    {
      if enabled {
        LookupMirrors(entries, read, known, key);
      }
      var cached := Get(key);
      if cached.Some? {
        return cached.value, false;
      }
      value := read(key);
      Put(key, value);
      called := true;
    }

    /** One lookup or one read through the memo. */
    method Do(op: Op, read: Key -> nat, ghost known: seq<Key>) returns (answer: Option<nat>, called: bool)
      requires enabled ==> Mirrors(entries, read, known)
      modifies this
      ensures answer == if op.Read? || (enabled && op.key in known) then Some(read(op.key)) else None
      ensures called <==> op.Read? && (!enabled || op.key !in known)
      ensures enabled ==> Mirrors(entries, read, if called then known + [op.key] else known)
      ensures !enabled ==> entries == old(entries)
      ensures hits == old(hits) + if enabled && op.key in known then 1 else 0
      ensures misses == old(misses) + if enabled && op.key !in known then 1 else 0
    {
      match op {
        case Look(key) =>
          if enabled {
            LookupMirrors(entries, read, known, key);
          }
          answer := Get(key);
          called := false;
        case Read(key) =>
          var value;
          value, called := ReadThrough(key, read, known);
          answer := Some(value);
      }
    }

    /** Any sequence of lookups and reads through a new memo. A read returns what a direct read
        returns; a lookup returns the direct read of a key that has been read and nothing for
        any other. An active memo asks the shards once per key that is read and never twice,
        hits and misses are the operations, and the hits are the reads less the calls, which is
        what the memo saves, plus the lookups answered.
        A disabled memo passes every read on, answers no lookup and keeps nothing. */
    method Replay(ops: seq<Op>, read: Key -> nat) returns (answers: seq<Option<nat>>, calls: seq<Key>, saved: nat)
      requires entries == [] && hits == 0 && misses == 0
      modifies this
      ensures |answers| == |ops| && forall i :: 0 <= i < |ops| ==> answers[i] == Answer(ops, i, enabled, read)
      ensures enabled ==> forall i, j :: 0 <= i < j < |calls| ==> calls[i] != calls[j]
      ensures enabled ==> forall k :: k in calls <==> k in ReadKeys(ops)
      ensures enabled ==> hits + misses == |ops|
      ensures saved == |ReadKeys(ops)| - |calls|
      ensures enabled ==> hits == saved + Answered(ops)
      ensures !enabled ==> calls == ReadKeys(ops) && entries == [] && hits == 0 && misses == 0
    {
      answers, calls, saved := [], [], 0;
      for i := 0 to |ops|
        invariant enabled ==> Mirrors(entries, read, calls)
        invariant !enabled ==> entries == []
        invariant Replayed(ops[..i], enabled, read, answers, calls, saved, hits, misses)
      {
        assert ops[..i + 1] == ops[..i] + [ops[i]];
        ReplayStep(ops[..i], ops[i], enabled, read, answers, calls, saved, hits, misses);
        var answer, called := Do(ops[i], read, calls);
        answers := answers + [answer];
        if called {
          calls := calls + [ops[i].key];
        } else if ops[i].Read? {
          saved := saved + 1;
        }
      }
      assert ops[..|ops|] == ops;
    }
  }

  datatype Op = Look(key: Key) | Read(key: Key)

  /** The keys of the reads, in order. */
  function ReadKeys(ops: seq<Op>): seq<Key> {
    if ops == [] then []
    else
      var n := |ops| - 1;
      if ops[n].Read? then ReadKeys(ops[..n]) + [ops[n].key] else ReadKeys(ops[..n])
  }

  /** How many lookups find a key that has been read. */
  function Answered(ops: seq<Op>): nat {
    if ops == [] then 0
    else
      var n := |ops| - 1;
      Answered(ops[..n]) + if ops[n].Look? && ops[n].key in ReadKeys(ops[..n]) then 1 else 0
  }

  /** What the operation at `i` should answer. */
  function Answer(ops: seq<Op>, i: nat, enabled: bool, read: Key -> nat): Option<nat>
    requires i < |ops|
  {
    if ops[i].Read? || (enabled && ops[i].key in ReadKeys(ops[..i])) then Some(read(ops[i].key)) else None
  }

  /** The state of the replay after the operations `ops`. */
  ghost predicate Replayed(ops: seq<Op>, enabled: bool, read: Key -> nat, answers: seq<Option<nat>>, calls: seq<Key>,
                           saved: int, hits: int, misses: int)
  {
    && |answers| == |ops| && (forall i :: 0 <= i < |ops| ==> answers[i] == Answer(ops, i, enabled, read))
    && saved == |ReadKeys(ops)| - |calls|
    && (enabled ==> (forall k :: k in calls <==> k in ReadKeys(ops)) && hits + misses == |ops| && hits == saved + Answered(ops))
    && (!enabled ==> calls == ReadKeys(ops) && hits == 0 && misses == 0)
  }

  lemma ReplayStep(ops: seq<Op>, op: Op, enabled: bool, read: Key -> nat, answers: seq<Option<nat>>, calls: seq<Key>,
                   saved: int, hits: int, misses: int)
    requires Replayed(ops, enabled, read, answers, calls, saved, hits, misses)
    ensures var known := enabled && op.key in calls;
            var called := op.Read? && !known;
            Replayed(ops + [op], enabled, read,
                     answers + [if op.Read? || known then Some(read(op.key)) else None],
                     if called then calls + [op.key] else calls,
                     if op.Read? && !called then saved + 1 else saved,
                     hits + if known then 1 else 0,
                     misses + if enabled && !known then 1 else 0)
  {
    var more := ops + [op];
    assert more[..|ops|] == ops;
    forall i | 0 <= i < |ops| ensures Answer(more, i, enabled, read) == Answer(ops, i, enabled, read) {
      assert more[..i] == ops[..i];
    }
  }
}
