/** Choosing the canonical configuration among the fingerprints the shards report. */
module Fingerprints {
  import opened Options
  import opened Tokens

  datatype Fingerprint = Fingerprint(
    decayNum: nat,
    decayDen: nat,
    stalenessWindow: nat,
    minConfidence: nat,
    consensusK: nat,
    consensusEpsilon: nat)

  /** `fingerprint_less`. */
  predicate Less(a: Fingerprint, b: Fingerprint) {
    if a.decayNum != b.decayNum then a.decayNum < b.decayNum
    else if a.decayDen != b.decayDen then a.decayDen < b.decayDen
    else if a.stalenessWindow != b.stalenessWindow then a.stalenessWindow < b.stalenessWindow
    else if a.minConfidence != b.minConfidence then a.minConfidence < b.minConfidence
    else if a.consensusK != b.consensusK then a.consensusK < b.consensusK
    else a.consensusEpsilon < b.consensusEpsilon
  }

  /** A strict total order: exactly one of less, equal and greater, and transitive. */
  lemma LessIsStrictTotalOrder(a: Fingerprint, b: Fingerprint, c: Fingerprint)
    ensures !Less(a, a)
    ensures Less(a, b) ==> !Less(b, a)
    ensures Less(a, b) || a == b || Less(b, a)
    ensures Less(a, b) && Less(b, c) ==> Less(a, c)
  {
  }

  function FieldsOf(f: Fingerprint): seq<nat> {
    [f.decayNum, f.decayDen, f.stalenessWindow, f.minConfidence, f.consensusK, f.consensusEpsilon]
  }

  /** `a` comes before `b` in the order of dictionaries. */
  ghost predicate LexBefore(a: seq<nat>, b: seq<nat>) {
    exists k: nat :: k < |a| && k < |b| && a[..k] == b[..k] && a[k] < b[k]
  }

  lemma LexAt(a: seq<nat>, b: seq<nat>, k: nat)
    requires k < |a| && k < |b| && a[k] < b[k] && forall j :: 0 <= j < k ==> a[j] == b[j]
    ensures LexBefore(a, b)
  {
    assert a[..k] == b[..k];
  }

  /** The order is the lexicographic one on the six fields. */
  lemma LessIsLexicographic(a: Fingerprint, b: Fingerprint)
    ensures Less(a, b) <==> LexBefore(FieldsOf(a), FieldsOf(b))
  {
    var x, y := FieldsOf(a), FieldsOf(b);
    if Less(a, b) {
      var k := if x[0] != y[0] then 0 else if x[1] != y[1] then 1 else if x[2] != y[2] then 2
               else if x[3] != y[3] then 3 else if x[4] != y[4] then 4 else 5;
      LexAt(x, y, k);
    }
    if LexBefore(x, y) {
      var k: nat :| k < |x| && k < |y| && x[..k] == y[..k] && x[k] < y[k];
      forall j | 0 <= j < k ensures x[j] == y[j] {
        assert x[..k][j] == y[..k][j];
      }
      assert (k > 0 ==> x[0] == y[0]) && (k > 1 ==> x[1] == y[1]) && (k > 2 ==> x[2] == y[2])
          && (k > 3 ==> x[3] == y[3]) && (k > 4 ==> x[4] == y[4]);
    }
  }

  /** `f` with tally `n` comes before `g` with tally `m`. */
  predicate Beats(f: Fingerprint, n: nat, g: Fingerprint, m: nat) {
    n > m || (n == m && Less(f, g))
  }

  /** The least of the fingerprints reported most often, with its exact tally. */
  ghost predicate Canonical(reported: multiset<Fingerprint>, best: Option<Fingerprint>, tally: nat) {
    match best
    case None => reported == multiset{} && tally == 0
    case Some(f) =>
      && f in reported && tally == reported[f]
      && forall g :: g in reported && g != f ==> Beats(f, tally, g, reported[g])
  }

  /** At most one answer is canonical; the order in which the reports arrive cannot matter. */
  lemma CanonicalIsUnique(reported: multiset<Fingerprint>,
                          best: Option<Fingerprint>, tally: nat, best': Option<Fingerprint>, tally': nat)
    requires Canonical(reported, best, tally) && Canonical(reported, best', tally')
    ensures best == best' && tally == tally'
  {
    if best.Some? && best'.Some? && best != best' {
      LessIsStrictTotalOrder(best.value, best'.value, best.value);
    }
  }

  /** What canonical means: no fingerprint is reported more often, and of those reported as
      often its fields come first in lexicographic order. */
  lemma CanonicalIsLeast(reported: multiset<Fingerprint>, f: Fingerprint, tally: nat)
    ensures Canonical(reported, Some(f), tally)
            <==> && f in reported && tally == reported[f]
                 && forall g :: g in reported && g != f ==>
                      reported[g] < tally || (reported[g] == tally && LexBefore(FieldsOf(f), FieldsOf(g)))
  {
    forall g: Fingerprint ensures Less(f, g) <==> LexBefore(FieldsOf(f), FieldsOf(g)) {
      LessIsLexicographic(f, g);
    }
  }

  function Reported(available: seq<(Address, Fingerprint)>): (fs: seq<Fingerprint>)
    ensures |fs| == |available| && forall i :: 0 <= i < |fs| ==> fs[i] == available[i].1
  {
    seq(|available|, i requires 0 <= i < |available| => available[i].1)
  }

  lemma ReportedGrows(available: seq<(Address, Fingerprint)>, shard: Address, f: Fingerprint)
    ensures Reported(available + [(shard, f)]) == Reported(available) + [f]
  {
  }

  /** The inner loop. */
  method Tally(available: seq<(Address, Fingerprint)>, candidate: Fingerprint) returns (count: nat)
    ensures count == multiset(Reported(available))[candidate]
  {
    count := 0;
    var fs := Reported(available);
    for j := 0 to |available|
      invariant count == multiset(fs[..j])[candidate]
    {
      assert fs[..j + 1] == fs[..j] + [fs[j]];
      if available[j].1 == candidate {
        count := count + 1;
      }
    }
    assert fs[..|available|] == fs;
  }

  /** Among the first `i` candidates, `best` is first in rank. */
  ghost predicate LeadsAmong(fs: seq<Fingerprint>, i: nat, best: Option<Fingerprint>, tally: nat)
    requires i <= |fs|
  {
    match best
    case None => i == 0 && tally == 0
    case Some(f) =>
      && f in fs[..i] && tally == multiset(fs)[f]
      && forall k :: 0 <= k < i && fs[k] != f ==> Beats(f, tally, fs[k], multiset(fs)[fs[k]])
  }

  lemma LeaderSurvives(fs: seq<Fingerprint>, i: nat, f: Fingerprint, tally: nat, count: nat)
    requires i < |fs| && LeadsAmong(fs, i, Some(f), tally) && count == multiset(fs)[fs[i]]
    requires !Beats(fs[i], count, f, tally)
    ensures LeadsAmong(fs, i + 1, Some(f), tally)
  {
    LessIsStrictTotalOrder(fs[i], f, f);
  }

  lemma LeaderFalls(fs: seq<Fingerprint>, i: nat, f: Fingerprint, tally: nat, count: nat)
    requires i < |fs| && LeadsAmong(fs, i, Some(f), tally) && count == multiset(fs)[fs[i]]
    requires Beats(fs[i], count, f, tally)
    ensures LeadsAmong(fs, i + 1, Some(fs[i]), count)
  {
    forall k | 0 <= k < i + 1 && fs[k] != fs[i] ensures Beats(fs[i], count, fs[k], multiset(fs)[fs[k]]) {
      LessIsStrictTotalOrder(fs[i], f, fs[k]);
    }
  }

  lemma LeaderIsCanonical(fs: seq<Fingerprint>, best: Option<Fingerprint>, tally: nat)
    requires LeadsAmong(fs, |fs|, best, tally)
    ensures Canonical(multiset(fs), best, tally)
  {
    assert fs[..|fs|] == fs;
  }

  /** `select_canonical_fingerprint`: a count of every candidate, keeping the first in rank. */
  method SelectCanonical(available: seq<(Address, Fingerprint)>) returns (best: Option<Fingerprint>, bestCount: nat)
    ensures Canonical(multiset(Reported(available)), best, bestCount)
  {
    best, bestCount := None, 0;
    ghost var fs := Reported(available);
    for i := 0 to |available|
      invariant LeadsAmong(fs, i, best, bestCount)
    {
      var candidate := available[i].1;
      var count := Tally(available, candidate);
      assert fs[i] in fs[..i + 1];
      if best.None? {
        best, bestCount := Some(candidate), count;
      } else if count > bestCount || (count == bestCount && Less(candidate, best.value)) {
        LeaderFalls(fs, i, best.value, bestCount, count);
        best, bestCount := Some(candidate), count;
      } else {
        LeaderSurvives(fs, i, best.value, bestCount, count);
      }
    }
    LeaderIsCanonical(fs, best, bestCount);
  }

  /** A fingerprint reported by more than half is the canonical one. */
  lemma MajorityIsCanonical(reported: multiset<Fingerprint>, best: Option<Fingerprint>, tally: nat, f: Fingerprint)
    requires Canonical(reported, best, tally) && 2 * reported[f] > |reported|
    ensures best == Some(f) && tally == reported[f]
  {
    assert f in reported;
    if best != Some(f) {
      TwoTallies(reported, best.value, f);
    }
  }

  lemma TwoTallies(reported: multiset<Fingerprint>, f: Fingerprint, g: Fingerprint)
    requires f != g
    ensures reported[f] + reported[g] <= |reported|
  {
    var rest := reported[f := 0][g := 0];
    assert reported == rest[f := reported[f]][g := reported[g]];
  }

  /** Dropping a report other than the canonical one changes neither it nor its tally. */
  lemma CanonicalSurvivesRemoval(reported: multiset<Fingerprint>, f: Fingerprint, tally: nat, g: Fingerprint)
    requires Canonical(reported, Some(f), tally) && g != f && g in reported
    ensures Canonical(reported - multiset{g}, Some(f), tally)
  {
    var fewer := reported - multiset{g};
    forall h | h in fewer && h != f ensures Beats(f, tally, h, fewer[h]) {
      assert Beats(f, tally, h, reported[h]);
    }
  }
}
