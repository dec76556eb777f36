/** The byte string a relayed attestation commits to. */
module RelayPreimage {
  import opened Bytes

  const MAX_PAIR := 9
  const STRKEY := 56

  datatype Submission = Submission(
    wallet: ByteString,
    pair: ByteString,
    score: nat,
    benford: bool,
    ml: bool,
    timestamp: nat,
    confidence: nat,
    modelVersion: nat)

  /** The deployment and freshness data bound beside the score. */
  datatype Binding = Binding(
    contract: ByteString,
    network: ByteString,
    contractId: ByteString,
    contractVersion: nat,
    nonce: nat,
    validBefore: nat)

  /** The source's field widths; a symbol has no NUL byte. */
  predicate SubmissionFits(s: Submission) {
    && |s.wallet| == STRKEY
    && |s.pair| <= MAX_PAIR && (forall i :: 0 <= i < |s.pair| ==> s.pair[i] != 0)
    && s.score < Pow256(4) && s.timestamp < Pow256(8) && s.confidence < Pow256(4) && s.modelVersion < Pow256(4)
  }

  predicate BindingFits(b: Binding) {
    && |b.contract| == STRKEY && |b.network| == 32 && |b.contractId| == 32
    && b.contractVersion < Pow256(4) && b.nonce < Pow256(8) && b.validBefore < Pow256(4)
  }

  function Flag(b: bool): ByteString {
    [if b then 1 else 0]
  }

  function Zeros(n: nat): (z: ByteString)
    ensures |z| == n && forall i :: 0 <= i < n ==> z[i] == 0
  {
    seq(n, _ => 0)
  }

  /** The pair in a zeroed nine-byte buffer. */
  function PadPair(pair: ByteString): (p: ByteString)
    requires |pair| <= MAX_PAIR
    ensures |p| == MAX_PAIR
  {
    pair + Zeros(MAX_PAIR - |pair|)
  }

  function Join(parts: seq<ByteString>): ByteString {
    if parts == [] then [] else parts[0] + Join(parts[1..])
  }

  function Fields(s: Submission, b: Binding): (fs: seq<ByteString>)
    requires |s.pair| <= MAX_PAIR
    ensures |fs| == 14
  {
    [ s.wallet, PadPair(s.pair), LittleEndian(s.score, 4), Flag(s.benford), Flag(s.ml),
      LittleEndian(s.timestamp, 8), LittleEndian(s.confidence, 4), LittleEndian(s.modelVersion, 4),
      b.contract, b.network, b.contractId,
      LittleEndian(b.contractVersion, 4), LittleEndian(b.nonce, 8), LittleEndian(b.validBefore, 4) ]
  }

  function Preimage(s: Submission, b: Binding): ByteString
    requires |s.pair| <= MAX_PAIR
  {
    Join(Fields(s, b))
  }

  /** The source's buffer, appended to field by field. */
  method BuildPreimage(s: Submission, b: Binding) returns (preimage: ByteString)
    requires |s.pair| <= MAX_PAIR
    ensures preimage == Preimage(s, b)
  {
    var fields := Fields(s, b);
    preimage := [];
    for i := 0 to |fields|
      invariant preimage + Join(fields[i..]) == Join(fields)
    {
      JoinOneMore(preimage, fields, i);
      preimage := preimage + fields[i];
    }
  }

  lemma JoinOneMore(prefix: ByteString, parts: seq<ByteString>, i: nat)
    requires i < |parts|
    ensures prefix + Join(parts[i..]) == prefix + parts[i] + Join(parts[i + 1..])
  {
    assert parts[i..][1..] == parts[i + 1..];
    assert prefix + (parts[i] + Join(parts[i + 1..])) == prefix + parts[i] + Join(parts[i + 1..]);
  }

  // Where each field is found.

  lemma {:induction false} JoinSplits(parts: seq<ByteString>, i: nat)
    requires i < |parts|
    ensures Join(parts) == Join(parts[..i]) + parts[i] + Join(parts[i + 1..])
    decreases i
  {
    if i == 0 {
      assert parts[..0] == [];
    } else {
      var rest := parts[1..];
      JoinSplits(rest, i - 1);
      assert parts[..i][1..] == rest[..i - 1] && parts[i + 1..] == rest[i..];
    }
  }

  /** The widths of the fields, in order. */
  const WIDTHS: seq<nat> := [STRKEY, MAX_PAIR, 4, 1, 1, 8, 4, 4, STRKEY, 32, 32, 4, 8, 4]

  function Offset(i: nat): nat
    requires i <= 14
  {
    if i == 0 then 0 else Offset(i - 1) + WIDTHS[i - 1]
  }

  lemma Offsets()
    ensures Offset(1) == 56 && Offset(2) == 65 && Offset(3) == 69 && Offset(4) == 70 && Offset(5) == 71
    ensures Offset(6) == 79 && Offset(7) == 83 && Offset(8) == 87 && Offset(9) == 143 && Offset(10) == 175
    ensures Offset(11) == 207 && Offset(12) == 211 && Offset(13) == 219 && Offset(14) == 223
  {
    assert Offset(1) == 56 && Offset(2) == 65 && Offset(3) == 69 && Offset(4) == 70;
    assert Offset(5) == 71 && Offset(6) == 79 && Offset(7) == 83 && Offset(8) == 87;
    assert Offset(9) == 143 && Offset(10) == 175 && Offset(11) == 207 && Offset(12) == 211;
    assert Offset(13) == 219;
  }

  lemma FieldWidths(s: Submission, b: Binding, i: nat)
    requires SubmissionFits(s) && BindingFits(b) && i < 14
    ensures |Fields(s, b)[i]| == WIDTHS[i]
  {
  }

  lemma {:induction false} PrefixWidth(s: Submission, b: Binding, i: nat)
    requires SubmissionFits(s) && BindingFits(b) && i <= 14
    ensures |Join(Fields(s, b)[..i])| == Offset(i)
  {
    if i > 0 {
      PrefixWidth(s, b, i - 1);
      FieldWidths(s, b, i - 1);
      var parts := Fields(s, b)[..i];
      JoinSplits(parts, i - 1);
      assert parts[..i - 1] == Fields(s, b)[..i - 1] && parts[i..] == [];
    }
  }

  /** Field `i` occupies the bytes from its offset to the next one. */
  lemma FieldAt(s: Submission, b: Binding, i: nat)
    requires SubmissionFits(s) && BindingFits(b) && i < 14
    ensures |Preimage(s, b)| == Offset(14) && Offset(i) <= Offset(i + 1) <= Offset(14)
    ensures Preimage(s, b)[Offset(i)..Offset(i + 1)] == Fields(s, b)[i]
  {
    var fields := Fields(s, b);
    PrefixWidth(s, b, i);
    PrefixWidth(s, b, i + 1);
    PrefixWidth(s, b, 14);
    FieldWidths(s, b, i);
    JoinSplits(fields, i);
    assert fields[..14] == fields;
  }

  /** The layout of the signed string: who, which pair, the score and its circumstances, then
      the deployment and the freshness data, each at a fixed place; integers least significant
      byte first. */
  lemma SubmissionLayout(s: Submission, b: Binding)
    requires SubmissionFits(s) && BindingFits(b)
    ensures |Preimage(s, b)| == 223
    ensures var p := Preimage(s, b);
            && p[..56] == s.wallet
            && p[56..56 + |s.pair|] == s.pair && (forall i :: 56 + |s.pair| <= i < 65 ==> p[i] == 0)
            && FromLittleEndian(p[65..69]) == s.score
            && p[69] == (if s.benford then 1 else 0) && p[70] == (if s.ml then 1 else 0)
            && FromLittleEndian(p[71..79]) == s.timestamp
            && FromLittleEndian(p[79..83]) == s.confidence
            && FromLittleEndian(p[83..87]) == s.modelVersion
  {
    var p := Preimage(s, b);
    Offsets();
    FieldAt(s, b, 0);
    FieldAt(s, b, 1);
    assert p[0..56] == p[..56];
    PairPlace(p, s.pair);
    FieldAt(s, b, 2);
    LittleEndianRoundTrip(s.score, 4);
    FieldAt(s, b, 3);
    assert p[69] == p[69..70][0];
    FieldAt(s, b, 4);
    assert p[70] == p[70..71][0];
    FieldAt(s, b, 5);
    LittleEndianRoundTrip(s.timestamp, 8);
    FieldAt(s, b, 6);
    LittleEndianRoundTrip(s.confidence, 4);
    FieldAt(s, b, 7);
    LittleEndianRoundTrip(s.modelVersion, 4);
  }

  lemma PairPlace(p: ByteString, pair: ByteString)
    requires |p| >= 65 && |pair| <= MAX_PAIR && p[56..65] == PadPair(pair)
    ensures p[56..56 + |pair|] == pair && forall i :: 56 + |pair| <= i < 65 ==> p[i] == 0
  {
    assert p[56..56 + |pair|] == p[56..65][..|pair|];
    forall i | 56 + |pair| <= i < 65 ensures p[i] == 0 {
      assert p[i] == p[56..65][i - 56];
    }
  }

  lemma BindingLayout(s: Submission, b: Binding)
    requires SubmissionFits(s) && BindingFits(b)
    ensures |Preimage(s, b)| == 223
    ensures var p := Preimage(s, b);
            && p[87..143] == b.contract && p[143..175] == b.network && p[175..207] == b.contractId
            && FromLittleEndian(p[207..211]) == b.contractVersion
            && FromLittleEndian(p[211..219]) == b.nonce
            && FromLittleEndian(p[219..]) == b.validBefore
  {
    Offsets();
    FieldAt(s, b, 8);
    FieldAt(s, b, 9);
    FieldAt(s, b, 10);
    FieldAt(s, b, 11);
    FieldAt(s, b, 12);
    FieldAt(s, b, 13);
    LittleEndianRoundTrip(b.contractVersion, 4);
    LittleEndianRoundTrip(b.nonce, 8);
    LittleEndianRoundTrip(b.validBefore, 4);
    assert Preimage(s, b)[219..223] == Preimage(s, b)[219..];
  }

  /** Fixed-width parts can be read back from their concatenation. */
  lemma {:induction false} JoinInjective(xs: seq<ByteString>, ys: seq<ByteString>)
    requires |xs| == |ys| && forall i :: 0 <= i < |xs| ==> |xs[i]| == |ys[i]|
    requires Join(xs) == Join(ys)
    ensures xs == ys
  {
    if xs != [] {
      var n := |xs[0]|;
      assert xs[0] == Join(xs)[..n] && ys[0] == Join(ys)[..n];
      assert Join(xs[1..]) == Join(xs)[n..] && Join(ys[1..]) == Join(ys)[n..];
      JoinInjective(xs[1..], ys[1..]);
      assert xs == [xs[0]] + xs[1..] && ys == [ys[0]] + ys[1..];
    }
  }

  lemma LittleEndianInjective(m: nat, n: nat, width: nat)
    requires m < Pow256(width) && n < Pow256(width) && LittleEndian(m, width) == LittleEndian(n, width)
    ensures m == n
  {
    LittleEndianRoundTrip(m, width);
    LittleEndianRoundTrip(n, width);
  }

  lemma PadPairInjective(p: ByteString, q: ByteString)
    requires |p| <= MAX_PAIR && |q| <= MAX_PAIR && PadPair(p) == PadPair(q)
    requires (forall i :: 0 <= i < |p| ==> p[i] != 0) && (forall i :: 0 <= i < |q| ==> q[i] != 0)
    ensures p == q
  {
    PadNotLonger(p, q);
    PadNotLonger(q, p);
    assert p == PadPair(p)[..|p|] && q == PadPair(q)[..|q|];
  }

  lemma PadNotLonger(p: ByteString, q: ByteString)
    requires |p| <= MAX_PAIR && |q| <= MAX_PAIR && PadPair(p) == PadPair(q)
    requires forall i :: 0 <= i < |q| ==> q[i] != 0
    ensures |q| <= |p|
  {
    var k := |p|;
    assert k < MAX_PAIR ==> PadPair(p)[k] == 0;
  }

  lemma FieldsSameWidths(s: Submission, b: Binding, s': Submission, b': Binding)
    requires SubmissionFits(s) && BindingFits(b) && SubmissionFits(s') && BindingFits(b')
    ensures forall i :: 0 <= i < 14 ==> |Fields(s, b)[i]| == |Fields(s', b')[i]|
  {
  }

  lemma FlagInjective(x: bool, y: bool)
    requires Flag(x) == Flag(y)
    ensures x == y
  {
    assert Flag(x)[0] == Flag(y)[0];
  }

  lemma SubmissionFromFields(s: Submission, b: Binding, s': Submission, b': Binding)
    requires SubmissionFits(s) && SubmissionFits(s') && Fields(s, b) == Fields(s', b')
    ensures s == s'
  {
    var f, g := Fields(s, b), Fields(s', b');
    assert f[0] == g[0] && f[1] == g[1] && f[2] == g[2] && f[3] == g[3] && f[4] == g[4]
        && f[5] == g[5] && f[6] == g[6] && f[7] == g[7];
    PadPairInjective(s.pair, s'.pair);
    LittleEndianInjective(s.score, s'.score, 4);
    FlagInjective(s.benford, s'.benford);
    FlagInjective(s.ml, s'.ml);
    LittleEndianInjective(s.timestamp, s'.timestamp, 8);
    LittleEndianInjective(s.confidence, s'.confidence, 4);
    LittleEndianInjective(s.modelVersion, s'.modelVersion, 4);
  }

  lemma BindingFromFields(s: Submission, b: Binding, s': Submission, b': Binding)
    requires |s.pair| <= MAX_PAIR && |s'.pair| <= MAX_PAIR
    requires BindingFits(b) && BindingFits(b') && Fields(s, b) == Fields(s', b')
    ensures b == b'
  {
    var f, g := Fields(s, b), Fields(s', b');
    assert f[8] == g[8] && f[9] == g[9] && f[10] == g[10] && f[11] == g[11] && f[12] == g[12] && f[13] == g[13];
    LittleEndianInjective(b.contractVersion, b'.contractVersion, 4);
    LittleEndianInjective(b.nonce, b'.nonce, 8);
    LittleEndianInjective(b.validBefore, b'.validBefore, 4);
  }

  /** Equal preimages bind identical submissions, deployments, nonces and expiry ledgers. */
  lemma PreimageInjective(s: Submission, b: Binding, s': Submission, b': Binding)
    requires SubmissionFits(s) && BindingFits(b) && SubmissionFits(s') && BindingFits(b')
    requires Preimage(s, b) == Preimage(s', b')
    ensures s == s' && b == b'
  {
    FieldsSameWidths(s, b, s', b');
    JoinInjective(Fields(s, b), Fields(s', b'));
    SubmissionFromFields(s, b, s', b');
    BindingFromFields(s, b, s', b');
  }
}
