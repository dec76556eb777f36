/** The Merkle scheme behind attested score batches: leaves and nodes are hashed with
    different one-byte prefixes, the leaf list is padded to a power of two by repeating
    its last element, and each entry carries an inclusion proof with direction flags.

    The hash is a parameter. Nothing is assumed of it to build or to check a proof;
    the forgery theorem asks that it be injective on the finitely many strings that
    building the tree and checking the proof actually hash. */
module MerkleBatch {
  import opened Bytes

  type Hash = ByteString -> Digest

  const MAX_MERKLE_PROOF_DEPTH := 30
  const MAX_BATCH := 20

  function LeafPreimage(commitment: Digest): ByteString {
    [0] + commitment.bytes
  }

  function NodePreimage(left: Digest, right: Digest): ByteString {
    [1] + left.bytes + right.bytes
  }

  function Leaf(h: Hash, commitment: Digest): Digest {
    h(LeafPreimage(commitment))
  }

  function Node(h: Hash, left: Digest, right: Digest): Digest {
    h(NodePreimage(left, right))
  }

  /** What is hashed: a zero byte and the commitment for a leaf, a one byte and the two children
      in their order for a node. No string is both. */
  lemma HashedLayout(commitment: Digest, left: Digest, right: Digest)
    ensures var leaf, node := LeafPreimage(commitment), NodePreimage(left, right);
            && |leaf| == 33 && leaf[0] == 0 && leaf[1..] == commitment.bytes
            && |node| == 65 && node[0] == 1 && node[1..33] == left.bytes && node[33..] == right.bytes
            && leaf != node
  {
  }

  /** The reference tree: a perfect binary tree whose tips, left to right, are the leaf
      digests. */
  datatype Tree = Tip(digest: Digest) | Fork(left: Tree, right: Tree)

  function RootOf(h: Hash, t: Tree): Digest {
    match t
    case Tip(d) => d
    case Fork(l, r) => Node(h, RootOf(h, l), RootOf(h, r))
  }

  predicate Perfect(t: Tree, depth: nat) {
    match t
    case Tip(_) => depth == 0
    case Fork(l, r) => depth > 0 && Perfect(l, depth - 1) && Perfect(r, depth - 1)
  }

  function Tips(t: Tree): seq<Digest> {
    match t
    case Tip(d) => [d]
    case Fork(l, r) => Tips(l) + Tips(r)
  }

  ghost predicate TreeOver(t: Tree, depth: nat, leaves: seq<Digest>) {
    Perfect(t, depth) && Tips(t) == leaves
  }

  lemma {:induction false} PerfectSize(t: Tree, depth: nat)
    requires Perfect(t, depth)
    ensures |Tips(t)| == Pow2(depth)
  {
    match t
    case Tip(_) =>
    case Fork(l, r) =>
      PerfectSize(l, depth - 1);
      PerfectSize(r, depth - 1);
  }

  /** A leaf list has at most one tree of each depth over it. */
  lemma {:induction false} TreeOverUnique(t: Tree, t': Tree, depth: nat, leaves: seq<Digest>)
    requires TreeOver(t, depth, leaves) && TreeOver(t', depth, leaves)
    ensures t == t'
    decreases depth
  {
    if depth > 0 {
      PerfectSize(t.left, depth - 1);
      PerfectSize(t'.left, depth - 1);
      var half := Pow2(depth - 1);
      assert Tips(t.left) == leaves[..half] == Tips(t'.left);
      assert Tips(t.right) == leaves[half..] == Tips(t'.right);
      TreeOverUnique(t.left, t'.left, depth - 1, leaves[..half]);
      TreeOverUnique(t.right, t'.right, depth - 1, leaves[half..]);
    }
  }

  /** `n >> k`. */
  function ShiftRight(n: nat, k: nat): nat {
    if k == 0 then n else ShiftRight(n, k - 1) / 2
  }

  /** Bit `i` of `n`, least significant first: `(n >> i) & 1`. */
  predicate Bit(n: nat, i: nat) {
    ShiftRight(n, i) % 2 == 1
  }

  /** The number made of the `k` low bits of `n`. */
  function LowBits(n: nat, k: nat): (low: nat)
    ensures low < Pow2(k)
  {
    if k == 0 then 0 else LowBits(n, k - 1) + (if Bit(n, k - 1) then Pow2(k - 1) else 0)
  }

  lemma HalveProduct(q: nat, p: nat)
    ensures q * p == (q / 2) * (2 * p) + (if q % 2 == 1 then p else 0)
  {
    var half, odd := q / 2, q % 2;
    assert q == 2 * half + odd;
    assert (2 * half + odd) * p == half * (2 * p) + odd * p;
  }

  lemma SmallHasNoQuotient(n: nat, q: nat, p: nat, low: nat)
    requires n == q * p + low && n < p
    ensures q == 0
  {
  }

  lemma {:induction false} ShiftSplits(n: nat, k: nat)
    ensures n == ShiftRight(n, k) * Pow2(k) + LowBits(n, k)
  {
    if k > 0 {
      ShiftSplits(n, k - 1);
      HalveProduct(ShiftRight(n, k - 1), Pow2(k - 1));
    }
  }

  /** A number of at most `k` bits is all low bits. */
  lemma FitsInBits(n: nat, k: nat)
    requires n < Pow2(k)
    ensures LowBits(n, k) == n
  {
    ShiftSplits(n, k);
    SmallHasNoQuotient(n, ShiftRight(n, k), Pow2(k), LowBits(n, k));
  }

  function Combine(h: Hash, current: Digest, sibling: Digest, siblingOnLeft: bool): Digest {
    if siblingOnLeft then Node(h, sibling, current) else Node(h, current, sibling)
  }

  /** What a verifier reaches after walking up from `leaf` along all of `proof`. */
  function Climb(h: Hash, leaf: Digest, proof: seq<Digest>, flags: nat): Digest
  {
    if proof == [] then leaf
    else
      var k := |proof| - 1;
      Combine(h, Climb(h, leaf, proof[..k], flags), proof[k], Bit(flags, k))
  }

  predicate Verifies(h: Hash, leaf: Digest, proof: seq<Digest>, flags: nat, root: Digest) {
    |proof| <= MAX_MERKLE_PROOF_DEPTH && Climb(h, leaf, proof, flags) == root
  }

  /** The contract's check. */
  method VerifyMerkleProof(h: Hash, leaf: Digest, proof: seq<Digest>, flags: nat, root: Digest)
    returns (ok: bool)
    ensures ok <==> Verifies(h, leaf, proof, flags, root)
    ensures ok <==> |proof| <= 30 && Climb(h, leaf, proof, flags) == root
  {
    if |proof| > MAX_MERKLE_PROOF_DEPTH {
      return false;
    }
    var current := leaf;
    for i := 0 to |proof|
      invariant current == Climb(h, leaf, proof[..i], flags)
    {
      assert proof[..i + 1][..i] == proof[..i];
      current := Combine(h, current, proof[i], ShiftRight(flags, i) % 2 == 1);
    }
    assert proof[..|proof|] == proof;
    ok := current == root;
  }

  // Building the tree bottom-up. `Forest` says which trees the digests of a level stand for.

  ghost predicate Forest(h: Hash, level: seq<Digest>, trees: seq<Tree>, height: nat) {
    && |level| == |trees|
    && forall i :: 0 <= i < |trees| ==> level[i] == RootOf(h, trees[i]) && Perfect(trees[i], height)
  }

  ghost function AllTips(trees: seq<Tree>): seq<Digest> {
    if trees == [] then [] else AllTips(trees[..|trees| - 1]) + Tips(trees[|trees| - 1])
  }

  ghost function PairUp(trees: seq<Tree>, n: nat): (paired: seq<Tree>)
    requires |trees| == 2 * n
    ensures |paired| == n
  {
    if n == 0 then []
    else PairUp(trees[..2 * n - 2], n - 1) + [Fork(trees[2 * n - 2], trees[2 * n - 1])]
  }

  lemma {:induction false} PairUpAt(trees: seq<Tree>, n: nat, i: nat)
    requires |trees| == 2 * n && i < n
    ensures PairUp(trees, n)[i] == Fork(trees[2 * i], trees[2 * i + 1])
    decreases n
  {
    if i < n - 1 {
      PairUpAt(trees[..2 * n - 2], n - 1, i);
    }
  }

  /** Pairing neighbours keeps the tips and their order. */
  lemma {:induction false} PairUpKeepsTips(trees: seq<Tree>, n: nat)
    requires |trees| == 2 * n
    ensures AllTips(PairUp(trees, n)) == AllTips(trees)
  {
    if n > 0 {
      var fewer := trees[..2 * n - 2];
      PairUpKeepsTips(fewer, n - 1);
      assert trees[..2 * n - 1][..2 * n - 2] == fewer;
      assert PairUp(trees, n)[..n - 1] == PairUp(fewer, n - 1);
      assert AllTips(trees) == AllTips(fewer) + Tips(trees[2 * n - 2]) + Tips(trees[2 * n - 1]);
    }
  }

  ghost function TipTrees(leaves: seq<Digest>): (trees: seq<Tree>)
    ensures |trees| == |leaves|
    ensures forall i :: 0 <= i < |trees| ==> trees[i] == Tip(leaves[i])
    ensures AllTips(trees) == leaves
  {
    if leaves == [] then []
    else
      var k := |leaves| - 1;
      var trees := TipTrees(leaves[..k]) + [Tip(leaves[k])];
      assert trees[..k] == TipTrees(leaves[..k]);
      trees
  }

  /** One level of the source's inner loop. */
  method HashPairs(h: Hash, level: seq<Digest>, ghost trees: seq<Tree>, ghost height: nat, ghost n: nat)
    returns (next: seq<Digest>)
    requires Forest(h, level, trees, height) && |level| == 2 * n
    ensures Forest(h, next, PairUp(trees, n), height + 1)
  {
    next := [];
    var i := 0;
    while i < |level|
      invariant i == 2 * |next| <= |level|
      invariant forall j :: 0 <= j < |next| ==> next[j] == RootOf(h, Fork(trees[2 * j], trees[2 * j + 1]))
    {
      next := next + [Node(h, level[i], level[i + 1])];
      i := i + 2;
    }
    forall j | 0 <= j < n
      ensures next[j] == RootOf(h, PairUp(trees, n)[j]) && Perfect(PairUp(trees, n)[j], height + 1)
    {
      PairUpAt(trees, n, j);
    }
  }

  /** The state of both builders after `height` of `depth` levels. */
  ghost predicate Built(h: Hash, leaves: seq<Digest>, depth: nat, level: seq<Digest>, trees: seq<Tree>, height: nat)
  {
    && height <= depth
    && |level| == Pow2(depth - height)
    && Forest(h, level, trees, height)
    && AllTips(trees) == leaves
  }

  lemma BuiltStep(h: Hash, leaves: seq<Digest>, depth: nat, level: seq<Digest>, trees: seq<Tree>, height: nat,
                  n: nat, next: seq<Digest>)
    requires Built(h, leaves, depth, level, trees, height) && |level| > 1
    requires n == Pow2(depth - height) / 2
    requires |level| == 2 * n && Forest(h, next, PairUp(trees, n), height + 1)
    ensures Built(h, leaves, depth, next, PairUp(trees, n), height + 1)
  {
    PairUpKeepsTips(trees, n);
  }

  lemma BuiltDone(h: Hash, leaves: seq<Digest>, depth: nat, level: seq<Digest>, trees: seq<Tree>, height: nat)
    requires Built(h, leaves, depth, level, trees, height) && |level| <= 1
    ensures height == depth && |level| == |trees| == 1
    ensures TreeOver(trees[0], depth, leaves) && level[0] == RootOf(h, trees[0])
  {
    assert AllTips(trees) == AllTips(trees[..0]) + Tips(trees[0]);
  }

  lemma LevelIsEven(level: seq<Digest>, rest: nat) returns (n: nat)
    requires |level| == Pow2(rest) && |level| > 1
    ensures rest > 0 && n == Pow2(rest) / 2 && |level| == 2 * n
  {
    n := Pow2(rest - 1);
  }

  lemma BuiltStart(h: Hash, leaves: seq<Digest>, depth: nat)
    requires |leaves| == Pow2(depth)
    ensures Built(h, leaves, depth, leaves, TipTrees(leaves), 0)
  {
  }

  lemma BuiltLevel(h: Hash, leaves: seq<Digest>, depth: nat, level: seq<Digest>, trees: seq<Tree>, height: nat) returns (n: nat)
    requires Built(h, leaves, depth, level, trees, height) && |level| > 1
    ensures height < depth && n == Pow2(depth - height) / 2 && |level| == 2 * n && Forest(h, level, trees, height)
  {
    n := LevelIsEven(level, depth - height);
  }

  /** The level-by-level loop computes the root of the tree over the leaves. */
  method BuildMerkleRoot(h: Hash, leaves: seq<Digest>, ghost depth: nat) returns (root: Digest, ghost tree: Tree)
    requires |leaves| == Pow2(depth)
    ensures TreeOver(tree, depth, leaves)
    ensures forall t :: TreeOver(t, depth, leaves) ==> root == RootOf(h, t)
  {
    var level := leaves;
    ghost var trees, height: nat := TipTrees(leaves), 0;
    BuiltStart(h, leaves, depth);
    while |level| > 1
      invariant Built(h, leaves, depth, level, trees, height)
      decreases depth - height
    {
      ghost var n := BuiltLevel(h, leaves, depth, level, trees, height);
      var next := HashPairs(h, level, trees, height, n);
      BuiltStep(h, leaves, depth, level, trees, height, n, next);
      level, trees, height := next, PairUp(trees, n), height + 1;
    }
    BuiltDone(h, leaves, depth, level, trees, height);
    root, tree := level[0], trees[0];
    RootOfAny(h, leaves, depth, tree);
  }

  lemma RootOfAny(h: Hash, leaves: seq<Digest>, depth: nat, tree: Tree)
    requires TreeOver(tree, depth, leaves)
    ensures forall t :: TreeOver(t, depth, leaves) ==> RootOf(h, tree) == RootOf(h, t)
  {
    forall t | TreeOver(t, depth, leaves) ensures RootOf(h, tree) == RootOf(h, t) {
      TreeOverUnique(t, tree, depth, leaves);
    }
  }

  function Sibling(idx: nat): (s: nat)
    ensures s / 2 == idx / 2 && s != idx
  {
    if idx % 2 == 1 then idx - 1 else idx + 1
  }

  /** Where the proof builder stands after `|proof|` levels: `idx` is the node above
      leaf `index` at this level, and `proof` climbs to it. */
  ghost predicate Climbed(h: Hash, leaf: Digest, index: nat, node: Digest, idx: nat, proof: seq<Digest>, flags: nat)
  {
    && idx == ShiftRight(index, |proof|)
    && flags == LowBits(index, |proof|)
    && Climb(h, leaf, proof, index) == node
  }

  /** Appending the sibling of the node reached so far climbs to its parent. */
  lemma ClimbOneLevel(h: Hash, leaf: Digest, index: nat, node: Digest, idx: nat, proof: seq<Digest>, flags: nat,
                      sibling: Digest)
    requires Climbed(h, leaf, index, node, idx, proof, flags)
    ensures Climbed(h, leaf, index, Combine(h, node, sibling, idx % 2 == 1), idx / 2, proof + [sibling],
                    flags + if idx % 2 == 1 then Pow2(|proof|) else 0)
  {
    var k := |proof|;
    var longer := proof + [sibling];
    assert longer[..k] == proof && |longer| == k + 1;
    assert ShiftRight(index, k + 1) == idx / 2;
    assert LowBits(index, k + 1) == flags + if idx % 2 == 1 then Pow2(k) else 0;
  }

  lemma ParentDigest(h: Hash, level: seq<Digest>, trees: seq<Tree>, height: nat, n: nat, next: seq<Digest>, idx: nat)
    requires Forest(h, level, trees, height) && |level| == 2 * n && idx < |level|
    requires Forest(h, next, PairUp(trees, n), height + 1)
    ensures idx / 2 < n && Sibling(idx) < |level|
    ensures next[idx / 2] == Combine(h, level[idx], level[Sibling(idx)], idx % 2 == 1)
  {
    var j := idx / 2;
    assert idx == 2 * j + idx % 2;
    PairUpAt(trees, n, j);
    assert next[j] == Node(h, level[2 * j], level[2 * j + 1]);
  }

  /** The state of the proof builder's loop. */
  ghost predicate Proving(h: Hash, leaves: seq<Digest>, depth: nat, index: nat, level: seq<Digest>, trees: seq<Tree>,
                          idx: nat, proof: seq<Digest>, flags: nat)
  {
    && Built(h, leaves, depth, level, trees, |proof|)
    && index < |leaves| && idx < |level| && Climbed(h, leaves[index], index, level[idx], idx, proof, flags)
  }

  lemma ProveOneLevel(h: Hash, leaves: seq<Digest>, depth: nat, index: nat, level: seq<Digest>, trees: seq<Tree>,
                      idx: nat, proof: seq<Digest>, flags: nat, n: nat, next: seq<Digest>)
    requires Proving(h, leaves, depth, index, level, trees, idx, proof, flags)
    requires |level| == 2 * n && |level| > 1 && Forest(h, next, PairUp(trees, n), |proof| + 1)
    ensures Sibling(idx) < |level| && |proof| < depth
    ensures Proving(h, leaves, depth, index, next, PairUp(trees, n), idx / 2, proof + [level[Sibling(idx)]],
                    flags + if idx % 2 == 1 then Pow2(|proof|) else 0)
  {
    BuiltStep(h, leaves, depth, level, trees, |proof|, n, next);
    ParentDigest(h, level, trees, |proof|, n, next, idx);
    ClimbOneLevel(h, leaves[index], index, level[idx], idx, proof, flags, level[Sibling(idx)]);
  }

  lemma Proved(h: Hash, leaves: seq<Digest>, depth: nat, index: nat, level: seq<Digest>, trees: seq<Tree>,
               idx: nat, proof: seq<Digest>, flags: nat, tree: Tree)
    requires Proving(h, leaves, depth, index, level, trees, idx, proof, flags) && |level| <= 1
    requires |leaves| == Pow2(depth) && TreeOver(tree, depth, leaves)
    ensures |proof| == depth && flags == index
    ensures Climb(h, leaves[index], proof, flags) == RootOf(h, tree)
  {
    BuiltDone(h, leaves, depth, level, trees, |proof|);
    TreeOverUnique(tree, trees[0], depth, leaves);
    ClimbedAll(h, leaves[index], index, level[0], proof, flags);
  }

  lemma ClimbedAll(h: Hash, leaf: Digest, index: nat, node: Digest, proof: seq<Digest>, flags: nat)
    requires Climbed(h, leaf, index, node, 0, proof, flags) && index < Pow2(|proof|)
    ensures flags == index && Climb(h, leaf, proof, flags) == node
  {
    FitsInBits(index, |proof|);
  }

  /** The proof the source builds for position `index`: it climbs from that leaf to the
      root of the tree, and the returned flags are the index itself. */
  method BuildMerkleProof(h: Hash, leaves: seq<Digest>, index: nat, ghost depth: nat, ghost tree: Tree)
    returns (proof: seq<Digest>, flags: nat)
    requires |leaves| == Pow2(depth) && depth <= 32
    requires index < |leaves|
    requires TreeOver(tree, depth, leaves)
    ensures |proof| == depth
    ensures flags == index
    ensures Climb(h, leaves[index], proof, flags) == RootOf(h, tree)
  {
    var level := leaves;
    proof, flags := [], 0;
    var idx: nat := index;
    ghost var trees := TipTrees(leaves);
    while |level| > 1
      invariant Proving(h, leaves, depth, index, level, trees, idx, proof, flags)
      decreases depth - |proof|
    {
      ghost var n := LevelIsEven(level, depth - |proof|);
      var next := HashPairs(h, level, trees, |proof|, n);
      ProveOneLevel(h, leaves, depth, index, level, trees, idx, proof, flags, n, next);
      if idx % 2 == 1 {
        flags := flags + Pow2(|proof|);
      }
      proof := proof + [level[Sibling(idx)]];
      level, idx, trees := next, idx / 2, PairUp(trees, n);
    }
    Proved(h, leaves, depth, index, level, trees, idx, proof, flags, tree);
  }

  // Forgery.

  ghost predicate InjectiveOn(h: Hash, strings: set<ByteString>) {
    forall x, y :: x in strings && y in strings && h(x) == h(y) ==> x == y
  }

  /** Strings hashed while building `t` above its leaves. */
  ghost function NodeStrings(h: Hash, t: Tree): set<ByteString> {
    match t
    case Tip(_) => {}
    case Fork(l, r) => NodeStrings(h, l) + NodeStrings(h, r) + {NodePreimage(RootOf(h, l), RootOf(h, r))}
  }

  ghost function LeafStrings(commitments: seq<Digest>): set<ByteString> {
    set i | 0 <= i < |commitments| :: LeafPreimage(commitments[i])
  }

  /** The last string a non-empty climb hashes. */
  ghost function TopString(h: Hash, leaf: Digest, proof: seq<Digest>, flags: nat): (s: ByteString)
    requires proof != []
    ensures h(s) == Climb(h, leaf, proof, flags)
    ensures |s| > 0 && s[0] == 1
  {
    var k := |proof| - 1;
    var current := Climb(h, leaf, proof[..k], flags);
    if Bit(flags, k) then NodePreimage(proof[k], current) else NodePreimage(current, proof[k])
  }

  /** Strings hashed while climbing `proof`. */
  ghost function ClimbStrings(h: Hash, leaf: Digest, proof: seq<Digest>, flags: nat): set<ByteString>
  {
    if proof == [] then {}
    else ClimbStrings(h, leaf, proof[..|proof| - 1], flags) + {TopString(h, leaf, proof, flags)}
  }

  lemma NodePreimageInjective(l: Digest, r: Digest, l': Digest, r': Digest)
    requires NodePreimage(l, r) == NodePreimage(l', r')
    ensures l == l' && r == r'
  {
    assert NodePreimage(l, r)[1..33] == l.bytes && NodePreimage(l', r')[1..33] == l'.bytes;
    assert NodePreimage(l, r)[33..] == r.bytes && NodePreimage(l', r')[33..] == r'.bytes;
  }

  lemma LeafPreimageInjective(c: Digest, c': Digest)
    requires LeafPreimage(c) == LeafPreimage(c')
    ensures c == c'
  {
    assert LeafPreimage(c)[1..] == c.bytes && LeafPreimage(c')[1..] == c'.bytes;
  }

  /** `d` is the hash of a leaf string among `strings`. */
  ghost predicate IsLeafDigest(h: Hash, strings: set<ByteString>, d: Digest) {
    exists c :: LeafPreimage(c) in strings && d == Leaf(h, c)
  }

  /** A leaf string and a node string start with different prefixes, so a hash that is
      injective on both keeps them apart. */
  lemma LeafIsNotNode(h: Hash, strings: set<ByteString>, leaf: Digest, node: ByteString)
    requires InjectiveOn(h, strings) && IsLeafDigest(h, strings, leaf)
    requires node in strings && |node| > 0 && node[0] == 1
    ensures leaf != h(node)
  {
    var c :| LeafPreimage(c) in strings && leaf == Leaf(h, c);
    assert LeafPreimage(c)[0] != node[0];
  }

  lemma LeafIsNotClimb(h: Hash, strings: set<ByteString>, tip: Digest, leaf: Digest, proof: seq<Digest>, flags: nat)
    requires InjectiveOn(h, strings) && IsLeafDigest(h, strings, tip)
    requires ClimbStrings(h, leaf, proof, flags) <= strings
    ensures proof != [] ==> tip != Climb(h, leaf, proof, flags)
  {
    if proof != [] {
      LeafIsNotNode(h, strings, tip, TopString(h, leaf, proof, flags));
    }
  }

  /** The tip reached from the root by turning right at every set bit of `flags`. */
  function TipAt(t: Tree, depth: nat, flags: nat): Digest
    requires Perfect(t, depth)
  {
    match t
    case Tip(d) => d
    case Fork(l, r) => TipAt(if Bit(flags, depth - 1) then r else l, depth - 1, flags)
  }

  lemma {:induction false} TipAtLowBits(t: Tree, depth: nat, flags: nat)
    requires Perfect(t, depth)
    ensures |Tips(t)| == Pow2(depth) && TipAt(t, depth, flags) == Tips(t)[LowBits(flags, depth)]
  {
    PerfectSize(t, depth);
    match t
    case Tip(_) =>
    case Fork(l, r) =>
      PerfectSize(l, depth - 1);
      TipAtLowBits(if Bit(flags, depth - 1) then r else l, depth - 1, flags);
  }

  lemma {:induction false} ClimbReachesTip(h: Hash, strings: set<ByteString>, t: Tree, depth: nat,
                                           leaf: Digest, proof: seq<Digest>, flags: nat)
    requires Perfect(t, depth)
    requires InjectiveOn(h, strings)
    requires NodeStrings(h, t) <= strings && ClimbStrings(h, leaf, proof, flags) <= strings
    requires IsLeafDigest(h, strings, leaf)
    requires forall i :: 0 <= i < |Tips(t)| ==> IsLeafDigest(h, strings, Tips(t)[i])
    requires Climb(h, leaf, proof, flags) == RootOf(h, t)
    ensures |proof| == depth && leaf == TipAt(t, depth, flags)
  {
    match t
    case Tip(d) =>
      assert Tips(t)[0] == d;
      LeafIsNotClimb(h, strings, d, leaf, proof, flags);
    case Fork(l, r) =>
      var lr, rr := RootOf(h, l), RootOf(h, r);
      LeafIsNotNode(h, strings, leaf, NodePreimage(lr, rr));
      if proof != [] {
        var k := |proof| - 1;
        var current := Climb(h, leaf, proof[..k], flags);
        assert TopString(h, leaf, proof, flags) == NodePreimage(lr, rr);
        if Bit(flags, k) {
          NodePreimageInjective(proof[k], current, lr, rr);
          assert forall i :: 0 <= i < |Tips(r)| ==> Tips(r)[i] == Tips(t)[|Tips(l)| + i];
          ClimbReachesTip(h, strings, r, depth - 1, leaf, proof[..k], flags);
        } else {
          NodePreimageInjective(current, proof[k], lr, rr);
          assert forall i :: 0 <= i < |Tips(l)| ==> Tips(l)[i] == Tips(t)[i];
          ClimbReachesTip(h, strings, l, depth - 1, leaf, proof[..k], flags);
        }
      }
  }

  function Leaves(h: Hash, commitments: seq<Digest>): (ls: seq<Digest>)
    ensures |ls| == |commitments|
    ensures forall i :: 0 <= i < |ls| ==> ls[i] == Leaf(h, commitments[i])
  {
    seq(|commitments|, i requires 0 <= i < |commitments| => Leaf(h, commitments[i]))
  }

  /** Every string that building the tree over `commitments` and checking `proof` for
      `commitment` hash. */
  ghost function HashedStrings(h: Hash, tree: Tree, commitments: seq<Digest>,
                               commitment: Digest, proof: seq<Digest>, flags: nat): set<ByteString>
  {
    LeafStrings(commitments) + NodeStrings(h, tree)
    + {LeafPreimage(commitment)} + ClimbStrings(h, Leaf(h, commitment), proof, flags)
  }

  lemma LeavesAreLeafDigests(h: Hash, strings: set<ByteString>, commitments: seq<Digest>)
    requires LeafStrings(commitments) <= strings
    ensures forall i :: 0 <= i < |commitments| ==> IsLeafDigest(h, strings, Leaves(h, commitments)[i])
  {
    forall i | 0 <= i < |commitments|
      ensures IsLeafDigest(h, strings, Leaves(h, commitments)[i])
    {
      assert LeafPreimage(commitments[i]) in LeafStrings(commitments);
    }
  }

  lemma LeafDetermines(h: Hash, strings: set<ByteString>, commitments: seq<Digest>, i: nat, commitment: Digest)
    requires InjectiveOn(h, strings) && LeafStrings(commitments) <= strings && LeafPreimage(commitment) in strings
    requires i < |commitments| && Leaf(h, commitment) == Leaf(h, commitments[i])
    ensures commitment == commitments[i]
  {
    assert LeafPreimage(commitments[i]) in LeafStrings(commitments);
    LeafPreimageInjective(commitment, commitments[i]);
  }

  lemma ClimbSoundWithin(h: Hash, strings: set<ByteString>, commitments: seq<Digest>, depth: nat, tree: Tree,
                         commitment: Digest, proof: seq<Digest>, flags: nat)
    requires |commitments| == Pow2(depth)
    requires TreeOver(tree, depth, Leaves(h, commitments))
    requires InjectiveOn(h, strings)
    requires LeafStrings(commitments) <= strings && NodeStrings(h, tree) <= strings
    requires LeafPreimage(commitment) in strings && ClimbStrings(h, Leaf(h, commitment), proof, flags) <= strings
    requires Climb(h, Leaf(h, commitment), proof, flags) == RootOf(h, tree)
    ensures |proof| == depth
    ensures commitment == commitments[LowBits(flags, depth)]
  {
    LeavesAreLeafDigests(h, strings, commitments);
    ClimbReachesTip(h, strings, tree, depth, Leaf(h, commitment), proof, flags);
    TipAtLowBits(tree, depth, flags);
    LeafDetermines(h, strings, commitments, LowBits(flags, depth), commitment);
  }

  /** No forgery: if any commitment and any proof, of any length and with any flags,
      climb to the root, then the proof has exactly the depth of the tree and the
      commitment is the one at the position the low bits of the flags name. */
  lemma ClimbSound(h: Hash, commitments: seq<Digest>, depth: nat, tree: Tree,
                   commitment: Digest, proof: seq<Digest>, flags: nat)
    requires |commitments| == Pow2(depth)
    requires TreeOver(tree, depth, Leaves(h, commitments))
    requires InjectiveOn(h, HashedStrings(h, tree, commitments, commitment, proof, flags))
    requires Climb(h, Leaf(h, commitment), proof, flags) == RootOf(h, tree)
    ensures |proof| == depth
    ensures commitment == commitments[LowBits(flags, depth)]
  {
    ClimbSoundWithin(h, HashedStrings(h, tree, commitments, commitment, proof, flags),
                     commitments, depth, tree, commitment, proof, flags);
  }

  // The batch as a whole.

  /** `commitments` with its last element repeated up to length `size`. */
  function PadTail(commitments: seq<Digest>, size: nat): (padded: seq<Digest>)
    requires 0 < |commitments| <= size
    ensures |padded| == size && commitments <= padded
    ensures forall i :: |commitments| <= i < size ==> padded[i] == commitments[|commitments| - 1]
    decreases size - |commitments|
  {
    if |commitments| == size then commitments
    else PadTail(commitments + [commitments[|commitments| - 1]], size)
  }

  lemma Pow2Of31()
    ensures Pow2(31) == 0x8000_0000
  {
    assert Pow2(7) == 128 && Pow2(8) == 256;
    Pow2Add(8, 8);
    Pow2Add(16, 8);
    Pow2Add(24, 7);
  }

  /** The least power of two not below `n`. The loop's `u32` doubling stays in range
      exactly when `n` is at most 2^31. */
  method NextPow2(n: nat) returns (p: nat, ghost depth: nat)
    requires n <= 0x8000_0000
    ensures p == Pow2(depth) && n <= p <= 0x8000_0000
    ensures depth > 0 ==> Pow2(depth - 1) < n
  {
    Pow2Of31();
    p, depth := 1, 0;
    while p < n
      invariant p == Pow2(depth) && depth <= 31
      invariant depth > 0 ==> Pow2(depth - 1) < n
      decreases n - p
    {
      if depth >= 31 {
        Pow2Mono(31, depth);
      }
      p := p * 2;
      depth := depth + 1;
    }
    Pow2Mono(depth, 31);
  }

  lemma ShallowDepth(depth: nat)
    requires depth > 0 ==> Pow2(depth - 1) < MAX_BATCH
    ensures depth <= 5
  {
    if depth > 5 {
      Pow2Mono(5, depth - 1);
    }
  }

  /** The leaf list of a batch, padded by repeating its last leaf. */
  method BuildLeaves(h: Hash, commitments: seq<Digest>, padded: nat) returns (leaves: seq<Digest>)
    requires 0 < |commitments| <= padded
    ensures leaves == Leaves(h, PadTail(commitments, padded))
  {
    leaves := [];
    for i := 0 to |commitments|
      invariant |leaves| == i
      invariant forall j :: 0 <= j < i ==> leaves[j] == Leaf(h, commitments[j])
    {
      leaves := leaves + [Leaf(h, commitments[i])];
    }
    while |leaves| < padded
      invariant |commitments| <= |leaves| <= padded
      invariant forall j :: 0 <= j < |leaves| ==> leaves[j] == Leaf(h, PadTail(commitments, padded)[j])
    {
      leaves := leaves + [leaves[|leaves| - 1]];
    }
  }

  datatype ProvenEntry = ProvenEntry(commitment: Digest, proof: seq<Digest>, flags: nat)

  predicate EntryAccepted(h: Hash, entry: ProvenEntry, root: Digest) {
    Verifies(h, Leaf(h, entry.commitment), entry.proof, entry.flags, root)
  }

  lemma LeafOf(h: Hash, commitments: seq<Digest>, size: nat, i: nat)
    requires i < |commitments| <= size
    ensures Leaves(h, PadTail(commitments, size))[i] == Leaf(h, commitments[i])
  {
  }

  /** Builds every entry's proof for one batch. Every entry is accepted against the root,
      and the commitments are kept in order. */
  method BuildChunk(h: Hash, commitments: seq<Digest>)
    returns (entries: seq<ProvenEntry>, root: Digest, ghost depth: nat, ghost tree: Tree)
    requires 0 < |commitments| <= MAX_BATCH
    ensures depth <= 5 && |commitments| <= Pow2(depth)
    ensures TreeOver(tree, depth, Leaves(h, PadTail(commitments, Pow2(depth)))) && root == RootOf(h, tree)
    ensures |entries| == |commitments|
    ensures forall i :: 0 <= i < |entries| ==>
              && entries[i].commitment == commitments[i]
              && entries[i].flags == i
              && EntryAccepted(h, entries[i], root)
  {
    var padded;
    padded, depth := NextPow2(|commitments|);
    ShallowDepth(depth);
    var leaves := BuildLeaves(h, commitments, padded);
    root, tree := BuildMerkleRoot(h, leaves, depth);
    entries := [];
    for i := 0 to |commitments|
      invariant |entries| == i
      invariant forall j :: 0 <= j < i ==>
                  && entries[j].commitment == commitments[j]
                  && entries[j].flags == j
                  && EntryAccepted(h, entries[j], root)
    {
      var proof, flags := BuildMerkleProof(h, leaves, i, depth, tree);
      LeafOf(h, commitments, padded, i);
      entries := entries + [ProvenEntry(commitments[i], proof, flags)];
    }
  }

  /** Padding gives nothing away: whatever the contract accepts against a batch's root is
      one of the batch's own commitments. */
  lemma AcceptedEntryIsInBatch(h: Hash, commitments: seq<Digest>, depth: nat, tree: Tree, entry: ProvenEntry)
    requires 0 < |commitments| <= Pow2(depth)
    requires TreeOver(tree, depth, Leaves(h, PadTail(commitments, Pow2(depth))))
    requires InjectiveOn(h, HashedStrings(h, tree, PadTail(commitments, Pow2(depth)),
                                          entry.commitment, entry.proof, entry.flags))
    requires EntryAccepted(h, entry, RootOf(h, tree))
    ensures entry.commitment in commitments
    ensures |entry.proof| == depth
  {
    ClimbSound(h, PadTail(commitments, Pow2(depth)), depth, tree, entry.commitment, entry.proof, entry.flags);
  }
}
