/**
  The batch Merkle root of services/ingestor/merkle.py.

  The program hashes bottom-up, one level at a time, duplicating the last node of an odd
  level. `Build` is the same tree read top-down, by halving the leaves; it never mentions
  levels, and is the reference the loop is proved against.

  SHA-256 is a parameter `h`. Nothing here assumes that it has no collisions: the binding
  theorems find a collision among the inputs that were hashed for the two batches.
 */
module Merkle {

  newtype Byte = b: int | 0 <= b < 256
  type Bytes = seq<Byte>
  type HashFn = Bytes -> Bytes

  const DIGEST_LENGTH := 32

  datatype RootResult =
    | Root(digest: Bytes)
    | NoLeaves
    | BadLeafLength

  // --- The tree, top-down ---

  datatype Tree = Leaf(digest: Bytes) | Fork(left: Tree, right: Tree)

  function Node(h: HashFn, left: Bytes, right: Bytes): Bytes {
    h(left + right)
  }

  function Value(h: HashFn, t: Tree): Bytes {
    match t
    case Leaf(d) => d
    case Fork(l, r) => Node(h, Value(h, l), Value(h, r))
  }

  function Pow2(k: nat): (r: nat)
    ensures 1 <= r
  {
    if k == 0 then 1 else 2 * Pow2(k - 1)
  }

  /** The height of the tree over n leaves: the least k with n <= 2^k. */
  function Height(n: nat): (k: nat)
    requires 1 <= n
    ensures n <= Pow2(k)
    ensures k > 0 ==> Pow2(k - 1) < n
  {
    if n == 1 then 0 else
      var k := Height((n + 1) / 2);
      assert k > 0 ==> Pow2(k) == 2 * Pow2(k - 1);
      k + 1
  }

  /** The tree of height k over the leaves: a missing right half is a copy of the left half. */
  function Build(leaves: seq<Bytes>, k: nat): Tree
    requires 1 <= |leaves| <= Pow2(k)
    decreases k
  {
    if k == 0 then Leaf(leaves[0])
    else if |leaves| <= Pow2(k - 1) then
      Fork(Build(leaves, k - 1), Build(leaves, k - 1))
    else
      Fork(Build(leaves[..Pow2(k - 1)], k - 1), Build(leaves[Pow2(k - 1)..], k - 1))
  }

  /** The root that an anchor row commits to. */
  function RootOf(h: HashFn, leaves: seq<Bytes>): Bytes
    requires leaves != []
  {
    Value(h, Build(leaves, Height(|leaves|)))
  }

  // --- One level, bottom-up ---

  function Parent(h: HashFn, level: seq<Bytes>, j: nat): Bytes
    requires 2 * j < |level|
  {
    Node(h, level[2 * j], if 2 * j + 1 < |level| then level[2 * j + 1] else level[2 * j])
  }

  function Parents(h: HashFn, level: seq<Bytes>): (r: seq<Bytes>)
    ensures |r| == (|level| + 1) / 2
    ensures forall j :: 0 <= j < |r| ==> r[j] == Parent(h, level, j)
  {
    seq((|level| + 1) / 2, j requires 0 <= j < (|level| + 1) / 2 => Parent(h, level, j))
  }

  lemma ParentsSplit(h: HashFn, level: seq<Bytes>, q: nat)
    requires 2 * q < |level|
    ensures Parents(h, level[..2 * q]) == Parents(h, level)[..q]
    ensures Parents(h, level[2 * q..]) == Parents(h, level)[q..]
  {
    var up, lo, hi := Parents(h, level), level[..2 * q], level[2 * q..];
    forall j | 0 <= j < |up| - q ensures Parents(h, hi)[j] == up[q..][j] {
      assert hi[2 * j] == level[2 * (q + j)];
      assert Parent(h, hi, j) == Parent(h, level, q + j);
    }
    forall j | 0 <= j < q ensures Parents(h, lo)[j] == up[..q][j] {
      assert Parent(h, lo, j) == Parent(h, level, j);
    }
  }

  lemma BuildForks(leaves: seq<Bytes>, k: nat)
    requires k > 0 && Pow2(k - 1) < |leaves| <= Pow2(k)
    ensures Build(leaves, k)
         == Fork(Build(leaves[..Pow2(k - 1)], k - 1), Build(leaves[Pow2(k - 1)..], k - 1))
  {
  }

  lemma ValueForks(h: HashFn, t: Tree, l: Tree, r: Tree)
    requires t == Fork(l, r)
    ensures Value(h, t) == Node(h, Value(h, l), Value(h, r))
  {
  }

  /** Hashing one level away leaves the root alone. */
  lemma {:induction false} ParentsKeepRoot(h: HashFn, level: seq<Bytes>, k: nat)
    requires k > 0 && 1 <= |level| <= Pow2(k)
    ensures |Parents(h, level)| <= Pow2(k - 1)
    ensures Value(h, Build(Parents(h, level), k - 1)) == Value(h, Build(level, k))
    decreases k
  {
    if k == 1 {
      assert Parents(h, level)[0] == Parent(h, level, 0);
    } else if |level| <= Pow2(k - 1) {
      ParentsKeepRoot(h, level, k - 1);
    } else {
      ParentsKeepWideRoot(h, level, k);
    }
  }

  lemma {:induction false} ParentsKeepWideRoot(h: HashFn, level: seq<Bytes>, k: nat)
    requires k > 1 && Pow2(k - 1) < |level| <= Pow2(k)
    ensures |Parents(h, level)| <= Pow2(k - 1)
    ensures Value(h, Build(Parents(h, level), k - 1)) == Value(h, Build(level, k))
    decreases k, 0
  {
    var lo, hi := level[..Pow2(k - 1)], level[Pow2(k - 1)..];
    ParentsKeepRoot(h, lo, k - 1);
    ParentsKeepRoot(h, hi, k - 1);
    HalvesKeepRoot(h, level, k, Parents(h, lo), Parents(h, hi));
  }

  lemma HalvesKeepRoot(h: HashFn, level: seq<Bytes>, k: nat, lo: seq<Bytes>, hi: seq<Bytes>)
    requires k > 1 && Pow2(k - 1) < |level| <= Pow2(k)
    requires lo == Parents(h, level[..Pow2(k - 1)]) && hi == Parents(h, level[Pow2(k - 1)..])
    requires |lo| <= Pow2(k - 2) && |hi| <= Pow2(k - 2)
    requires Value(h, Build(lo, k - 2)) == Value(h, Build(level[..Pow2(k - 1)], k - 1))
    requires Value(h, Build(hi, k - 2)) == Value(h, Build(level[Pow2(k - 1)..], k - 1))
    ensures |Parents(h, level)| <= Pow2(k - 1)
    ensures Value(h, Build(Parents(h, level), k - 1)) == Value(h, Build(level, k))
  {
    var up, quarter := Parents(h, level), Pow2(k - 2);
    HalfLength(|level|, quarter);
    ParentsSplit(h, level, quarter);
    assert up[..quarter] == lo && up[quarter..] == hi;
    WideRoot(h, up, k - 1);
    WideRoot(h, level, k);
  }

  lemma HalfLength(n: nat, q: nat)
    requires 2 * q < n <= 4 * q
    ensures q < (n + 1) / 2 <= 2 * q
  {
  }

  lemma WideRoot(h: HashFn, level: seq<Bytes>, k: nat)
    requires k > 0 && Pow2(k - 1) < |level| <= Pow2(k)
    ensures Value(h, Build(level, k)) ==
              Node(h, Value(h, Build(level[..Pow2(k - 1)], k - 1)), Value(h, Build(level[Pow2(k - 1)..], k - 1)))
  {
    BuildForks(level, k);
    ValueForks(h, Build(level, k), Build(level[..Pow2(k - 1)], k - 1), Build(level[Pow2(k - 1)..], k - 1));
  }

  /** The inner loop of the program: the next level up. */
  method NextLevel(h: HashFn, level: seq<Bytes>) returns (nxt: seq<Bytes>)
    ensures nxt == Parents(h, level)
    ensures |nxt| == (|level| + 1) / 2
    ensures forall j :: 0 <= j < |nxt| ==>
              nxt[j] == h(level[2 * j] + if 2 * j + 1 < |level| then level[2 * j + 1] else level[2 * j])
  {
    nxt := [];
    var i := 0;
    while i < |level|
      invariant i == 2 * |nxt| && i <= |level| + 1
      invariant nxt == Parents(h, level)[..|nxt|]
      decreases |level| + 1 - i
    {
      var left := level[i];
      var right := if i + 1 < |level| then level[i + 1] else level[i];
      assert Parents(h, level)[|nxt|] == Node(h, left, right);
      nxt := nxt + [Node(h, left, right)];
      i := i + 2;
    }
  }

  /** The level-by-level loop of the program computes the top-down root, or names the bad input. */
  method MerkleRootSha256(h: HashFn, leaves: seq<Bytes>) returns (r: RootResult)
    ensures r.NoLeaves? <==> leaves == []
    ensures r.BadLeafLength? <==> exists i :: 0 <= i < |leaves| && |leaves[i]| != 32
    ensures r.Root? ==> leaves != [] && r.digest == RootOf(h, leaves)
  {
    if leaves == [] {
      return NoLeaves;
    }
    for n := 0 to |leaves|
      invariant forall i :: 0 <= i < n ==> |leaves[i]| == DIGEST_LENGTH
    {
      if |leaves[n]| != DIGEST_LENGTH {
        return BadLeafLength;
      }
    }
    var level := leaves;
    ghost var k := Height(|leaves|);
    while |level| > 1
      invariant 1 <= |level| <= Pow2(k)
      invariant k > 0 ==> Pow2(k - 1) < |level|
      invariant Value(h, Build(level, k)) == RootOf(h, leaves)
    {
      var nxt := NextLevel(h, level);
      ParentsKeepRoot(h, level, k);
      assert k > 1 ==> Pow2(k - 1) == 2 * Pow2(k - 2);
      level := nxt;
      k := k - 1;
    }
    r := Root(level[0]);
  }

  // --- What a root commits to ---

  ghost predicate DigestSized(h: HashFn) {
    forall m: Bytes :: |h(m)| == DIGEST_LENGTH
  }

  predicate AllDigests(leaves: seq<Bytes>) {
    forall i :: 0 <= i < |leaves| ==> |leaves[i]| == DIGEST_LENGTH
  }

  predicate Perfect(t: Tree, k: nat) {
    match t
    case Leaf(d) => k == 0 && |d| == DIGEST_LENGTH
    case Fork(l, r) => k > 0 && Perfect(l, k - 1) && Perfect(r, k - 1)
  }

  lemma {:induction false} BuildIsPerfect(leaves: seq<Bytes>, k: nat)
    requires 1 <= |leaves| <= Pow2(k) && AllDigests(leaves)
    ensures Perfect(Build(leaves, k), k)
    decreases k
  {
    if k == 0 {
    } else if |leaves| <= Pow2(k - 1) {
      BuildIsPerfect(leaves, k - 1);
    } else {
      BuildIsPerfect(leaves[..Pow2(k - 1)], k - 1);
      BuildIsPerfect(leaves[Pow2(k - 1)..], k - 1);
    }
  }

  lemma {:induction false} ValueIsDigest(h: HashFn, t: Tree, k: nat)
    requires DigestSized(h) && Perfect(t, k)
    ensures |Value(h, t)| == DIGEST_LENGTH
  {
    match t
    case Leaf(_) =>
    case Fork(l, r) => assert |Node(h, Value(h, l), Value(h, r))| == DIGEST_LENGTH;
  }

  lemma SamePieces<T>(p: seq<T>, q: seq<T>, p': seq<T>, q': seq<T>)
    requires p + q == p' + q' && |p| == |p'|
    ensures p == p' && q == q'
  {
    assert p == (p + q)[..|p|] && q == (p + q)[|p|..];
    assert p' == (p' + q')[..|p|] && q' == (p' + q')[|p|..];
  }

  /** What is hashed on the way to the value of a tree. */
  function Hashed(h: HashFn, t: Tree): set<Bytes> {
    match t
    case Leaf(_) => {}
    case Fork(l, r) => {Value(h, l) + Value(h, r)} + Hashed(h, l) + Hashed(h, r)
  }

  /** The two evaluations themselves contain a collision: x is hashed for a, y for b. */
  ghost predicate Collide(h: HashFn, a: Tree, b: Tree, x: Bytes, y: Bytes) {
    x in Hashed(h, a) && y in Hashed(h, b) && x != y && h(x) == h(y)
  }

  /** Two different trees of one height with one value contain a collision of the hash. */
  lemma {:induction false} EqualRootsCollide(h: HashFn, a: Tree, b: Tree, k: nat) returns (x: Bytes, y: Bytes)
    requires DigestSized(h) && Perfect(a, k) && Perfect(b, k)
    requires Value(h, a) == Value(h, b) && a != b
    ensures Collide(h, a, b, x, y)
  {
    var Fork(al, ar) := a;
    var Fork(bl, br) := b;
    x, y := Value(h, al) + Value(h, ar), Value(h, bl) + Value(h, br);
    if x == y {
      ValueIsDigest(h, al, k - 1);
      ValueIsDigest(h, bl, k - 1);
      SamePieces(Value(h, al), Value(h, ar), Value(h, bl), Value(h, br));
      if al != bl {
        x, y := EqualRootsCollide(h, al, bl, k - 1);
      } else {
        x, y := EqualRootsCollide(h, ar, br, k - 1);
      }
    }
  }

  lemma {:induction false} BuildInjective(a: seq<Bytes>, b: seq<Bytes>, k: nat)
    requires 1 <= |a| == |b| <= Pow2(k)
    requires Build(a, k) == Build(b, k)
    ensures a == b
    decreases k
  {
    var half := if k == 0 then 0 else Pow2(k - 1);
    if k == 0 {
    } else if |a| <= half {
      BuildInjective(a, b, k - 1);
    } else {
      BuildInjective(a[..half], b[..half], k - 1);
      BuildInjective(a[half..], b[half..], k - 1);
      assert a == a[..half] + a[half..] && b == b[..half] + b[half..];
    }
  }

  /**
    A root together with the number of manifests, which every anchor row carries, fixes the
    batch: hashing a second batch of the same size to the same root meets a collision.
   */
  lemma RootAndCountBindBatch(h: HashFn, a: seq<Bytes>, b: seq<Bytes>) returns (x: Bytes, y: Bytes)
    requires DigestSized(h) && AllDigests(a) && AllDigests(b)
    requires 1 <= |a| == |b| && a != b && RootOf(h, a) == RootOf(h, b)
    ensures Collide(h, Build(a, Height(|a|)), Build(b, Height(|b|)), x, y)
  {
    var k := Height(|a|);
    BuildIsPerfect(a, k);
    BuildIsPerfect(b, k);
    if Build(a, k) == Build(b, k) {
      BuildInjective(a, b, k);
      assert false;
    }
    x, y := EqualRootsCollide(h, Build(a, k), Build(b, k), k);
  }

  /** The upper k levels of a tree, with the values of what is below as leaves. */
  function Top(h: HashFn, t: Tree, k: nat): Tree {
    if k == 0 || t.Leaf? then Leaf(Value(h, t)) else Fork(Top(h, t.left, k - 1), Top(h, t.right, k - 1))
  }

  lemma {:induction false} TopKeepsValue(h: HashFn, t: Tree, k: nat)
    ensures Value(h, Top(h, t, k)) == Value(h, t)
    ensures Hashed(h, Top(h, t, k)) <= Hashed(h, t)
  {
    if k > 0 && t.Fork? {
      TopKeepsValue(h, t.left, k - 1);
      TopKeepsValue(h, t.right, k - 1);
    }
  }

  lemma {:induction false} TopIsPerfect(h: HashFn, t: Tree, k: nat, m: nat)
    requires DigestSized(h) && Perfect(t, m) && k <= m
    ensures Perfect(Top(h, t, k), k)
  {
    ValueIsDigest(h, t, m);
    if k > 0 {
      TopIsPerfect(h, t.left, k - 1, m - 1);
      TopIsPerfect(h, t.right, k - 1, m - 1);
    }
  }

  /**
    When two batches share a root: exactly when the tree of the lower one is the top of the tree of the other, or else
    hashing the two meets a collision. For one height that means equal trees: batches that differ at most in copies of
    their last nodes.
   */
  lemma SameRootExactly(h: HashFn, a: seq<Bytes>, b: seq<Bytes>) returns (x: Bytes, y: Bytes)
    requires DigestSized(h) && AllDigests(a) && AllDigests(b)
    requires a != [] && b != [] && Height(|a|) <= Height(|b|)
    ensures var ta, tb := Build(a, Height(|a|)), Build(b, Height(|b|));
            || (RootOf(h, a) == RootOf(h, b) <==> ta == Top(h, tb, Height(|a|)))
            || Collide(h, ta, tb, x, y)
  {
    x, y := [], [];
    var k, m := Height(|a|), Height(|b|);
    var ta, tb := Build(a, k), Build(b, m);
    BuildIsPerfect(a, k);
    BuildIsPerfect(b, m);
    TopIsPerfect(h, tb, k, m);
    TopKeepsValue(h, tb, k);
    if ta != Top(h, tb, k) && RootOf(h, a) == RootOf(h, b) {
      x, y := EqualRootsCollide(h, ta, Top(h, tb, k), k);
    }
  }

  lemma {:induction false} TopOfPerfect(h: HashFn, t: Tree, k: nat)
    requires Perfect(t, k)
    ensures Top(h, t, k) == t
  {
    if k > 0 {
      TopOfPerfect(h, t.left, k - 1);
      TopOfPerfect(h, t.right, k - 1);
    }
  }

  /** Batches of one height: the roots are equal exactly when the trees are, or else hashing them meets a collision. */
  lemma SameHeightExactly(h: HashFn, a: seq<Bytes>, b: seq<Bytes>, k: nat) returns (x: Bytes, y: Bytes)
    requires DigestSized(h) && AllDigests(a) && AllDigests(b)
    requires a != [] && b != [] && k == Height(|a|) == Height(|b|)
    ensures || (RootOf(h, a) == RootOf(h, b) <==> Build(a, k) == Build(b, k))
            || Collide(h, Build(a, k), Build(b, k), x, y)
  {
    x, y := SameRootExactly(h, a, b);
    BuildIsPerfect(b, k);
    TopOfPerfect(h, Build(b, k), k);
  }

  /** Nor do batches of different heights need different roots: a node passes as a leaf, whatever the hash. */
  lemma NodePassesAsLeaf(h: HashFn, x: Bytes, y: Bytes)
    ensures RootOf(h, [h(x + y)]) == RootOf(h, [x, y]) == h(x + y)
  {
    assert Pow2(0) == 1 && Pow2(1) == 2;
    HeightUnique(1, 0);
    HeightUnique(2, 1);
    BuildForks([x, y], 1);
    assert [x, y][..1] == [x] && [x, y][1..] == [y];
    ValueForks(h, Build([x, y], 1), Build([x], 0), Build([y], 0));
  }

  lemma {:induction false} HeightUnique(n: nat, k: nat)
    requires 1 <= n <= Pow2(k)
    requires k > 0 ==> Pow2(k - 1) < n
    ensures Height(n) == k
  {
    if k > 0 {
      assert k > 1 ==> Pow2(k - 1) == 2 * Pow2(k - 2);
      HeightUnique((n + 1) / 2, k - 1);
    }
  }

  /**
    The root alone does not: an odd batch and the same batch with its last leaf repeated
    share a root, whatever the hash.
   */
  lemma RepeatedLastLeafSharesRoot(h: HashFn, leaves: seq<Bytes>)
    requires |leaves| % 2 == 1 && |leaves| > 1
    ensures RootOf(h, leaves + [leaves[|leaves| - 1]]) == RootOf(h, leaves)
  {
    var longer := leaves + [leaves[|leaves| - 1]];
    var k := Height(|leaves|);
    OneMoreFits(|leaves|);
    HeightUnique(|longer|, k);
    SameParents(h, leaves, longer);
    ParentsKeepRoot(h, leaves, k);
    ParentsKeepRoot(h, longer, k);
  }

  lemma OneMoreFits(n: nat)
    requires n % 2 == 1 && n > 1
    ensures Height(n) > 0 && n + 1 <= Pow2(Height(n))
  {
    assert Pow2(Height(n)) == 2 * Pow2(Height(n) - 1);
  }

  lemma SameParents(h: HashFn, leaves: seq<Bytes>, longer: seq<Bytes>)
    requires |leaves| % 2 == 1 && longer == leaves + [leaves[|leaves| - 1]]
    ensures Parents(h, longer) == Parents(h, leaves)
  {
    forall j | 0 <= j < (|leaves| + 1) / 2 ensures Parent(h, longer, j) == Parent(h, leaves, j) {
      assert longer[2 * j] == leaves[2 * j];
    }
  }
}
