// Merkle roots over 32-byte hashes, as both the payment and the credential
// crates compute them, and the inclusion paths the zero-knowledge prover builds.
module Merkle {
  import opened Bytes

  /** The 64 bytes that are hashed to make a parent node. */
  function Pair(a: Hash, b: Hash): (r: seq<byte>)
    ensures |r| == 64 && r[..32] == a && r[32..] == b
  {
    var x: seq<byte> := a;
    x + b
  }

  /** Index of the node that node 2i is hashed with: its right neighbour, or itself
      when it is the unpaired last node of an odd level. */
  function Partner(n: nat, i: nat): nat {
    if 2 * i + 1 < n then 2 * i + 1 else 2 * i
  }

  /** One level up the tree: nodes are hashed in pairs left to right, and an
      odd last node is hashed with itself. */
  function NextLevel(level: seq<Hash>, hash: seq<byte> -> Hash): (r: seq<Hash>)
    ensures |r| == (|level| + 1) / 2
    ensures forall i :: 0 <= i < |r| ==>
              r[i] == hash(Pair(level[2 * i], level[Partner(|level|, i)]))
    decreases |level|
  {
    if |level| == 0 then []
    else if |level| == 1 then [hash(Pair(level[0], level[0]))]
    else
      var rest := NextLevel(level[2..], hash);
      [hash(Pair(level[0], level[1]))] + rest
  }

  /** Number of levels above the leaves: how often NextLevel runs before one node remains. */
  function Depth(n: nat): (d: nat)
    ensures n <= 1 <==> d == 0
    decreases n
  {
    if n <= 1 then 0 else 1 + Depth((n + 1) / 2)
  }

  /** Repeats NextLevel until a single node remains. */
  function Reduce(level: seq<Hash>, hash: seq<byte> -> Hash): (r: Hash)
    requires |level| >= 1
    decreases |level|
  {
    if |level| == 1 then level[0] else Reduce(NextLevel(level, hash), hash)
  }

  /** `merkle_root`: zero hash for no leaves, the leaf itself for one, and
      otherwise the repeated pairwise reduction. */
  function Root(leaves: seq<Hash>, hash: seq<byte> -> Hash): (r: Hash)
    ensures |leaves| == 0 ==> r == ZERO_HASH
    ensures |leaves| == 1 ==> r == leaves[0]
  {
    if |leaves| == 0 then ZERO_HASH else Reduce(leaves, hash)
  }

  /** Two leaves hash together; of three, the last is paired with itself. */
  lemma SmallRoots(a: Hash, b: Hash, c: Hash, hash: seq<byte> -> Hash)
    ensures Root([a, b], hash) == hash(Pair(a, b))
    ensures Root([a, b, c], hash) == hash(Pair(hash(Pair(a, b)), hash(Pair(c, c))))
  {
    var two := NextLevel([a, b], hash);
    assert two == [hash(Pair(a, b))];
    assert Root([a, b], hash) == Reduce(two, hash) == two[0];
    var three := NextLevel([a, b, c], hash);
    assert three == [hash(Pair(a, b)), hash(Pair(c, c))];
    var one := NextLevel(three, hash);
    assert one == [hash(Pair(three[0], three[1]))];
    assert Root([a, b, c], hash) == Reduce(three, hash) == Reduce(one, hash) == one[0];
  }

  /** The root of more than one leaf is the root of the level above them. */
  lemma RootOfNextLevel(leaves: seq<Hash>, hash: seq<byte> -> Hash)
    requires |leaves| > 1
    ensures Root(leaves, hash) == Root(NextLevel(leaves, hash), hash)
  {
  }

  /** One level of the loop of `merkle_root`, built chunk by chunk. */
  method BuildLevel(current: seq<Hash>, hash: seq<byte> -> Hash) returns (next: seq<Hash>)
    ensures next == NextLevel(current, hash)
  {
    next := [];
    var j := 0;
    while j < |current|
      invariant 0 <= j <= |current| + 1
      invariant j % 2 == 0
      invariant |next| == j / 2
      invariant forall i :: 0 <= i < |next| ==>
                  next[i] == hash(Pair(current[2 * i], current[Partner(|current|, i)]))
      decreases |current| - j
    {
      if j + 1 < |current| {
        next := next + [hash(Pair(current[j], current[j + 1]))];
      } else {
        next := next + [hash(Pair(current[j], current[j]))];
      }
      j := j + 2;
    }
  }

  /** The level-by-level loop of `merkle_root`. */
  method ComputeRoot(leaves: seq<Hash>, hash: seq<byte> -> Hash) returns (r: Hash)
    ensures r == Root(leaves, hash)
  {
    if |leaves| == 0 {
      return ZERO_HASH;
    }
    if |leaves| == 1 {
      return leaves[0];
    }
    var current := leaves;
    while |current| > 1
      invariant |current| >= 1
      invariant Root(current, hash) == Root(leaves, hash)
      decreases |current|
    {
      var next := BuildLevel(current, hash);
      RootOfNextLevel(current, hash);
      current := next;
    }
    r := current[0];
  }

  // ----- Inclusion paths -----

  /** `build_merkle_proof` from one level upwards: at each level the sibling of the
      current node (or the node itself when it is an unpaired last node), and whether
      that sibling sits on the right. */
  function PathFrom(level: seq<Hash>, index: nat, hash: seq<byte> -> Hash): (r: (seq<Hash>, seq<bool>))
    requires index < |level|
    ensures |r.0| == |r.1| == Depth(|level|)
    decreases |level|
  {
    if |level| <= 1 then ([], [])
    else
      var sibling := if index % 2 == 0 then index + 1 else index - 1;
      var node := if sibling < |level| then level[sibling] else level[index];
      var right := if sibling < |level| then index % 2 == 0 else true;
      var rest := PathFrom(NextLevel(level, hash), index / 2, hash);
      ([node] + rest.0, [right] + rest.1)
  }

  /** Recomputes a root from a leaf and an inclusion path. */
  function Climb(leaf: Hash, path: seq<Hash>, dirs: seq<bool>, hash: seq<byte> -> Hash): Hash
    requires |path| == |dirs|
    decreases |path|
  {
    if |path| == 0 then leaf
    else
      var up := if dirs[0] then hash(Pair(leaf, path[0])) else hash(Pair(path[0], leaf));
      Climb(up, path[1..], dirs[1..], hash)
  }

  /** The parent of a node: the node hashed with its sibling, left one first, or with
      itself when it is the unpaired last node. */
  lemma Parent(level: seq<Hash>, index: nat, hash: seq<byte> -> Hash)
    requires index < |level|
    ensures var up := NextLevel(level, hash);
            index / 2 < |up| &&
            up[index / 2] == (if index % 2 == 1 then hash(Pair(level[index - 1], level[index]))
                              else if index + 1 < |level| then hash(Pair(level[index], level[index + 1]))
                              else hash(Pair(level[index], level[index])))
  {
    var j := index / 2;
    if index % 2 == 1 {
      assert 2 * j == index - 1 && 2 * j + 1 == index;
    } else {
      assert 2 * j == index;
    }
    assert NextLevel(level, hash)[j] == hash(Pair(level[2 * j], level[Partner(|level|, j)]));
  }

  /** One level of an inclusion path: its first entry pairs the node with its sibling
      into the parent, and the rest is the parent's path one level up. */
  lemma PathStep(level: seq<Hash>, index: nat, hash: seq<byte> -> Hash)
    requires 1 < |level| && index < |level|
    ensures var p, up := PathFrom(level, index, hash), NextLevel(level, hash);
            index / 2 < |up| && |p.0| > 0 &&
            p.0[1..] == PathFrom(up, index / 2, hash).0 && p.1[1..] == PathFrom(up, index / 2, hash).1 &&
            up[index / 2] == (if p.1[0] then hash(Pair(level[index], p.0[0])) else hash(Pair(p.0[0], level[index])))
  {
    var p, up := PathFrom(level, index, hash), NextLevel(level, hash);
    var rest := PathFrom(up, index / 2, hash);
    var sibling := if index % 2 == 0 then index + 1 else index - 1;
    var node := if sibling < |level| then level[sibling] else level[index];
    var right := if sibling < |level| then index % 2 == 0 else true;
    assert p == ([node] + rest.0, [right] + rest.1);
    Parent(level, index, hash);
  }

  /** The inclusion path of any leaf leads back to the root of the whole level. */
  lemma {:induction false} PathReachesRoot(level: seq<Hash>, index: nat, hash: seq<byte> -> Hash)
    requires index < |level|
    ensures Climb(level[index], PathFrom(level, index, hash).0, PathFrom(level, index, hash).1, hash)
            == Reduce(level, hash)
    decreases |level|
  {
    if |level| > 1 {
      var up := NextLevel(level, hash);
      var p := PathFrom(level, index, hash);
      PathStep(level, index, hash);
      PathReachesRoot(up, index / 2, hash);
      assert Climb(level[index], p.0, p.1, hash) == Climb(up[index / 2], p.0[1..], p.1[1..], hash);
    }
  }
}
