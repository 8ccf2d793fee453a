/** Merkle trees over transaction ids: the level-built tree, the recursive proof generator,
    the flat-array proof generator and the verifier (src/crypto/merkle_tree.rs). */
module Merkle {
  import opened Base

  type Digest = int

  /** SHA-256 as the tree uses it: on a transaction id, and on two concatenated digests. */
  datatype Hasher = Hasher(leaf: Hash -> Digest, pair: (Digest, Digest) -> Digest)

  datatype Node = Node(hash: Digest, left: Option<Node>, right: Option<Node>)

  datatype Sibling = Sibling(hash: Digest, isLeft: bool)

  ghost predicate CollisionFree(h: Hasher) {
    && (forall a, b :: h.leaf(a) == h.leaf(b) ==> a == b)
    && (forall a, b, c, d :: h.pair(a, b) == h.pair(c, d) ==> a == c && b == d)
  }

  // ---------- Layers of digests: the reference definition of the root and of a path ----------

  /** The position hashed with position 2i of a layer of length n: its neighbour, or itself at an odd end. */
  function Mate(n: nat, i: nat): (m: nat)
    requires 2 * i < n
    ensures m < n
  {
    if 2 * i + 1 < n then 2 * i + 1 else 2 * i
  }

  function NextLayer(h: Hasher, layer: seq<Digest>): seq<Digest> {
    seq((|layer| + 1) / 2, i requires 0 <= i < (|layer| + 1) / 2 => h.pair(layer[2 * i], layer[Mate(|layer|, i)]))
  }

  function Root(h: Hasher, layer: seq<Digest>): Digest
    requires layer != []
    decreases |layer|
  {
    if |layer| == 1 then layer[0] else Root(h, NextLayer(h, layer))
  }

  function Height(n: nat): nat
    requires n > 0
  {
    if n == 1 then 0 else 1 + Height((n + 1) / 2)
  }

  function SiblingAt(layer: seq<Digest>, index: nat): Sibling
    requires index < |layer|
  {
    if index % 2 == 0 then Sibling(layer[Mate(|layer|, index / 2)], false) else Sibling(layer[index - 1], true)
  }

  /** The siblings met on the way from position `index` of `layer` up to the root. */
  function PathAt(h: Hasher, layer: seq<Digest>, index: nat): seq<Sibling>
    requires index < |layer|
    decreases |layer|
  {
    if |layer| == 1 then [] else [SiblingAt(layer, index)] + PathAt(h, NextLayer(h, layer), index / 2)
  }

  /** In the padded layer the sibling is the neighbour. */
  lemma PaddedMate(layer: seq<Digest>, padded: seq<Digest>, index: nat)
    requires padded == (if |layer| % 2 != 0 then layer + [layer[|layer| - 1]] else layer) && index < |layer|
    ensures var mate := if index % 2 == 0 then index + 1 else index - 1;
      0 <= mate < |padded| && SiblingAt(layer, index) == Sibling(padded[mate], index % 2 != 0)
  {
  }

  lemma PathOneUp(h: Hasher, layer: seq<Digest>, index: nat, path: seq<Sibling>)
    requires |layer| > 1 && index < |layer|
    ensures path + PathAt(h, layer, index)
         == (path + [SiblingAt(layer, index)]) + PathAt(h, NextLayer(h, layer), index / 2)
  {
  }

  /** What the verifier computes: the digest reached from `d` by hashing along `path`. */
  function Climb(h: Hasher, d: Digest, path: seq<Sibling>): Digest
    decreases |path|
  {
    if path == [] then d
    else Climb(h, if path[0].isLeft then h.pair(path[0].hash, d) else h.pair(d, path[0].hash), path[1..])
  }

  /** The first position of `target`, if it occurs. */
  function Position(layer: seq<Digest>, target: Digest): (p: Option<nat>)
    ensures p.Some? <==> target in layer
    ensures p.Some? ==> p.value < |layer| && layer[p.value] == target && target !in layer[..p.value]
  {
    if layer == [] then None
    else if layer[0] == target then Some(0)
    else match Position(layer[1..], target)
      case None => None
      case Some(k) => assert layer[..k + 1] == [layer[0]] + layer[1..][..k]; Some(k + 1)
  }

  function ProofFor(h: Hasher, layer: seq<Digest>, target: Digest): Option<seq<Sibling>> {
    match Position(layer, target)
    case None => None
    case Some(k) => Some(PathAt(h, layer, k))
  }

  function LeafDigests(h: Hasher, ids: seq<Hash>): seq<Digest> {
    seq(|ids|, i requires 0 <= i < |ids| => h.leaf(ids[i]))
  }

  // ---------- The tree ----------

  function LeafNodes(layer: seq<Digest>): seq<Node> {
    seq(|layer|, i requires 0 <= i < |layer| => Node(layer[i], None, None))
  }

  function Join(h: Hasher, l: Node, r: Node): Node {
    Node(h.pair(l.hash, r.hash), Some(l), Some(r))
  }

  function NextLevel(h: Hasher, nodes: seq<Node>): seq<Node> {
    seq((|nodes| + 1) / 2, i requires 0 <= i < (|nodes| + 1) / 2 => Join(h, nodes[2 * i], nodes[Mate(|nodes|, i)]))
  }

  function Top(h: Hasher, nodes: seq<Node>): Node
    requires nodes != []
    decreases |nodes|
  {
    if |nodes| == 1 then nodes[0] else Top(h, NextLevel(h, nodes))
  }

  function TreeOf(h: Hasher, ids: seq<Hash>): Node {
    if ids == [] then Node(0, None, None) else Top(h, LeafNodes(LeafDigests(h, ids)))
  }

  function HashesOf(nodes: seq<Node>): seq<Digest> {
    seq(|nodes|, i requires 0 <= i < |nodes| => nodes[i].hash)
  }

  predicate IsLeaf(n: Node) {
    n.left.None? && n.right.None?
  }

  /** Every inner node has both children; `build` makes no other trees. */
  predicate Full(n: Node) {
    IsLeaf(n) || (n.left.Some? && n.right.Some? && Full(n.left.value) && Full(n.right.value))
  }

  predicate AllFull(nodes: seq<Node>) {
    forall i | 0 <= i < |nodes| :: Full(nodes[i])
  }

  /** `verify_inclusion`: some leaf carries `target`. */
  predicate HasLeaf(n: Node, target: Digest) {
    if IsLeaf(n) then n.hash == target
    else (n.left.Some? && HasLeaf(n.left.value, target)) || (n.right.Some? && HasLeaf(n.right.value, target))
  }

  /** The path found by a left-first search of the tree, lowest sibling first. */
  function SearchPath(n: Node, target: Digest): (p: Option<seq<Sibling>>)
    requires Full(n)
    ensures p.Some? <==> HasLeaf(n, target)
  {
    if IsLeaf(n) then (if n.hash == target then Some([]) else None)
    else match SearchPath(n.left.value, target)
      case Some(p) => Some(p + [Sibling(n.right.value.hash, false)])
      case None =>
        match SearchPath(n.right.value, target)
        case Some(p) => Some(p + [Sibling(n.left.value.hash, true)])
        case None => None
  }

  // ---------- The algorithms ----------

  method BuildLevel(h: Hasher, leaves: seq<Node>) returns (nextLevel: seq<Node>)
    ensures nextLevel == NextLevel(h, leaves)
  {
    nextLevel := [];
    var i := 0;
    while i < |leaves|
      invariant i % 2 == 0 && i <= |leaves| + 1
      invariant nextLevel == NextLevel(h, leaves)[..i / 2]
    {
      var left := leaves[i];
      var right := if i + 1 < |leaves| then leaves[i + 1] else left;
      nextLevel := nextLevel + [Node(h.pair(left.hash, right.hash), Some(left), Some(right))];
      i := i + 2;
    }
  }

  method Build(h: Hasher, ids: seq<Hash>) returns (root: Node)
    ensures root == TreeOf(h, ids)
  {
    var leaves: seq<Node> := [];
    for i := 0 to |ids|
      invariant leaves == LeafNodes(LeafDigests(h, ids))[..i]
    {
      leaves := leaves + [Node(h.leaf(ids[i]), None, None)];
    }
    if leaves == [] {
      return Node(0, None, None);
    }
    assert leaves == LeafNodes(LeafDigests(h, ids));
    while |leaves| > 1
      invariant leaves != []
      invariant Top(h, leaves) == TreeOf(h, ids)
      decreases |leaves|
    {
      leaves := BuildLevel(h, leaves);
    }
    root := leaves[0];
  }

  method SearchTree(n: Node, target: Digest, path: seq<Sibling>) returns (found: bool, path': seq<Sibling>)
    requires Full(n)
    ensures found <==> SearchPath(n, target).Some?
    ensures path' == if found then path + SearchPath(n, target).value else path
    decreases n
  {
    if IsLeaf(n) {
      return n.hash == target, path;
    }
    found, path' := SearchTree(n.left.value, target, path);
    if found {
      return true, path' + [Sibling(n.right.value.hash, false)];
    }
    found, path' := SearchTree(n.right.value, target, path');
    if found {
      path' := path' + [Sibling(n.left.value.hash, true)];
    }
  }

  method GenerateProof(root: Node, target: Digest) returns (proof: Option<seq<Sibling>>)
    requires Full(root)
    ensures proof == SearchPath(root, target)
  {
    var found, path := SearchTree(root, target, []);
    assert found ==> path == SearchPath(root, target).value;
    proof := if found then Some(path) else None;
  }

  lemma NextLayerAt(h: Hasher, layer: seq<Digest>, k: nat)
    requires 2 * k < |layer|
    ensures k < |NextLayer(h, layer)|
    ensures NextLayer(h, layer)[k] == h.pair(layer[2 * k], layer[Mate(|layer|, k)])
  {
  }

  lemma PaddingKeepsNextLayer(h: Hasher, layer: seq<Digest>, padded: seq<Digest>)
    requires layer != []
    requires padded == if |layer| % 2 != 0 then layer + [layer[|layer| - 1]] else layer
    ensures NextLayer(h, padded) == NextLayer(h, layer)
  {
    var a, b := NextLayer(h, padded), NextLayer(h, layer);
    forall k | 0 <= k < |b| ensures a[k] == b[k] {
      NextLayerAt(h, padded, k);
      NextLayerAt(h, layer, k);
    }
  }

  /** The next layer of an even layer, pair by pair. */
  method HashPairs(h: Hasher, layer: seq<Digest>) returns (nextLayer: seq<Digest>)
    requires |layer| % 2 == 0
    ensures nextLayer == NextLayer(h, layer)
  {
    nextLayer := [];
    var i := 0;
    while i < |layer|
      invariant i % 2 == 0 && i <= |layer|
      invariant nextLayer == NextLayer(h, layer)[..i / 2]
    {
      NextLayerAt(h, layer, i / 2);
      nextLayer := nextLayer + [h.pair(layer[i], layer[i + 1])];
      i := i + 2;
    }
  }

  method FindPosition(layer: seq<Digest>, target: Digest) returns (p: Option<nat>)
    ensures p == Position(layer, target)
  {
    for i := 0 to |layer|
      invariant target !in layer[..i]
    {
      if layer[i] == target {
        return Some(i);
      }
    }
    return None;
  }

  method CreateProof(h: Hasher, txHashes: seq<Digest>, target: Digest) returns (proof: Option<seq<Sibling>>)
    ensures proof == ProofFor(h, txHashes, target)
  {
    var position := FindPosition(txHashes, target);
    if position.None? {
      return None;
    }
    var index: nat := position.value;
    var layer, path := txHashes, [];
    while |layer| > 1
      invariant index < |layer|
      invariant path + PathAt(h, layer, index) == ProofFor(h, txHashes, target).value
      decreases |layer|
    {
      ghost var unpadded := layer;
      PathOneUp(h, layer, index, path);
      if |layer| % 2 != 0 {
        layer := layer + [layer[|layer| - 1]];
      }
      PaddedMate(unpadded, layer, index);
      var siblingIndex := if index % 2 == 0 then index + 1 else index - 1;
      path := path + [Sibling(layer[siblingIndex], index % 2 != 0)];
      PaddingKeepsNextLayer(h, unpadded, layer);
      layer := HashPairs(h, layer);
      index := index / 2;
    }
    assert path == path + PathAt(h, layer, index);
    proof := Some(path);
  }

  method Validate(h: Hasher, txHash: Digest, path: seq<Sibling>, rootHash: Digest) returns (valid: bool)
    ensures valid <==> Climb(h, txHash, path) == rootHash
  {
    var hash := txHash;
    for i := 0 to |path|
      invariant Climb(h, hash, path[i..]) == Climb(h, txHash, path)
    {
      hash := if path[i].isLeft then h.pair(path[i].hash, hash) else h.pair(hash, path[i].hash);
    }
    valid := hash == rootHash;
  }

  // ---------- The algorithms agree ----------

  lemma LevelHashes(h: Hasher, nodes: seq<Node>)
    ensures HashesOf(NextLevel(h, nodes)) == NextLayer(h, HashesOf(nodes))
  {
    var a, b := HashesOf(NextLevel(h, nodes)), NextLayer(h, HashesOf(nodes));
    forall i | 0 <= i < |b| ensures a[i] == b[i] {
      assert NextLevel(h, nodes)[i] == Join(h, nodes[2 * i], nodes[Mate(|nodes|, i)]);
      assert b[i] == h.pair(HashesOf(nodes)[2 * i], HashesOf(nodes)[Mate(|HashesOf(nodes)|, i)]);
    }
  }

  lemma {:induction false} TopHash(h: Hasher, nodes: seq<Node>)
    requires nodes != []
    ensures Top(h, nodes).hash == Root(h, HashesOf(nodes))
    decreases |nodes|
  {
    if |nodes| > 1 {
      TopHash(h, NextLevel(h, nodes));
      LevelHashes(h, nodes);
    }
  }

  /** The root of the level-built tree is the root of its leaf digests. */
  lemma RootOfTree(h: Hasher, ids: seq<Hash>)
    requires ids != []
    ensures TreeOf(h, ids).hash == Root(h, LeafDigests(h, ids))
  {
    var nodes := LeafNodes(LeafDigests(h, ids));
    TopHash(h, nodes);
    assert HashesOf(nodes) == LeafDigests(h, ids);
  }

  lemma {:induction false} TopFull(h: Hasher, nodes: seq<Node>)
    requires nodes != [] && AllFull(nodes)
    ensures Full(Top(h, nodes))
    decreases |nodes|
  {
    if |nodes| > 1 {
      TopFull(h, NextLevel(h, nodes));
    }
  }

  lemma TreeFull(h: Hasher, ids: seq<Hash>)
    ensures Full(TreeOf(h, ids))
  {
    if ids != [] {
      TopFull(h, LeafNodes(LeafDigests(h, ids)));
    }
  }

  ghost predicate FirstWith(nodes: seq<Node>, target: Digest, k: nat) {
    && k < |nodes| && HasLeaf(nodes[k], target)
    && forall j :: 0 <= j < k ==> !HasLeaf(nodes[j], target)
  }

  /** One level up: the first node holding the target is the parent of the previous first, and
      the search path grows by exactly the sibling the flat generator picks. */
  lemma SearchOneLevel(h: Hasher, nodes: seq<Node>, target: Digest, k: nat)
    requires |nodes| > 1 && AllFull(nodes) && FirstWith(nodes, target, k)
    ensures AllFull(NextLevel(h, nodes)) && FirstWith(NextLevel(h, nodes), target, k / 2)
    ensures SearchPath(NextLevel(h, nodes)[k / 2], target)
         == Some(SearchPath(nodes[k], target).value + [SiblingAt(HashesOf(nodes), k)])
  {
    var next := NextLevel(h, nodes);
    forall j | 0 <= j < k / 2 ensures !HasLeaf(next[j], target) {
      assert next[j] == Join(h, nodes[2 * j], nodes[2 * j + 1]);
    }
    forall j | 0 <= j < |next| ensures Full(next[j]) {
      assert next[j] == Join(h, nodes[2 * j], nodes[Mate(|nodes|, j)]);
    }
    assert next[k / 2] == Join(h, nodes[2 * (k / 2)], nodes[Mate(|nodes|, k / 2)]);
    if k % 2 == 0 {
      assert k == 2 * (k / 2);
      assert HashesOf(nodes)[Mate(|HashesOf(nodes)|, k / 2)] == nodes[Mate(|nodes|, k / 2)].hash;
    } else {
      assert k == 2 * (k / 2) + 1;
      assert !HasLeaf(nodes[k - 1], target);
    }
  }

  /** The path found in `tree` is the one found below `nodes[k]`, continued by the flat path from k. */
  ghost predicate PathContinues(h: Hasher, tree: Node, nodes: seq<Node>, target: Digest, k: nat)
    requires AllFull(nodes) && FirstWith(nodes, target, k) && Full(tree)
  {
    SearchPath(tree, target) == Some(SearchPath(nodes[k], target).value + PathAt(h, HashesOf(nodes), k))
  }

  lemma ContinueOneLevel(h: Hasher, tree: Node, nodes: seq<Node>, target: Digest, k: nat)
    requires |nodes| > 1 && AllFull(nodes) && FirstWith(nodes, target, k) && Full(tree)
    requires AllFull(NextLevel(h, nodes)) && FirstWith(NextLevel(h, nodes), target, k / 2)
    requires PathContinues(h, tree, NextLevel(h, nodes), target, k / 2)
    ensures PathContinues(h, tree, nodes, target, k)
  {
    SearchOneLevel(h, nodes, target, k);
    LevelHashes(h, nodes);
    PathOneUp(h, HashesOf(nodes), k, SearchPath(nodes[k], target).value);
  }

  lemma {:induction false} SearchWholeTree(h: Hasher, nodes: seq<Node>, target: Digest, k: nat)
    requires AllFull(nodes) && FirstWith(nodes, target, k)
    ensures Full(Top(h, nodes)) && PathContinues(h, Top(h, nodes), nodes, target, k)
    decreases |nodes|
  {
    if |nodes| == 1 {
      assert SearchPath(nodes[k], target).value + [] == SearchPath(nodes[k], target).value;
    } else {
      SearchOneLevel(h, nodes, target, k);
      SearchWholeTree(h, NextLevel(h, nodes), target, k / 2);
      ContinueOneLevel(h, Top(h, nodes), nodes, target, k);
    }
  }

  lemma {:induction false} SearchFails(h: Hasher, nodes: seq<Node>, target: Digest)
    requires nodes != [] && AllFull(nodes) && forall n <- nodes :: !HasLeaf(n, target)
    ensures !HasLeaf(Top(h, nodes), target)
    decreases |nodes|
  {
    if |nodes| > 1 {
      var next := NextLevel(h, nodes);
      forall n | n in next ensures Full(n) && !HasLeaf(n, target) {
        var i :| 0 <= i < |next| && next[i] == n;
        assert n == Join(h, nodes[2 * i], nodes[Mate(|nodes|, i)]);
      }
      SearchFails(h, next, target);
    }
  }

  lemma FirstLeaf(layer: seq<Digest>, target: Digest, k: nat)
    requires Position(layer, target) == Some(k)
    ensures FirstWith(LeafNodes(layer), target, k)
  {
    forall j | 0 <= j < k ensures layer[j] != target {
      assert layer[j] in layer[..k];
    }
  }

  /** The recursive generator on the built tree and the flat generator on the leaf digests return the same
      path, or both fail, for every id list and every target except the all-zero digest on an empty list:
      an empty list is built into a lone leaf holding that digest. */
  lemma GeneratorsAgree(h: Hasher, ids: seq<Hash>, target: Digest)
    ensures Full(TreeOf(h, ids))
    ensures SearchPath(TreeOf(h, ids), target) == ProofFor(h, LeafDigests(h, ids), target)
       <==> ids != [] || target != 0
  {
    var layer := LeafDigests(h, ids);
    var nodes := LeafNodes(layer);
    TreeFull(h, ids);
    assert HashesOf(nodes) == layer;
    if ids == [] {
    } else if target in layer {
      var k := Position(layer, target).value;
      FirstLeaf(layer, target, k);
      SearchWholeTree(h, nodes, target, k);
      assert [] + PathAt(h, layer, k) == PathAt(h, layer, k);
    } else {
      forall n | n in nodes ensures Full(n) && !HasLeaf(n, target) {
        var i :| 0 <= i < |nodes| && nodes[i] == n;
        assert layer[i] in layer;
      }
      SearchFails(h, nodes, target);
    }
  }

  lemma {:induction false} PathClimbsToRoot(h: Hasher, layer: seq<Digest>, index: nat)
    requires index < |layer|
    ensures Climb(h, layer[index], PathAt(h, layer, index)) == Root(h, layer)
    ensures |PathAt(h, layer, index)| == Height(|layer|)
    decreases |layer|
  {
    if |layer| > 1 {
      var next := NextLayer(h, layer);
      PathClimbsToRoot(h, next, index / 2);
      var path := PathAt(h, layer, index);
      assert path[1..] == PathAt(h, next, index / 2);
      assert next[index / 2] == h.pair(layer[2 * (index / 2)], layer[Mate(|layer|, index / 2)]);
      assert index == 2 * (index / 2) || index == 2 * (index / 2) + 1;
    }
  }

  /** A proof exists exactly for the leaves, and every proof generated validates against the root. */
  lemma ProofsValidate(h: Hasher, layer: seq<Digest>, target: Digest)
    requires layer != []
    ensures ProofFor(h, layer, target).Some? <==> target in layer
    ensures target in layer ==> Climb(h, target, ProofFor(h, layer, target).value) == Root(h, layer)
  {
    if target in layer {
      PathClimbsToRoot(h, layer, Position(layer, target).value);
    }
  }

  // ---------- What a root commits to ----------

  lemma PairInjective(h: Hasher, a: Digest, b: Digest, c: Digest, d: Digest)
    requires CollisionFree(h) && h.pair(a, b) == h.pair(c, d)
    ensures a == c && b == d
  {
  }

  lemma {:induction false} EqualRootsEqualLayers(h: Hasher, a: seq<Digest>, b: seq<Digest>)
    requires CollisionFree(h) && |a| == |b| > 0 && Root(h, a) == Root(h, b)
    ensures a == b
    decreases |a|
  {
    if |a| > 1 {
      var a', b' := NextLayer(h, a), NextLayer(h, b);
      EqualRootsEqualLayers(h, a', b');
      forall i | 0 <= i < |a| ensures a[i] == b[i] {
        var k := i / 2;
        assert a'[k] == h.pair(a[2 * k], a[Mate(|a|, k)]) && b'[k] == h.pair(b[2 * k], b[Mate(|b|, k)]);
        PairInjective(h, a[2 * k], a[Mate(|a|, k)], b[2 * k], b[Mate(|b|, k)]);
      }
    }
  }

  /** Id lists of equal length with equal roots are equal: `validate_merkle_tree` pins the ids of a block. */
  lemma RootBindsIds(h: Hasher, ids: seq<Hash>, ids': seq<Hash>)
    requires CollisionFree(h) && |ids| == |ids'|
    requires TreeOf(h, ids).hash == TreeOf(h, ids').hash
    ensures ids == ids'
  {
    if ids != [] {
      RootOfTree(h, ids);
      RootOfTree(h, ids');
      var a, b := LeafDigests(h, ids), LeafDigests(h, ids');
      EqualRootsEqualLayers(h, a, b);
      forall i | 0 <= i < |ids| ensures ids[i] == ids'[i] {
        assert a[i] == h.leaf(ids[i]) && b[i] == h.leaf(ids'[i]);
      }
    }
  }

  /** A path as long as the tree is high that leads from a digest to the root starts at a leaf. */
  lemma {:induction false} ProofSound(h: Hasher, layer: seq<Digest>, d: Digest, path: seq<Sibling>)
    requires CollisionFree(h) && layer != [] && |path| == Height(|layer|)
    requires Climb(h, d, path) == Root(h, layer)
    ensures d in layer
    decreases |layer|
  {
    if |layer| > 1 {
      var next := NextLayer(h, layer);
      var d' := if path[0].isLeft then h.pair(path[0].hash, d) else h.pair(d, path[0].hash);
      ProofSound(h, next, d', path[1..]);
      var k :| 0 <= k < |next| && next[k] == d';
      assert next[k] == h.pair(layer[2 * k], layer[Mate(|layer|, k)]);
      var l, r := layer[2 * k], layer[Mate(|layer|, k)];
      if path[0].isLeft {
        PairInjective(h, path[0].hash, d, l, r);
      } else {
        PairInjective(h, d, path[0].hash, l, r);
      }
    }
  }

  // ---------- The proof a full node serves ----------

  /** A full node answers `GetTransactionMerkleProof` with `create_proof` over the raw ids, while a block's
      root is taken over their digests. The proof served for a listed id validates against the block's
      root exactly when every id of the block is its own leaf digest. */
  lemma ServedProofValidates(h: Hasher, ids: seq<Hash>, id: Hash)
    requires CollisionFree(h) && id in ids
    ensures ProofFor(h, ids, id).Some?
    ensures Climb(h, id, ProofFor(h, ids, id).value) == TreeOf(h, ids).hash
       <==> forall x <- ids :: h.leaf(x) == x
  {
    ProofsValidate(h, ids, id);
    RootOfTree(h, ids);
    var layer := LeafDigests(h, ids);
    if Root(h, ids) == Root(h, layer) {
      EqualRootsEqualLayers(h, ids, layer);
      forall x | x in ids ensures h.leaf(x) == x {
        var i :| 0 <= i < |ids| && ids[i] == x;
        assert layer[i] == h.leaf(ids[i]);
      }
    }
    if forall x <- ids :: h.leaf(x) == x {
      assert layer == ids;
    }
  }
}
