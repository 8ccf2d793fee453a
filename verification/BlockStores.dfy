/** The block store: blocks and undo records by height, and the two indexes (src/core/block_store.rs).
    Files and index trees are maps; a missing file is a missing key. */
module BlockStores {
  import opened Base
  import opened Types
  import opened HashLinks
  import opened Indexes

  datatype StoreError = NoneToPop | IncompleteBlock

  /** `by_hash` and `by_height` are inverse to each other on exactly the heights of the chain. */
  ghost predicate Inverse(byHash: map<Hash, nat>, byHeight: map<nat, Hash>) {
    && (forall h <- byHash :: byHash[h] in byHeight && byHeight[byHash[h]] == h)
    && (forall i <- byHeight :: byHeight[i] in byHash && byHash[byHeight[i]] == i)
  }

  /** The hash index does not lead to the height. */
  ghost predicate IsLost(byHash: map<Hash, nat>, byHeight: map<nat, Hash>, i: nat) {
    i in byHeight && !(byHeight[i] in byHash && byHash[byHeight[i]] == i)
  }

  /** Every entry of the hash index leads to a height with the hash, and of two such heights to the later one if any. */
  ghost predicate IndexValid(byHash: map<Hash, nat>, byHeight: map<nat, Hash>) {
    && (forall h <- byHash :: byHash[h] in byHeight && byHeight[byHash[h]] == h)
    && (forall i, j | i in byHeight && j in byHeight && i < j && byHeight[i] == byHeight[j] ::
          IsLost(byHash, byHeight, i))
  }

  ghost function LostIn(byHash: map<Hash, nat>, byHeight: map<nat, Hash>, n: nat): (l: seq<bool>)
    ensures |l| == n
  {
    seq(n, i requires 0 <= i < n => IsLost(byHash, byHeight, i))
  }

  function Listed<T>(files: map<nat, T>, n: nat): (s: seq<T>)
    requires forall i | 0 <= i < n :: i in files
    ensures |s| == n
  {
    seq(n, i requires 0 <= i < n && i in files => files[i])
  }

  /** Files and height index are there for exactly the heights below `n`, and the index lists the blocks' hashes. */
  ghost predicate FilesValid(blocks: map<nat, Block>, diffs: map<nat, UTXODiff>, byHeight: map<nat, Hash>, n: nat) {
    && (forall i :: i in blocks <==> 0 <= i < n)
    && (forall i :: i in diffs <==> 0 <= i < n)
    && (forall i :: i in byHeight <==> 0 <= i < n)
    && (forall i | 0 <= i < n :: blocks[i].meta.hash == Some(byHeight[i]))
  }

  ghost function TopHash(byHeight: map<nat, Hash>, n: nat): Hash
    requires forall i | 0 <= i < n :: i in byHeight
  {
    if n == 0 then GENESIS_PREVIOUS_BLOCK_HASH else byHeight[n - 1]
  }

  lemma FilesMore(blocks: map<nat, Block>, diffs: map<nat, UTXODiff>, byHeight: map<nat, Hash>, n: nat,
                  block: Block, diff: UTXODiff)
    requires FilesValid(blocks, diffs, byHeight, n) && block.meta.hash.Some?
    ensures FilesValid(blocks[n := block], diffs[n := diff], byHeight[n := block.meta.hash.value], n + 1)
  {
  }

  lemma FilesLess(blocks: map<nat, Block>, diffs: map<nat, UTXODiff>, byHeight: map<nat, Hash>, n: nat)
    requires FilesValid(blocks, diffs, byHeight, n + 1)
    ensures FilesValid(blocks - {n}, diffs - {n}, byHeight - {n}, n)
  {
  }

  lemma ListedMore<T>(files: map<nat, T>, n: nat, x: T)
    requires forall i | 0 <= i < n :: i in files
    ensures Listed(files[n := x], n + 1) == Listed(files, n) + [x]
  {
  }

  lemma ListedLess<T>(files: map<nat, T>, n: nat)
    requires forall i | 0 <= i <= n :: i in files
    ensures Listed(files - {n}, n) == Listed(files, n + 1)[..n]
  {
  }

  lemma EntriesMore(byHash: map<Hash, nat>, byHeight: map<nat, Hash>, h: Hash, n: nat)
    requires IndexValid(byHash, byHeight) && n !in byHeight && forall i <- byHeight :: i < n
    ensures IndexValid(byHash[h := n], byHeight[n := h]) && !IsLost(byHash[h := n], byHeight[n := h], n)
    ensures forall i <- byHeight ::
      IsLost(byHash[h := n], byHeight[n := h], i) <==> IsLost(byHash, byHeight, i) || byHeight[i] == h
    ensures Inverse(byHash[h := n], byHeight[n := h]) <==> Inverse(byHash, byHeight) && h !in byHash
  {
    var entries, hashes := byHash[h := n], byHeight[n := h];
    if Inverse(entries, hashes) {
      forall i <- byHeight ensures byHeight[i] in byHash && byHash[byHeight[i]] == i {
        assert hashes[i] == byHeight[i] && entries[hashes[i]] == i;
      }
    }
    if h in byHash {
      assert IsLost(entries, hashes, byHash[h]);
    }
  }

  lemma EntriesLess(byHash: map<Hash, nat>, byHeight: map<nat, Hash>, n: nat)
    requires IndexValid(byHash, byHeight) && n in byHeight && forall i <- byHeight :: i <= n
    ensures IndexValid(byHash - {byHeight[n]}, byHeight - {n})
    ensures forall i <- byHeight | i != n ::
      IsLost(byHash - {byHeight[n]}, byHeight - {n}, i) <==> IsLost(byHash, byHeight, i)
    ensures Inverse(byHash, byHeight) ==> Inverse(byHash - {byHeight[n]}, byHeight - {n})
  {
  }

  /** The height index lists the hashes of the chain. */
  ghost predicate Lists(byHeight: map<nat, Hash>, chain: seq<Block>) {
    && (forall i :: i in byHeight <==> 0 <= i < |chain|)
    && (forall i | 0 <= i < |chain| :: HashAt(chain, i) == Some(byHeight[i]))
  }

  lemma LostMore(byHash: map<Hash, nat>, byHeight: map<nat, Hash>, chain: seq<Block>, h: Hash)
    requires IndexValid(byHash, byHeight) && Lists(byHeight, chain)
    ensures var n := |chain|;
      && IndexValid(byHash[h := n], byHeight[n := h])
      && (Inverse(byHash[h := n], byHeight[n := h]) <==> Inverse(byHash, byHeight) && h !in byHash)
      && LostIn(byHash[h := n], byHeight[n := h], n + 1) == Overwritten(chain, LostIn(byHash, byHeight, n), h)
  {
    EntriesMore(byHash, byHeight, h, |chain|);
  }

  lemma LostLess(byHash: map<Hash, nat>, byHeight: map<nat, Hash>, chain: seq<Block>)
    requires IndexValid(byHash, byHeight) && Lists(byHeight, chain) && chain != []
    ensures var n := |chain| - 1; var h := byHeight[n];
      && IndexValid(byHash - {h}, byHeight - {n})
      && (Inverse(byHash, byHeight) ==> Inverse(byHash - {h}, byHeight - {n}))
      && LostIn(byHash - {h}, byHeight - {n}, n) == LostIn(byHash, byHeight, n + 1)[..n]
  {
    EntriesLess(byHash, byHeight, |chain| - 1);
  }

  class BlockStore {
    var blockFiles: map<nat, Block>
    var diffFiles: map<nat, UTXODiff>
    var byHash: map<Hash, nat>
    var byHeight: map<nat, Hash>
    var height: nat
    var lastBlock: Hash

    ghost predicate Valid()
      reads this
    {
      && FilesValid(blockFiles, diffFiles, byHeight, height) && lastBlock == TopHash(byHeight, height)
      && IndexValid(byHash, byHeight)
    }

    /** Which active blocks the hash index does not lead to. */
    ghost function Lost(): (l: seq<bool>)
      reads this
      ensures |l| == height
    {
      LostIn(byHash, byHeight, height)
    }

    lemma AgreeMeansNoneLost()
      requires Valid()
      ensures IndexesAgree() <==> NoneLost(Lost())
    {
      if NoneLost(Lost()) {
        forall i <- byHeight ensures byHeight[i] in byHash && byHash[byHeight[i]] == i {
          assert !Lost()[i];
        }
      }
    }

    ghost predicate IndexesAgree()
      reads this
    {
      Inverse(byHash, byHeight)
    }

    /** The active blocks, bottom first. */
    ghost function Chain(): (c: seq<Block>)
      requires Valid()
      reads this
      ensures |c| == height
    {
      Listed(blockFiles, height)
    }

    ghost function Diffs(): (d: seq<UTXODiff>)
      requires Valid()
      reads this
      ensures |d| == height
    {
      Listed(diffFiles, height)
    }

    constructor ()
      ensures Valid() && IndexesAgree() && Lost() == [] && Chain() == [] && Diffs() == []
    {
      blockFiles, diffFiles, byHash, byHeight := map[], map[], map[], map[];
      height, lastBlock := 0, GENESIS_PREVIOUS_BLOCK_HASH;
    }

    method AddBlock(block: Block, diffs: UTXODiff) returns (r: Result<(), StoreError>)
      requires Valid()
      modifies this
      ensures Valid()
      ensures r == if block.meta.hash.Some? then Ok(()) else Err(IncompleteBlock)
      ensures r.Ok? ==> Chain() == old(Chain()) + [block] && Diffs() == old(Diffs()) + [diffs]
      ensures r.Ok? ==> byHash == old(byHash)[block.meta.hash.value := old(height)]
      ensures r.Ok? ==> (IndexesAgree() <==> old(IndexesAgree()) && block.meta.hash.value !in old(byHash))
      ensures r.Ok? ==> Lost() == Overwritten(old(Chain()), old(Lost()), block.meta.hash.value)
      ensures !r.Ok? ==> unchanged(this)
    {
      if block.meta.hash.None? {
        return Err(IncompleteBlock);
      }
      AddedFiles(block, diffs);
      AddedEntries(block.meta.hash.value);
      PutTop(block, diffs, block.meta.hash.value);
      return Ok(());
    }

    /** Write the files and index entries of the next height. */
    method PutTop(block: Block, diffs: UTXODiff, hash: Hash)
      modifies this
      ensures height == old(height) + 1 && lastBlock == hash
      ensures blockFiles == old(blockFiles)[old(height) := block] && diffFiles == old(diffFiles)[old(height) := diffs]
      ensures byHash == old(byHash)[hash := old(height)] && byHeight == old(byHeight)[old(height) := hash]
    {
      blockFiles := blockFiles[height := block];
      diffFiles := diffFiles[height := diffs];
      byHash := byHash[hash := height];
      byHeight := byHeight[height := hash];
      height := height + 1;
      lastBlock := hash;
    }

    lemma AddedFiles(block: Block, diffs: UTXODiff)
      requires Valid() && block.meta.hash.Some?
      ensures var h := block.meta.hash.value;
        && FilesValid(blockFiles[height := block], diffFiles[height := diffs], byHeight[height := h], height + 1)
        && Listed(blockFiles[height := block], height + 1) == Chain() + [block]
        && Listed(diffFiles[height := diffs], height + 1) == Diffs() + [diffs]
    {
      FilesMore(blockFiles, diffFiles, byHeight, height, block, diffs);
      ListedMore(blockFiles, height, block);
      ListedMore(diffFiles, height, diffs);
    }

    lemma AddedEntries(h: Hash)
      requires Valid()
      ensures IndexValid(byHash[h := height], byHeight[height := h])
      ensures Inverse(byHash[h := height], byHeight[height := h]) <==> IndexesAgree() && h !in byHash
      ensures LostIn(byHash[h := height], byHeight[height := h], height + 1) == Overwritten(Chain(), Lost(), h)
    {
      LostMore(byHash, byHeight, Chain(), h);
    }

    lemma RemovedEntries()
      requires Valid() && height > 0
      ensures var n := height - 1;
        && IndexValid(byHash - {lastBlock}, byHeight - {n})
        && (IndexesAgree() ==> Inverse(byHash - {lastBlock}, byHeight - {n}))
        && LostIn(byHash - {lastBlock}, byHeight - {n}, n) == Lost()[..n]
    {
      LostLess(byHash, byHeight, Chain());
    }

    lemma RemovedFiles()
      requires Valid() && height > 0
      ensures var n := height - 1;
        && FilesValid(blockFiles - {n}, diffFiles - {n}, byHeight - {n}, n)
        && Listed(blockFiles - {n}, n) == Chain()[..n]
        && Listed(diffFiles - {n}, n) == Diffs()[..n]
    {
      var n := height - 1;
      FilesLess(blockFiles, diffFiles, byHeight, n);
      ListedLess(blockFiles, n);
      ListedLess(diffFiles, n);
    }

    method UpdateLastBlock()
      requires FilesValid(blockFiles, diffFiles, byHeight, height)
      modifies this`lastBlock
      ensures lastBlock == TopHash(byHeight, height)
    {
      if height == 0 {
        lastBlock := GENESIS_PREVIOUS_BLOCK_HASH;
      } else {
        lastBlock := blockFiles[height - 1].meta.hash.value;
      }
    }

    method PopBlock() returns (r: Result<(), StoreError>)
      requires Valid()
      modifies this
      ensures Valid()
      ensures r == if old(height) > 0 then Ok(()) else Err(NoneToPop)
      ensures r.Ok? ==> Chain() == old(Chain())[..old(height) - 1] && Diffs() == old(Diffs())[..old(height) - 1]
      ensures r.Ok? ==> byHash == old(byHash) - {old(lastBlock)}
      ensures r.Ok? && old(IndexesAgree()) ==> IndexesAgree()
      ensures r.Ok? ==> Lost() == old(Lost())[..old(height) - 1]
      ensures !r.Ok? ==> unchanged(this)
    {
      if height == 0 {
        return Err(NoneToPop);
      }
      RemovedFiles();
      RemovedEntries();
      RemoveTop();
      UpdateLastBlock();
      return Ok(());
    }

    /** Delete the top height's files and index entries. */
    method RemoveTop()
      requires height > 0
      modifies this
      ensures height == old(height) - 1 && lastBlock == old(lastBlock)
      ensures blockFiles == old(blockFiles) - {height} && diffFiles == old(diffFiles) - {height}
      ensures byHash == old(byHash) - {lastBlock} && byHeight == old(byHeight) - {height}
    {
      var newHeight := height - 1;
      blockFiles := blockFiles - {newHeight};
      diffFiles := diffFiles - {newHeight};
      byHash := byHash - {lastBlock};
      byHeight := byHeight - {newHeight};
      height := newHeight;
    }

    function GetBlockByHeight(h: nat): (b: Option<Block>)
      requires Valid()
      reads this
      ensures b == if h < height then Some(Chain()[h]) else None
    {
      if h > height then None else if h in blockFiles then Some(blockFiles[h]) else None
    }

    function GetLastBlock(): (b: Option<Block>)
      requires Valid()
      reads this
      ensures b == if height > 0 then Some(Chain()[height - 1]) else None
    {
      GetBlockByHeight(if height > 0 then height - 1 else 0)
    }

    function GetBlockHashByHeight(h: nat): (hash: Option<Hash>)
      requires Valid()
      reads this
      ensures hash == if h < height then HashAt(Chain(), h) else None
    {
      if h in byHeight then Some(byHeight[h]) else None
    }

    /** What is found is right, whatever was added before; what is missed are the lost blocks. */
    function GetBlockHeightByHash(hash: Hash): (h: Option<nat>)
      requires Valid()
      reads this
      ensures h.Some? ==> h.value < height && HashAt(Chain(), h.value) == Some(hash)
      ensures h.Some? <==> exists i | 0 <= i < height :: HashAt(Chain(), i) == Some(hash) && !Lost()[i]
      ensures IndexesAgree() ==> (h.Some? <==> exists i | 0 <= i < height :: HashAt(Chain(), i) == Some(hash))
    {
      AgreeMeansNoneLost();
      if hash in byHash then
        assert HashAt(Chain(), byHash[hash]) == Some(hash) && !Lost()[byHash[hash]];
        Some(byHash[hash])
      else
        None
    }

    function GetBlockByHash(hash: Hash): (b: Option<Block>)
      requires Valid()
      reads this
      ensures b.Some? ==> b.value in Chain() && b.value.meta.hash == Some(hash)
      ensures b.Some? <==> exists i | 0 <= i < height :: HashAt(Chain(), i) == Some(hash) && !Lost()[i]
      ensures IndexesAgree() ==> (b.Some? <==> exists i | 0 <= i < height :: HashAt(Chain(), i) == Some(hash))
    {
      match GetBlockHeightByHash(hash)
      case None => None
      case Some(h) => GetBlockByHeight(h)
    }

    function GetLastUtxoDiffs(): (d: Option<UTXODiff>)
      requires Valid()
      reads this
      ensures d == if height > 0 then Some(Diffs()[height - 1]) else None
    {
      if height > 0 then Some(diffFiles[height - 1]) else None
    }

    /** The lookup by height finds every undo record but the one of the first block, whose height it rejects. */
    function GetUtxoDiffsByHeight(h: nat): (d: Option<UTXODiff>)
      requires Valid()
      reads this
      ensures d == if 0 < h < height then Some(Diffs()[h]) else None
    {
      if h == 0 || h > height then None else if h in diffFiles then Some(diffFiles[h]) else None
    }

    /** Newest block first, then in block order: the first transaction with the id. */
    method GetTransaction(txId: Hash) returns (tx: Option<Transaction>)
      requires Valid()
      ensures tx.Some? <==> exists b, t :: b in Chain() && t in b.txs && t.id == Some(txId)
      ensures tx.Some? ==> tx.value.id == Some(txId) && exists h | 0 <= h < height ::
        tx.value in Chain()[h].txs && forall b, t | b in Chain()[h + 1..] && t in b.txs :: t.id != Some(txId)
    {
      var h: nat := height;
      while h > 0
        invariant h <= height
        invariant forall b, t | b in Chain()[h..] && t in b.txs :: t.id != Some(txId)
      {
        h := h - 1;
        var block := GetBlockByHeight(h).value;
        for i := 0 to |block.txs|
          invariant forall j | 0 <= j < i :: block.txs[j].id != Some(txId)
        {
          if block.txs[i].id == Some(txId) {
            assert block in Chain() && block.txs[i] in Chain()[h].txs;
            return Some(block.txs[i]);
          }
        }
        assert Chain()[h..] == [block] + Chain()[h + 1..];
      }
      assert Chain()[0..] == Chain();
      return None;
    }
  }
}
