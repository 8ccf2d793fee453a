/** Hash-linked chains: each block names the hash of the one below it (src/core/blockchain.rs:198-201). */
module HashLinks {
  import opened Base
  import opened Types
  import opened Ledgers

  /** Block `i` names the hash below it, the first one the genesis constant. */
  ghost predicate LinkedAt(chain: seq<Block>, i: nat)
    requires i < |chain|
  {
    chain[i].meta.previous == LastHash(chain[..i])
  }

  /** Every block carries a hash and names the hash below it. */
  ghost predicate Linked(chain: seq<Block>) {
    && (forall i | 0 <= i < |chain| :: chain[i].meta.hash.Some?)
    && (forall i | 0 <= i < |chain| :: LinkedAt(chain, i))
  }

  ghost predicate AuthenticChain(chain: seq<Block>, env: Env) {
    forall i | 0 <= i < |chain| :: Authentic(chain[i], env)
  }

  function HashAt(chain: seq<Block>, i: nat): Option<Hash>
    requires i < |chain|
  {
    chain[i].meta.hash
  }

  /** The two chains carry the same hashes on their first `n` blocks. */
  ghost predicate SameHashes(a: seq<Block>, b: seq<Block>, n: nat)
    requires n <= |a| && n <= |b|
  {
    forall k | 0 <= k < n :: HashAt(a, k) == HashAt(b, k)
  }

  ghost predicate HashDeterminesPrevious(a: seq<Block>, b: seq<Block>) {
    forall i, j | 0 <= i < |a| && 0 <= j < |b| && HashAt(a, i) == HashAt(b, j) ::
      a[i].meta.previous == b[j].meta.previous
  }

  ghost predicate NeverGenesisHash(chain: seq<Block>) {
    forall i | 0 <= i < |chain| :: HashAt(chain, i) != Some(GENESIS_PREVIOUS_BLOCK_HASH)
  }

  lemma PreviousIsBelow(chain: seq<Block>, i: nat)
    requires Linked(chain) && i < |chain|
    ensures i == 0 ==> chain[i].meta.previous == GENESIS_PREVIOUS_BLOCK_HASH
    ensures i > 0 ==> Some(chain[i].meta.previous) == HashAt(chain, i - 1)
  {
    assert LinkedAt(chain, i);
  }

  lemma {:induction false} LinksMatch(a: seq<Block>, b: seq<Block>, i: nat, j: nat)
    requires Linked(a) && Linked(b) && HashDeterminesPrevious(a, b) && NeverGenesisHash(a) && NeverGenesisHash(b)
    requires i < |a| && j < |b| && HashAt(a, i) == HashAt(b, j)
    ensures i == j && SameHashes(a, b, i + 1)
  {
    PreviousIsBelow(a, i);
    PreviousIsBelow(b, j);
    if i > 0 && j > 0 {
      LinksMatch(a, b, i - 1, j - 1);
    }
  }

  /** Equal block hashes on two linked chains force equal heights and equal hashes all the way down. */
  lemma CommonPrefix(a: seq<Block>, b: seq<Block>, i: nat, j: nat, env: Env)
    requires InjectiveBlockDigest(env)
    requires Linked(a) && Linked(b) && AuthenticChain(a, env) && AuthenticChain(b, env)
    requires i < |a| && j < |b| && HashAt(a, i) == HashAt(b, j)
    ensures i == j && SameHashes(a, b, i + 1)
  {
    forall p, q | 0 <= p < |a| && 0 <= q < |b| && HashAt(a, p) == HashAt(b, q)
      ensures a[p].meta.previous == b[q].meta.previous
    {
      SameHashSamePrevious(a[p], b[q], env);
    }
    forall p | 0 <= p < |a| ensures HashAt(a, p) != Some(GENESIS_PREVIOUS_BLOCK_HASH) {
      NeverGenesis(a[p], env);
    }
    forall q | 0 <= q < |b| ensures HashAt(b, q) != Some(GENESIS_PREVIOUS_BLOCK_HASH) {
      NeverGenesis(b[q], env);
    }
    LinksMatch(a, b, i, j);
  }

  /** So the hashes of one authentic chain are pairwise distinct. */
  lemma HashesDistinct(chain: seq<Block>, i: nat, j: nat, env: Env)
    requires InjectiveBlockDigest(env) && Linked(chain) && AuthenticChain(chain, env)
    requires i < |chain| && j < |chain| && HashAt(chain, i) == HashAt(chain, j)
    ensures i == j
  {
    CommonPrefix(chain, chain, i, j, env);
  }

  lemma LinkedExtends(chain: seq<Block>, b: Block)
    requires Linked(chain) && b.meta.hash.Some? && b.meta.previous == LastHash(chain)
    ensures Linked(chain + [b])
  {
    var more := chain + [b];
    forall i | 0 <= i < |more| ensures LinkedAt(more, i) {
      assert more[..i] == chain[..i];
      assert chain[..|chain|] == chain;
      assert i < |chain| ==> LinkedAt(chain, i);
    }
  }

  lemma LinkedShrinks(chain: seq<Block>, n: nat)
    requires Linked(chain) && n <= |chain|
    ensures Linked(chain[..n])
  {
    forall i | 0 <= i < n ensures LinkedAt(chain[..n], i) {
      assert chain[..n][..i] == chain[..i] && LinkedAt(chain, i);
    }
  }
}
