/** Building a block for mining (src/lib.rs:167-245) and what becomes of it at `add_block`. */
module BlockBuilding {
  import opened Base
  import opened Types
  import opened Utxos
  import opened Blocks
  import opened Economics
  import opened Ledgers
  import opened Blockchains
  import opened MemPools
  import Bytes
  import Difficulty
  import Merkle

  datatype BuildError = TooManyTransactions | IncompleteTransaction

  /** The transaction with a nonce and the id that goes with it. */
  function WithNonce(tx: Transaction, nonce: nat, env: Env): Transaction {
    var drawn := tx.(nonce := nonce);
    drawn.(id := Some(env.txDigest(TxBuf(drawn))))
  }

  /** The id that goes with the nonce meets the target. */
  predicate Hits(tx: Transaction, nonce: nat, target: nat, env: Env) {
    WithNonce(tx, nonce, env).id.value <= target
  }

  lemma LaterHit(tx: Transaction, target: nat, draws: seq<nat>, env: Env)
    requires |draws| > 0 && !Hits(tx, draws[0], target, env)
    requires exists n <- draws :: Hits(tx, n, target, env)
    ensures |draws| > 1 && exists n <- draws[1..] :: Hits(tx, n, target, env)
  {
    var n :| n in draws && Hits(tx, n, target, env);
    assert draws == [draws[0]] + draws[1..];
    assert n in draws[1..];
  }

  /** `compute_pow`: nonces are drawn until one hits; the draws are an argument. */
  method ComputePow(tx: Transaction, target: nat, draws: seq<nat>, env: Env) returns (mined: Transaction, nonce: nat)
    requires exists n <- draws :: Hits(tx, n, target, env)
    ensures nonce in draws && Hits(tx, nonce, target, env) && mined == WithNonce(tx, nonce, env)
    ensures mined.nonce == nonce && mined.(nonce := tx.nonce, id := tx.id) == tx
    ensures mined.id == Some(env.txDigest(TxBuf(mined))) && mined.id.value <= target
  {
    var i := 0;
    while !Hits(tx, draws[i], target, env)
      invariant i < |draws| && exists n <- draws[i..] :: Hits(tx, n, target, env)
      decreases |draws| - i
    {
      LaterHit(tx, target, draws[i..], env);
      i := i + 1;
    }
    nonce := draws[i];
    mined := WithNonce(tx, nonce, env);
  }

  /** The transaction that pays the developers' fee and the rest of the reward to the miner, before its search. */
  function RewardDraft(height: nat, miner: Address, now: nat): Transaction {
    RewardFits(height);
    var reward := GetBlockReward(height);
    var fee := CalculateDevFee(reward);
    Transaction([], [Output(fee, DEV_WALLET), Output(reward - fee, miner)], None, 0, now)
  }

  function RewardTx(height: nat, miner: Address, now: nat, nonce: nat, env: Env): Transaction {
    WithNonce(RewardDraft(height, miner, now), nonce, env)
  }

  /** The reward goes to the miner but for two per cent, rounded down, that the developers get. */
  predicate PaysMiner(tx: Transaction, reward: nat, miner: Address) {
    && tx.inputs == [] && |tx.outputs| == 2
    && tx.outputs[0].receiver == DEV_WALLET && tx.outputs[1].receiver == miner
    && tx.outputs[0].amount + tx.outputs[1].amount == reward && 50 * tx.outputs[1].amount >= 49 * reward
    && 50 * tx.outputs[0].amount + 50 > reward
  }

  lemma RewardPaysMiner(height: nat, miner: Address, now: nat, nonce: nat, env: Env)
    ensures PaysMiner(RewardTx(height, miner, now, nonce, env), GetBlockReward(height), miner)
  {
    DevFeeIs(GetBlockReward(height));
  }

  predicate AllComplete(txs: seq<Transaction>) {
    forall i | 0 <= i < |txs| :: Complete(txs[i])
  }

  /** The block that `build_block` lays out on top of a ledger, still without a hash. */
  function Template(l: Ledger, txs: seq<Transaction>, now: nat, env: Env): Block
    requires AllComplete(txs)
  {
    assert forall i | 0 <= i < |txs| :: txs[i].id.Some? by {
      forall i | 0 <= i < |txs| ensures txs[i].id.Some? { assert Complete(txs[i]); }
    }
    Block(txs, now, 0, Meta(l.targets.block, l.targets.tx, LastHash(l.chain), None,
                            Merkle.TreeOf(env.hasher, TxIds(txs)).hash, env.filterOf(txs)))
  }

  /** The block with a nonce and the hash that goes with it. */
  function Mined(b: Block, nonce: nat, env: Env): Block {
    var draft := b.(nonce := nonce);
    draft.(meta := draft.meta.(hash := Some(env.blockDigest(HashingBuf(draft, env)))))
  }

  /** The ids, if every transaction is complete. */
  method CollectIds(txs: seq<Transaction>) returns (r: Option<seq<Hash>>)
    ensures r.Some? <==> AllComplete(txs)
    ensures r.Some? ==> (forall i | 0 <= i < |txs| :: txs[i].id.Some?) && r.value == TxIds(txs)
  {
    var ids := [];
    for i := 0 to |txs|
      invariant (forall j | 0 <= j < i :: Complete(txs[j])) && |ids| == i
      invariant forall j | 0 <= j < i :: ids[j] == txs[j].id.value
    {
      if !Complete(txs[i]) {
        return None;
      }
      ids := ids + [txs[i].id.value];
    }
    return Some(ids);
  }

  /** A reward whose id meets the transaction target is added to any transactions that are complete and leave room. */
  method BuildBlock(bc: Blockchain, txs: seq<Transaction>, miner: Address, rewardNow: nat, draws: seq<nat>, now: nat)
    returns (r: Result<Block, BuildError>, nonce: nat)
    requires bc.Valid()
    requires exists n <- draws ::
      Hits(RewardDraft(bc.store.height, miner, rewardNow), n, Bytes.FromBytes(bc.State().targets.tx), bc.env)
    ensures !r.Panic?
    ensures r == Err(BuildError.TooManyTransactions) <==> |txs| >= MAX_TRANSACTIONS_PER_BLOCK
    ensures r.Ok? <==> |txs| < MAX_TRANSACTIONS_PER_BLOCK && AllComplete(txs)
    ensures r.Ok? ==>
      var reward := RewardTx(bc.store.height, miner, rewardNow, nonce, bc.env);
      && nonce in draws && reward.id.value <= Bytes.FromBytes(bc.State().targets.tx)
      && AllComplete(txs + [reward]) && r.value == Template(bc.State(), txs + [reward], now, bc.env)
      && PaysMiner(reward, GetBlockReward(bc.store.height), miner) && reward.timestamp == rewardNow
      && r.value.txs == txs + [reward] && r.value.timestamp == now && r.value.meta.hash.None?
  {
    if |txs| + 1 > MAX_TRANSACTIONS_PER_BLOCK {
      return Err(BuildError.TooManyTransactions), 0;
    }
    var height := bc.store.height;
    var target := Bytes.FromBytes(bc.difficulty.transactionDifficulty);
    var reward;
    reward, nonce := ComputePow(RewardDraft(height, miner, rewardNow), target, draws, bc.env);
    RewardPaysMiner(height, miner, rewardNow, nonce, bc.env);
    var all := txs + [reward];
    StillComplete(txs, height, miner, rewardNow, nonce, bc.env);
    var ids := CollectIds(all);
    if ids.None? {
      return Err(BuildError.IncompleteTransaction), nonce;
    }
    var tree := Merkle.Build(bc.env.hasher, ids.value);
    var previous := TipHash(bc);
    r := Ok(Block(all, now, 0, Meta(bc.difficulty.blockDifficulty, bc.difficulty.transactionDifficulty,
                                   previous, None, tree.hash, bc.env.filterOf(all))));
  }

  /** The hash a new block must name as its previous one. */
  method TipHash(bc: Blockchain) returns (hash: Hash)
    requires bc.Valid()
    ensures hash == LastHash(bc.store.Chain())
  {
    var below := bc.store.GetBlockHashByHeight(if bc.store.height == 0 then 0 else bc.store.height - 1);
    return if below.Some? then below.value else GENESIS_PREVIOUS_BLOCK_HASH;
  }

  // ---------- What is built is accepted ----------

  lemma RewardIsOk(height: nat, miner: Address, now: nat, nonce: nat, isIbd: bool, env: Env)
    ensures var tx := RewardTx(height, miner, now, nonce, env);
      IsReward(tx) && Complete(tx) && RewardOk(tx, height, isIbd, env)
  {
    var tx := RewardTx(height, miner, now, nonce, env);
    var outputs := tx.outputs;
    assert outputs[..1][..0] == [] && outputs[..1] == [outputs[0]];
    assert OutputSum(outputs) == OutputSum(outputs[..1]) + outputs[1].amount;
    assert OutputSum(outputs[..1]) == OutputSum(outputs[..1][..0]) + outputs[0].amount;
    assert outputs[0] in outputs;
    assert TxBuf(tx.(id := None)) == TxBuf(tx);
  }

  lemma MinedIsAuthentic(b: Block, nonce: nat, env: Env)
    ensures Authentic(Mined(b, nonce, env), env)
  {
    assert HashingBuf(b.(nonce := nonce), env) == HashingBuf(Mined(b, nonce, env), env);
  }

  /** What the transactions chosen for a block must satisfy. */
  ghost predicate Choosable(l: Ledger, txs: seq<Transaction>, now: nat, isIbd: bool, env: Env) {
    && NoConflicts(txs)
    && (forall i | 0 <= i < |txs| ::
        !IsReward(txs[i]) && ValidTx(l.unspent, txs[i], Bytes.FromBytes(l.targets.tx), isIbd, env))
    && (forall i | 0 <= i < |txs| :: txs[i].timestamp <= now <= txs[i].timestamp + EXPIRATION_TIME)
  }

  lemma BuiltTxsOk(l: Ledger, b: Block, txs: seq<Transaction>, miner: Address, rewardNow: nat, rewardNonce: nat,
                   isIbd: bool, env: Env)
    requires b.txs == txs + [RewardTx(|l.chain|, miner, rewardNow, rewardNonce, env)]
    ensures TxsOk(l, b, |b.txs|, isIbd, env) <==> Choosable(l, txs, b.timestamp, isIbd, env)
  {
    var n := |txs|;
    RewardIsOk(|l.chain|, miner, rewardNow, rewardNonce, isIbd, env);
    assert IsReward(b.txs[n]) && TxOk(l, b, n, isIbd, env) && PointSet(b.txs[n].inputs) == {};
    assert forall i | 0 <= i < n :: b.txs[i] == txs[i];
    if TxsOk(l, b, |b.txs|, isIbd, env) {
      forall i | 0 <= i < n
        ensures !IsReward(txs[i]) && ValidTx(l.unspent, txs[i], Bytes.FromBytes(l.targets.tx), isIbd, env)
        ensures TimestampOk(txs[i], b)
      {
        assert IsReward(b.txs[n]) ==> !IsReward(b.txs[i]);
        assert TxOk(l, b, i, isIbd, env);
      }
    }
    if Choosable(l, txs, b.timestamp, isIbd, env) {
      forall i | 0 <= i < |b.txs| ensures TxOk(l, b, i, isIbd, env) {
        assert i < n ==> b.txs[i] == txs[i];
      }
    }
  }

  lemma BuiltMetaOk(l: Ledger, all: seq<Transaction>, now: nat, nonce: nat, env: Env)
    requires AllComplete(all)
    ensures var b := Mined(Template(l, all, now, env), nonce, env);
      MetaOk(b, false, env) && b.txs == all && b.meta.previous == LastHash(l.chain) && b.timestamp == now
      && b.meta.blockDifficulty == l.targets.block && b.meta.txDifficulty == l.targets.tx
  {
    MinedIsAuthentic(Template(l, all, now, env), nonce, env);
  }

  lemma StillComplete(txs: seq<Transaction>, height: nat, miner: Address, rewardNow: nat, rewardNonce: nat, env: Env)
    ensures AllComplete(txs + [RewardTx(height, miner, rewardNow, rewardNonce, env)]) <==> AllComplete(txs)
  {
    var all := txs + [RewardTx(height, miner, rewardNow, rewardNonce, env)];
    RewardIsOk(height, miner, rewardNow, rewardNonce, false, env);
    assert all[|txs|] == RewardTx(height, miner, rewardNow, rewardNonce, env);
    assert forall i | 0 <= i < |txs| :: txs[i] == all[i];
  }

  /** A built block, once mined, is accepted exactly when its hash meets the block target and the transactions chosen
      for it are valid against the same ledger, spend nothing twice and are still timely. */
  lemma BuiltIsAccepted(l: Ledger, txs: seq<Transaction>, miner: Address, rewardNow: nat, rewardNonce: nat,
                        now: nat, nonce: nat, isIbd: bool, env: Env)
    requires |txs| < MAX_TRANSACTIONS_PER_BLOCK && AllComplete(txs)
    ensures var all := txs + [RewardTx(|l.chain|, miner, rewardNow, rewardNonce, env)];
      && AllComplete(all)
      && var b := Mined(Template(l, all, now, env), nonce, env);
         Acceptable(l, b, isIbd, false, env) <==>
         (b.meta.hash.value <= Bytes.FromBytes(Difficulty.CalculateBlockDifficulty(l.targets.block, |txs| + 1))
          && Choosable(l, txs, now, isIbd, env))
  {
    var all := txs + [RewardTx(|l.chain|, miner, rewardNow, rewardNonce, env)];
    StillComplete(txs, |l.chain|, miner, rewardNow, rewardNonce, env);
    BuiltMetaOk(l, all, now, nonce, env);
    BuiltTxsOk(l, Mined(Template(l, all, now, env), nonce, env), txs, miner, rewardNow, rewardNonce, isIbd, env);
  }

  /** `chosen` takes transactions of `all` at the distinct places `at`. */
  ghost predicate Picks(chosen: seq<Transaction>, all: seq<Transaction>, at: seq<nat>) {
    && |at| == |chosen|
    && (forall i | 0 <= i < |at| :: at[i] < |all| && chosen[i] == all[at[i]])
    && (forall i, j | 0 <= i < j < |at| :: at[i] != at[j])
  }

  lemma PicksKeep(chosen: seq<Transaction>, all: seq<Transaction>, at: seq<nat>)
    requires NoConflicts(all) && Picks(chosen, all, at)
    ensures NoConflicts(chosen)
  {
    forall i, j | 0 <= i < j < |chosen| ensures PointSet(chosen[i].inputs) !! PointSet(chosen[j].inputs) {
      assert at[i] < at[j] || at[j] < at[i];
    }
  }

  /** A miner may take any pending transactions, after any history of the pool, in any order: as long as each is still
      valid alone and timely, the block passes the input and double-spend checks. */
  lemma AnyPickIsChoosable(steps: seq<PoolStep>, chosen: seq<Transaction>, at: seq<nat>,
                           l: Ledger, now: nat, isIbd: bool, env: Env)
    requires Picks(chosen, Listing(PoolRun(map[], steps)), at)
    requires forall i | 0 <= i < |chosen| :: ValidTx(l.unspent, chosen[i], Bytes.FromBytes(l.targets.tx), isIbd, env)
    requires forall i | 0 <= i < |chosen| :: chosen[i].timestamp <= now <= chosen[i].timestamp + EXPIRATION_TIME
    ensures Choosable(l, chosen, now, isIbd, env)
  {
    NeverConflicting(map[], steps);
    PicksKeep(chosen, Listing(PoolRun(map[], steps)), at);
  }
}
