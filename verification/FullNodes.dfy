/** The full node's acceptance of blocks and transactions (src/full_node/mod.rs:162-280). */
module FullNodes {
  import opened Base
  import opened Types
  import opened Utxos
  import opened Blocks
  import opened Ledgers
  import opened Blockchains
  import opened MemPools
  import Bytes
  import Difficulty

  const LAST_SEEN_TRANSACTIONS := 500

  datatype NodeError = IncompleteBlock | IncompleteTransaction | LiveTransactionDifficulty | DoubleSpend
    | Chain(chain: ChainError)

  /** At most the expiration time away from the clock, and not from the very first seconds. */
  predicate Timely(timestamp: nat, now: nat) {
    EXPIRATION_TIME <= timestamp && now - EXPIRATION_TIME <= timestamp <= now + EXPIRATION_TIME
  }

  /** The subtraction is in `u64`, so a timestamp below the expiration time panics. */
  function ValidateTimestamp(timestamp: nat, now: nat): (r: Result<(), ChainError>)
    ensures r.Ok? <==> Timely(timestamp, now)
    ensures r.Panic? <==> timestamp < EXPIRATION_TIME
    ensures r.Err? ==> r.error == InvalidTimestamp
  {
    if timestamp < EXPIRATION_TIME then Panic
    else if timestamp - EXPIRATION_TIME > now then Err(InvalidTimestamp)
    else if timestamp + EXPIRATION_TIME < now then Err(InvalidTimestamp)
    else Ok(())
  }

  /** The list of seen transactions with one more, the oldest forgotten past the limit. */
  function Remembered(seen: seq<Hash>, id: Hash): seq<Hash> {
    if id in seen then seen
    else if |seen| + 1 > LAST_SEEN_TRANSACTIONS then (seen + [id])[1..]
    else seen + [id]
  }

  /** What was just remembered is on the list. */
  lemma RememberedHolds(seen: seq<Hash>, id: Hash)
    ensures id in Remembered(seen, id)
    ensures |seen| <= LAST_SEEN_TRANSACTIONS ==> |Remembered(seen, id)| <= LAST_SEEN_TRANSACTIONS
  {
    var all := seen + [id];
    assert all[|seen|] == id;
    if id !in seen && |all| > LAST_SEEN_TRANSACTIONS {
      assert all[1..][|seen| - 1] == id;
    }
  }

  /** The list after more ids, and those of them that were new to it. */
  function RememberedAll(seen: seq<Hash>, ids: seq<Hash>): seq<Hash>
    decreases |ids|
  {
    if ids == [] then seen else RememberedAll(Remembered(seen, ids[0]), ids[1..])
  }

  function NewOnes(seen: seq<Hash>, ids: seq<Hash>): seq<Hash>
    decreases |ids|
  {
    if ids == [] then []
    else (if ids[0] in seen then [] else [ids[0]]) + NewOnes(Remembered(seen, ids[0]), ids[1..])
  }

  function LastOf<T>(s: seq<T>, n: nat): seq<T> {
    if |s| <= n then s else s[|s| - n..]
  }

  lemma LastOfMore<T>(s: seq<T>, more: seq<T>, n: nat)
    ensures LastOf(LastOf(s, n) + more, n) == LastOf(s + more, n)
  {
  }

  lemma NewestStep<T>(seen: seq<T>, x: T, more: seq<T>, n: nat)
    ensures LastOf(LastOf(seen + [x], n) + more, n) == LastOf(seen + ([x] + more), n)
  {
    LastOfMore(seen + [x], more, n);
    assert seen + [x] + more == seen + ([x] + more);
  }

  lemma RememberedIs(seen: seq<Hash>, id: Hash)
    requires |seen| <= LAST_SEEN_TRANSACTIONS
    ensures Remembered(seen, id) == if id in seen then seen else LastOf(seen + [id], 500)
  {
  }

  /** Whatever is offered, the list holds the 500 ids that were new last, oldest first. */
  lemma {:induction false} NewestRemembered(seen: seq<Hash>, ids: seq<Hash>)
    requires |seen| <= 500
    ensures RememberedAll(seen, ids) == LastOf(seen + NewOnes(seen, ids), 500)
    decreases |ids|
  {
    if ids == [] {
      assert seen + [] == seen;
    } else {
      var next, more := Remembered(seen, ids[0]), NewOnes(Remembered(seen, ids[0]), ids[1..]);
      RememberedIs(seen, ids[0]);
      NewestRemembered(next, ids[1..]);
      if ids[0] in seen {
        assert NewOnes(seen, ids) == more;
      } else {
        NewestStep(seen, ids[0], more, 500);
      }
    }
  }

  /** So an id just remembered stays until 500 newer ones came. */
  lemma {:induction false} StaysRemembered(seen: seq<Hash>, id: Hash, ids: seq<Hash>)
    requires |seen| <= 500 && id !in seen
    requires |NewOnes(Remembered(seen, id), ids)| < 500
    ensures id in RememberedAll(Remembered(seen, id), ids)
  {
    var now := Remembered(seen, id);
    var newer := NewOnes(now, ids);
    RememberedIs(seen, id);
    RememberedHolds(seen, id);
    NewestRemembered(now, ids);
    var all := now + newer;
    assert now[|now| - 1] == id && all[|now| - 1] == id;
    var kept := LastOf(all, 500);
    assert kept[|kept| - 1 - |newer|] == id;
  }

  /** The target a new transaction must meet: the chain's, tightened by the number of pending transactions. */
  function LiveTargetOf(l: Ledger, pending: nat): nat {
    Bytes.FromBytes(Bytes.To32Bytes(Difficulty.LiveTarget(Bytes.FromBytes(l.targets.tx), pending)))
  }

  /** In numbers: a five-hundredth less for each pending transaction. */
  lemma LiveTargetOfMet(l: Ledger, pending: nat, id: nat)
    requires Difficulty.Fits(l.targets)
    ensures id <= LiveTargetOf(l, pending)
      <==> 500 * id <= Bytes.FromBytes(l.targets.tx) * if pending < 500 then 500 - pending else 0
  {
    var t := Bytes.FromBytes(l.targets.tx);
    Difficulty.LiveTargetTightens(t, pending, pending);
    Difficulty.LiveTargetMet(t, pending, id);
  }

  /** What it takes for a transaction to be put before a pool that holds `pending` transactions. */
  ghost predicate Presentable(l: Ledger, pending: nat, tx: Transaction, now: nat, env: Env) {
    && tx.id.Some? && tx.id.value <= LiveTargetOf(l, pending)
    && Timely(tx.timestamp, now)
    && ValidTx(l.unspent, tx, Bytes.FromBytes(l.targets.tx), false, env)
  }

  /** What it takes for a transaction that was not seen yet to enter the pool. */
  ghost predicate Admissible(l: Ledger, pool: seq<Transaction>, tx: Transaction, now: nat, env: Env) {
    Presentable(l, |pool|, tx, now, env) && ConflictsWithNone(pool, tx)
  }

  /** In numbers: at most 350 seconds off either way, within the tightened target, valid, and no input of it pending. */
  lemma AdmissibleInNumbers(l: Ledger, pool: seq<Transaction>, tx: Transaction, now: nat, env: Env)
    requires Difficulty.Fits(l.targets) && (tx.id.Some? ==> tx.id.value >= 0)
    ensures Admissible(l, pool, tx, now, env) <==>
      && ValidTx(l.unspent, tx, Bytes.FromBytes(l.targets.tx), false, env)
      && 350 <= tx.timestamp && tx.timestamp <= now + 350 && now <= tx.timestamp + 350
      && 500 * tx.id.value <= Bytes.FromBytes(l.targets.tx) * (if |pool| < 500 then 500 - |pool| else 0)
      && forall t <- pool, i <- t.inputs, j <- tx.inputs :: Point(i) != Point(j)
  {
    if tx.id.Some? {
      LiveTargetOfMet(l, |pool|, tx.id.value);
    }
    InputsApart(pool, tx);
  }

  lemma InputsApart(pool: seq<Transaction>, tx: Transaction)
    ensures ConflictsWithNone(pool, tx) <==> forall t <- pool, i <- t.inputs, j <- tx.inputs :: Point(i) != Point(j)
  {
    if ConflictsWithNone(pool, tx) {
      forall t, i, j | t in pool && i in t.inputs && j in tx.inputs ensures Point(i) != Point(j) {
        var k :| 0 <= k < |pool| && pool[k] == t;
        assert Point(i) in PointSet(pool[k].inputs) && Point(j) in PointSet(tx.inputs);
      }
    }
    if forall t <- pool, i <- t.inputs, j <- tx.inputs :: Point(i) != Point(j) {
      forall k | 0 <= k < |pool| ensures PointSet(pool[k].inputs) !! PointSet(tx.inputs) {
        assert pool[k] in pool;
      }
    }
  }

  /** What a refusal tells about the transaction. */
  ghost predicate RefusalMeans(e: NodeError, l: Ledger, db: Db, pool: seq<Transaction>, tx: Transaction, now: nat,
                               env: Env) {
    match e
    case IncompleteTransaction => !Complete(tx)
    case LiveTransactionDifficulty => tx.id.Some? && tx.id.value > LiveTargetOf(l, |pool|)
    case DoubleSpend => !ConflictsWithNone(pool, tx)
    case Chain(InvalidTimestamp) => !Timely(tx.timestamp, now)
    case Chain(InvalidTransaction(t)) => TxErrorMeans(t, db, tx, Bytes.FromBytes(l.targets.tx), false, env)
    case _ => false
  }

  lemma AcceptableHasIds(l: Ledger, b: Block, env: Env)
    ensures Acceptable(l, b, false, false, env) ==> forall i | 0 <= i < |b.txs| :: b.txs[i].id.Some?
  {
    assert Acceptable(l, b, false, false, env) ==> forall i | 0 <= i < |b.txs| :: Complete(b.txs[i]);
  }

  /** The block is acceptable and executes. */
  ghost predicate Passes(l: Ledger, b: Block, env: Env) {
    Acceptable(l, b, false, false, env) && ExecutableTxs(l.unspent, b.txs)
  }

  class Node {
    const blockchain: Blockchain
    const mempool: MemPool
    var lastSeenBlock: Hash
    var lastSeenTransactions: seq<Hash>

    ghost predicate Valid()
      reads blockchain.store, mempool
    {
      blockchain.Valid() && NoConflicts(Listing(mempool.pending))
    }

    constructor (env: Env)
      ensures Valid() && blockchain.State() == GENESIS && mempool.pending == map[] && blockchain.env == env
    {
      blockchain := new Blockchain(env);
      mempool := new MemPool();
      lastSeenBlock := 0;
      lastSeenTransactions := [];
    }

    /** Remember a transaction, forgetting the oldest one past the limit. */
    method AddLastSeenTransaction(id: Hash)
      modifies this
      ensures lastSeenBlock == old(lastSeenBlock) && lastSeenTransactions == Remembered(old(lastSeenTransactions), id)
    {
      if id !in lastSeenTransactions {
        lastSeenTransactions := lastSeenTransactions + [id];
        if |lastSeenTransactions| > LAST_SEEN_TRANSACTIONS {
          lastSeenTransactions := lastSeenTransactions[1..];
        }
      }
    }

    /** The checks before the pool is asked. */
    method CheckTransaction(tx: Transaction, now: nat) returns (r: Result<(), NodeError>)
      requires Valid() && tx.id.Some?
      ensures r.Ok? <==> Presentable(blockchain.State(), |Listing(mempool.pending)|, tx, now, blockchain.env)
      ensures r.Panic? ==> tx.timestamp < EXPIRATION_TIME
      ensures r.Err? ==>
        RefusalMeans(r.error, blockchain.State(), blockchain.utxos.db, Listing(mempool.pending), tx, now,
                     blockchain.env)
    {
      var size := mempool.MempoolSize();
      var live := Difficulty.CalculateLiveTransactionDifficulty(blockchain.difficulty.transactionDifficulty, size);
      if Bytes.FromBytes(live) < tx.id.value {
        return Err(LiveTransactionDifficulty);
      }
      var timely := ValidateTimestamp(tx.timestamp, now);
      if timely.Panic? {
        return Panic;
      }
      if timely.Err? {
        return Err(Chain(timely.error));
      }
      var valid := blockchain.utxos.ValidateTransaction(
        tx, Bytes.FromBytes(blockchain.difficulty.transactionDifficulty), false, blockchain.env);
      if !valid.Ok? {
        return Err(Chain(InvalidTransaction(valid.error)));
      }
      return Ok(());
    }

    /** The pool's check for conflicts, then the addition. */
    method EnterPool(tx: Transaction, now: nat) returns (entered: bool)
      requires NoConflicts(Listing(mempool.pending))
      modifies mempool
      ensures NoConflicts(Listing(mempool.pending))
      ensures entered <==> ConflictsWithNone(Listing(old(mempool.pending)), tx)
      ensures entered ==> mempool.pending == Added(old(mempool.pending), now + EXPIRATION_TIME, tx)
      ensures !entered ==> unchanged(mempool)
    {
      entered := mempool.ValidateTransaction(tx);
      if entered {
        MemPools.AddKeeps(mempool.pending, now + EXPIRATION_TIME, tx);
        mempool.AddTransaction(tx, now);
      }
    }

    /** All checks, then the pool. */
    method Admit(tx: Transaction, now: nat) returns (r: Result<(), NodeError>)
      requires Valid() && tx.id.Some?
      modifies mempool
      ensures Valid()
      ensures r.Ok? <==> Admissible(blockchain.State(), Listing(old(mempool.pending)), tx, now, blockchain.env)
      ensures r.Ok? ==> mempool.pending == Added(old(mempool.pending), now + EXPIRATION_TIME, tx)
      ensures r.Err? ==>
        RefusalMeans(r.error, blockchain.State(), blockchain.utxos.db, Listing(old(mempool.pending)), tx, now,
                     blockchain.env)
      ensures !r.Ok? ==> unchanged(mempool)
    {
      var checked := CheckTransaction(tx, now);
      if !checked.Ok? {
        return checked;
      }
      var entered := EnterPool(tx, now);
      return if entered then Ok(()) else Err(NodeError.DoubleSpend);
    }

    /** A transaction not seen before enters the pool exactly when it is admissible, and then it is the only change:
        the step is the pool's atomic admission. One seen before changes nothing. */
    method AcceptTransaction(tx: Transaction, now: nat) returns (r: Result<(), NodeError>)
      requires Valid()
      modifies this, mempool
      ensures Valid()
      ensures lastSeenBlock == old(lastSeenBlock)
      ensures lastSeenTransactions
              == if Complete(tx) then Remembered(old(lastSeenTransactions), tx.id.value) else old(lastSeenTransactions)
      ensures (Complete(tx) && tx.id.value in old(lastSeenTransactions)) ==>
                r.Ok? && unchanged(this) && unchanged(mempool)
      ensures !Complete(tx) ==> r == Err(NodeError.IncompleteTransaction) && unchanged(this) && unchanged(mempool)
      ensures Complete(tx) && tx.id.value !in old(lastSeenTransactions) ==>
        (r.Ok? <==> Admissible(blockchain.State(), Listing(old(mempool.pending)), tx, now, blockchain.env))
      ensures Complete(tx) && tx.id.value !in old(lastSeenTransactions) && r.Ok? ==>
        mempool.pending == Added(old(mempool.pending), now + EXPIRATION_TIME, tx)
      ensures !r.Ok? ==> unchanged(mempool)
      ensures r.Err? ==>
        RefusalMeans(r.error, blockchain.State(), blockchain.utxos.db, Listing(old(mempool.pending)), tx, now,
                     blockchain.env)
    {
      if !Complete(tx) {
        return Err(NodeError.IncompleteTransaction);
      }
      if tx.id.value in lastSeenTransactions {
        return Ok(());
      }
      AddLastSeenTransaction(tx.id.value);
      r := Admit(tx, now);
    }

    method AddToChain(b: Block) returns (r: Result<(), NodeError>)
      requires blockchain.Valid()
      modifies blockchain.utxos, blockchain.store, blockchain.difficulty
      ensures blockchain.Valid()
      ensures r.Ok? <==> Passes(old(blockchain.State()), b, blockchain.env)
      ensures r.Ok? ==> blockchain.State() == Extend(old(blockchain.State()), b, Difficulty.RULE)
      ensures r.Ok? ==> (forall i | 0 <= i < |b.txs| :: b.txs[i].id.Some?)
      ensures !r.Ok? ==> unchanged(blockchain.store) && unchanged(blockchain.difficulty)
      ensures !Acceptable(old(blockchain.State()), b, false, false, blockchain.env) ==> unchanged(blockchain.utxos)
    {
      AcceptableHasIds(blockchain.State(), b, blockchain.env);
      var added := blockchain.AddBlock(b, false, false);
      return if added.Ok? then Ok(()) else if added.Err? then Err(Chain(added.error)) else Panic;
    }

    /** Add the block, then take what it holds out of the pool. */
    method Apply(b: Block) returns (r: Result<(), NodeError>)
      requires Valid()
      modifies mempool, blockchain.utxos, blockchain.store, blockchain.difficulty
      ensures Valid()
      ensures r.Ok? <==> Passes(old(blockchain.State()), b, blockchain.env)
      ensures r.Ok? ==> blockchain.State() == Extend(old(blockchain.State()), b, Difficulty.RULE)
      ensures r.Ok? ==> (forall i | 0 <= i < |b.txs| :: b.txs[i].id.Some?)
      ensures r.Ok? ==> mempool.pending == Unspent(old(mempool.pending), TxIds(b.txs))
      ensures !r.Ok? ==> unchanged(mempool) && unchanged(blockchain.store) && unchanged(blockchain.difficulty)
      ensures !Acceptable(old(blockchain.State()), b, false, false, blockchain.env) ==> unchanged(blockchain.utxos)
    {
      r := AddToChain(b);
      if r.Ok? {
        SpendBlock(b);
      }
    }

    method SpendBlock(b: Block)
      requires NoConflicts(Listing(mempool.pending)) && forall i | 0 <= i < |b.txs| :: b.txs[i].id.Some?
      modifies mempool
      ensures mempool.pending == Unspent(old(mempool.pending), TxIds(b.txs))
      ensures NoConflicts(Listing(mempool.pending))
    {
      PoolStepKeeps(mempool.pending, Spend(TxIds(b.txs)));
      mempool.SpendTransactions(TxIds(b.txs));
    }

    /** A block not just seen is accepted exactly when it is timely, acceptable and executes. Then the chain grows by it
        and its transactions leave the pool; otherwise pool, blocks and targets stay, and so do the unspent outputs
        unless an acceptable block failed to execute, which `Ledgers.AcceptedExecutes` rules out where ids are fresh. */
    method AcceptBlock(b: Block, now: nat) returns (r: Result<(), NodeError>)
      requires Valid()
      modifies this, mempool, blockchain.utxos, blockchain.store, blockchain.difficulty
      ensures Valid() && lastSeenTransactions == old(lastSeenTransactions)
      ensures lastSeenBlock == if b.meta.hash.Some? then b.meta.hash.value else old(lastSeenBlock)
      ensures b.meta.hash == Some(old(lastSeenBlock)) ==> r.Ok?
      ensures b.meta.hash != Some(old(lastSeenBlock)) ==>
        (r.Ok? <==> b.meta.hash.Some? && Timely(b.timestamp, now)
                    && Passes(old(blockchain.State()), b, blockchain.env))
      ensures if r.Ok? && b.meta.hash != Some(old(lastSeenBlock)) then
          && blockchain.State() == Extend(old(blockchain.State()), b, Difficulty.RULE)
          && (forall i | 0 <= i < |b.txs| :: b.txs[i].id.Some?)
          && mempool.pending == Unspent(old(mempool.pending), TxIds(b.txs))
        else
          unchanged(mempool) && unchanged(blockchain.store) && unchanged(blockchain.difficulty)
      ensures b.meta.hash == Some(old(lastSeenBlock)) ==> unchanged(this) && unchanged(blockchain.utxos)
      ensures !(Timely(b.timestamp, now) && Acceptable(old(blockchain.State()), b, false, false, blockchain.env)) ==>
        unchanged(blockchain.utxos)
    {
      if b.meta.hash.None? {
        return Err(NodeError.IncompleteBlock);
      }
      if b.meta.hash.value == lastSeenBlock {
        return Ok(());
      }
      lastSeenBlock := b.meta.hash.value;
      var timely := ValidateTimestamp(b.timestamp, now);
      if timely.Panic? {
        return Panic;
      }
      if timely.Err? {
        return Err(Chain(timely.error));
      }
      r := Apply(b);
    }
  }

  /** A complete transaction sent twice in a row is answered Ok the second time and changes nothing then, also if it was
      refused the first time. */
  method AcceptTransactionTwice(node: Node, tx: Transaction, now: nat, later: nat)
    returns (first: Result<(), NodeError>, second: Result<(), NodeError>)
    requires node.Valid()
    modifies node, node.mempool
    ensures node.Valid() && (Complete(tx) ==> second.Ok?)
    ensures !first.Ok? ==> node.mempool.pending == old(node.mempool.pending)
  {
    first := node.AcceptTransaction(tx, now);
    if Complete(tx) {
      RememberedHolds(old(node.lastSeenTransactions), tx.id.value);
    }
    second := node.AcceptTransaction(tx, later);
  }

  /** So is a block with a hash: sent again it is answered Ok, and refused the first time it still is not active. */
  method AcceptBlockTwice(node: Node, b: Block, now: nat, later: nat)
    returns (first: Result<(), NodeError>, second: Result<(), NodeError>)
    requires node.Valid()
    modifies node, node.mempool, node.blockchain.utxos, node.blockchain.store, node.blockchain.difficulty
    ensures node.Valid() && (b.meta.hash.Some? ==> second.Ok?)
    ensures b.meta.hash.Some? && !first.Ok? ==> node.blockchain.store.Chain() == old(node.blockchain.store.Chain())
  {
    first := node.AcceptBlock(b, now);
    second := node.AcceptBlock(b, later);
  }

  /** After a block is accepted the pool holds exactly the transactions it held before and whose ids are not in it. */
  lemma PoolAfterBlock(pending: Buckets, b: Block)
    requires forall i | 0 <= i < |b.txs| :: b.txs[i].id.Some?
    ensures forall t :: t in Listing(PoolNext(pending, Spend(TxIds(b.txs)))) <==>
      (t in Listing(pending) && (t.id.None? || forall i | 0 <= i < |b.txs| :: b.txs[i].id != t.id))
  {
    var ids := TxIds(b.txs);
    SpendFilters(pending, ids);
    WithoutMembers(Listing(pending), ids);
    forall t: Transaction | t.id.Some?
      ensures t.id.value in ids <==> exists i :: 0 <= i < |b.txs| && b.txs[i].id == t.id
    {
      if t.id.value in ids {
        var i :| 0 <= i < |ids| && ids[i] == t.id.value;
        assert b.txs[i].id == t.id;
      }
      forall i | 0 <= i < |b.txs| && b.txs[i].id == t.id ensures t.id.value in ids {
        assert ids[i] == t.id.value;
      }
    }
  }
}
