/** The node's blockchain: the unspent-output store, the block store and the difficulty state, moved together
    (src/core/blockchain.rs). */
module Blockchains {
  import opened Base
  import opened Types
  import opened Utxos
  import opened Blocks
  import opened BlockStores
  import opened HashLinks
  import opened Indexes
  import opened Ledgers
  import opened Economics
  import Difficulty
  import Bytes
  import Merkle

  datatype BlockError =
    | IncompleteBlock | InvalidBlockHash | IncorrectAddressInclusionFilter | IncompleteTransaction
    | InvalidMerkleTreeRoot | DifficultyMismatch | BlockPowDifficultyIncorrect

  datatype ChainError =
    | InBlock(block: BlockError) | InvalidPreviousBlockHash | TooManyTransactions
    | InvalidTransaction(tx: TxError) | DoubleSpend | InvalidTimestamp | RewardOverspend
    | InvalidRewardTransaction | RewardTransactionIdMissing | InvalidRewardTransactionAmount | NoDevFee
    | NoBlocksToPop | BlockNotFound | Store(store: StoreError)

  /** What a rejection of the block itself tells about it. */
  predicate BlockErrorMeans(e: BlockError, t: Difficulty.Targets, b: Block, env: Env) {
    match e
    case IncompleteBlock => b.meta.hash.None?
    case InvalidBlockHash => !Authentic(b, env)
    case IncorrectAddressInclusionFilter => env.filterOf(b.txs) != b.meta.filter
    case IncompleteTransaction => exists i | 0 <= i < |b.txs| :: !Complete(b.txs[i])
    case InvalidMerkleTreeRoot =>
      && (forall i | 0 <= i < |b.txs| :: Complete(b.txs[i]))
      && Merkle.TreeOf(env.hasher, TxIds(b.txs)).hash != b.meta.merkleRoot
    case DifficultyMismatch => b.meta.blockDifficulty != t.block || b.meta.txDifficulty != t.tx
    case BlockPowDifficultyIncorrect =>
      && b.meta.hash.Some?
      && b.meta.hash.value > Bytes.FromBytes(Difficulty.CalculateBlockDifficulty(t.block, |b.txs|))
  }

  /** What a rejection of the transactions tells about one of them, or about two. */
  ghost predicate TxRejectionMeans(e: ChainError, l: Ledger, db: Db, b: Block, isIbd: bool, env: Env) {
    match e
    case InvalidTransaction(t) => exists i | 0 <= i < |b.txs| ::
      || TxErrorMeans(t, db, b.txs[i], Bytes.FromBytes(l.targets.tx), isIbd, env)
      || (IsReward(b.txs[i]) && t == OverflowError && OutputSum(b.txs[i].outputs) >= U64_LIMIT)
    case DoubleSpend => exists i, j | 0 <= i < j < |b.txs| :: !(PointSet(b.txs[i].inputs) !! PointSet(b.txs[j].inputs))
    case InvalidTimestamp => exists i | 0 <= i < |b.txs| :: !TimestampOk(b.txs[i], b)
    case RewardOverspend => exists i, j | 0 <= i < j < |b.txs| :: IsReward(b.txs[i]) && IsReward(b.txs[j])
    case InvalidRewardTransaction => exists i | 0 <= i < |b.txs| :: IsReward(b.txs[i]) && |b.txs[i].outputs| < 2
    case RewardTransactionIdMissing => exists i | 0 <= i < |b.txs| :: IsReward(b.txs[i]) && b.txs[i].id.None?
    case InvalidRewardTransactionAmount => exists i | 0 <= i < |b.txs| ::
      IsReward(b.txs[i]) && OutputSum(b.txs[i].outputs) != GetBlockReward(|l.chain|)
    case NoDevFee => exists i | 0 <= i < |b.txs| :: IsReward(b.txs[i]) && !PaysDevFee(b.txs[i], |l.chain|)
    case _ => false
  }

  ghost predicate RejectionMeans(e: ChainError, l: Ledger, db: Db, b: Block, isIbd: bool, env: Env) {
    match e
    case InBlock(be) => BlockErrorMeans(be, l.targets, b, env)
    case InvalidPreviousBlockHash => LastHash(l.chain) != b.meta.previous
    case TooManyTransactions => |b.txs| > MAX_TRANSACTIONS_PER_BLOCK
    case _ => TxRejectionMeans(e, l, db, b, isIbd, env)
  }

  lemma RewardFits(height: nat)
    ensures GetBlockReward(height) < U64_LIMIT
  {
    RewardNonIncreasing(0, height);
  }

  /** What the checking loop knows after `k` transactions. */
  ghost predicate Checked(l: Ledger, b: Block, k: nat, isIbd: bool, env: Env, used: set<OutPoint>, seen: bool)
    requires k <= |b.txs|
  {
    && TxsOk(l, b, k, isIbd, env)
    && used == AllInputs(b.txs[..k])
    && (seen <==> exists i | 0 <= i < k :: IsReward(b.txs[i]))
  }

  lemma Collision(txs: seq<Transaction>, k: nat)
    requires k < |txs|
    ensures PointSet(txs[k].inputs) !! AllInputs(txs[..k]) <==>
      forall i | 0 <= i < k :: PointSet(txs[i].inputs) !! PointSet(txs[k].inputs)
  {
    if !(PointSet(txs[k].inputs) !! AllInputs(txs[..k])) {
      var p :| p in PointSet(txs[k].inputs) && p in AllInputs(txs[..k]);
      var t, x :| t in txs[..k] && x in t.inputs && p == Point(x);
      var i :| 0 <= i < k && txs[i] == t;
      assert p in PointSet(txs[i].inputs);
    } else {
      forall i, p | 0 <= i < k && p in PointSet(txs[i].inputs) ensures p !in PointSet(txs[k].inputs) {
        var x :| x in txs[i].inputs && p == Point(x);
        assert txs[i] in txs[..k];
      }
    }
  }

  lemma AllInputsStep(txs: seq<Transaction>, k: nat)
    requires k < |txs|
    ensures AllInputs(txs[..k + 1]) == AllInputs(txs[..k]) + PointSet(txs[k].inputs)
  {
    assert txs[..k + 1][..k] == txs[..k];
    OneMoreTx(txs[..k + 1]);
  }

  lemma TxsOkOneMore(l: Ledger, b: Block, k: nat, isIbd: bool, env: Env)
    requires k < |b.txs| && TxsOk(l, b, k, isIbd, env) && TxOk(l, b, k, isIbd, env)
    requires forall i | 0 <= i < k :: PointSet(b.txs[i].inputs) !! PointSet(b.txs[k].inputs)
    requires forall i | 0 <= i < k :: !(IsReward(b.txs[i]) && IsReward(b.txs[k]))
    ensures TxsOk(l, b, k + 1, isIbd, env)
  {
  }

  lemma CheckedOneMore(l: Ledger, b: Block, k: nat, isIbd: bool, env: Env, used: set<OutPoint>, seen: bool)
    requires k < |b.txs| && Checked(l, b, k, isIbd, env, used, seen)
    requires TxOk(l, b, k, isIbd, env) && PointSet(b.txs[k].inputs) !! used && !(seen && IsReward(b.txs[k]))
    ensures Checked(l, b, k + 1, isIbd, env, used + PointSet(b.txs[k].inputs), seen || IsReward(b.txs[k]))
  {
    AllInputsStep(b.txs, k);
    Collision(b.txs, k);
    TxsOkOneMore(l, b, k, isIbd, env);
  }

  /** A transaction that fails on its own or collides with an earlier one condemns the block. */
  lemma AllChecked(l: Ledger, b: Block, k: nat, isIbd: bool, env: Env, used: set<OutPoint>, seen: bool)
    requires k < |b.txs| && Checked(l, b, k, isIbd, env, used, seen) && TxsOk(l, b, |b.txs|, isIbd, env)
    ensures TxOk(l, b, k, isIbd, env) && PointSet(b.txs[k].inputs) !! used && !(seen && IsReward(b.txs[k]))
  {
    Collision(b.txs, k);
  }

  /** The loop that records the inputs of one validated transaction among those used in the block. */
  method InsertInputs(inputs: seq<Input>, used: set<OutPoint>) returns (r: Option<set<OutPoint>>)
    requires DistinctInputs(inputs)
    ensures r == if PointSet(inputs) !! used then Some(used + PointSet(inputs)) else None
  {
    var usedInputs := used;
    for i := 0 to |inputs|
      invariant usedInputs == used + PointSet(inputs[..i]) && PointSet(inputs[..i]) !! used
    {
      assert inputs[..i + 1] == inputs[..i] + [inputs[i]];
      if Point(inputs[i]) in usedInputs {
        assert Point(inputs[i]) in PointSet(inputs);
        return None;
      }
      usedInputs := usedInputs + {Point(inputs[i])};
    }
    assert inputs[..|inputs|] == inputs;
    return Some(usedInputs);
  }

  class Blockchain {
    const utxos: UTXOs
    const store: BlockStore
    const difficulty: Difficulty.DifficultyState
    const env: Env

    ghost predicate Valid()
      reads store
    {
      store.Valid() && Linked(store.Chain())
    }

    ghost function State(): (l: Ledger)
      requires store.Valid()
      reads utxos, store, difficulty
      ensures |l.diffs| == |l.chain| == store.height
    {
      Ledger(store.Chain(), store.Diffs(), utxos.View(), difficulty.Current())
    }

    constructor (env: Env)
      ensures Valid() && State() == GENESIS && store.IndexesAgree()
      ensures fresh(utxos) && fresh(store) && fresh(difficulty) && this.env == env
    {
      this.env := env;
      utxos := new UTXOs();
      store := new BlockStore();
      difficulty := new Difficulty.DifficultyState();
    }

    /** `check_meta` or `check_meta_ignore_hash`, then `validate_difficulties`. */
    method CheckMeta(b: Block, skipHash: bool) returns (r: Result<(), BlockError>)
      ensures r.Ok? <==> MetaOk(b, skipHash, env) && DifficultiesOk(difficulty.Current(), b)
      ensures r.Err? ==> BlockErrorMeans(r.error, difficulty.Current(), b, env)
      ensures !r.Panic?
    {
      if b.meta.hash.None? {
        return Err(BlockError.IncompleteBlock);
      }
      if !skipHash && b.meta.hash != Some(env.blockDigest(HashingBuf(b, env))) {
        return Err(InvalidBlockHash);
      }
      if env.filterOf(b.txs) != b.meta.filter {
        return Err(IncorrectAddressInclusionFilter);
      }
      for i := 0 to |b.txs|
        invariant forall j | 0 <= j < i :: Complete(b.txs[j])
      {
        if !Complete(b.txs[i]) {
          return Err(IncompleteTransaction);
        }
      }
      var tree := Merkle.Build(env.hasher, TxIds(b.txs));
      if tree.hash != b.meta.merkleRoot {
        return Err(InvalidMerkleTreeRoot);
      }
      if b.meta.blockDifficulty != difficulty.blockDifficulty ||
         b.meta.txDifficulty != difficulty.transactionDifficulty {
        return Err(DifficultyMismatch);
      }
      var target := Difficulty.ComputeBlockDifficulty(difficulty.blockDifficulty, |b.txs|);
      if b.meta.hash.value > Bytes.FromBytes(target) {
        return Err(BlockPowDifficultyIncorrect);
      }
      return Ok(());
    }

    /** The amount and the developers' fee of a reward. */
    method CheckPayout(tx: Transaction) returns (r: Result<(), ChainError>)
      requires Valid()
      ensures r.Ok? <==> OutputSum(tx.outputs) == GetBlockReward(store.height) && PaysDevFee(tx, store.height)
      ensures r == Err(InvalidTransaction(OverflowError)) ==> OutputSum(tx.outputs) >= U64_LIMIT
      ensures r == Err(InvalidRewardTransactionAmount) ==> OutputSum(tx.outputs) != GetBlockReward(store.height)
      ensures r == Err(NoDevFee) ==> !PaysDevFee(tx, store.height)
      ensures r.Err? ==> r.error in [InvalidTransaction(OverflowError), InvalidRewardTransactionAmount, NoDevFee]
      ensures !r.Panic?
    {
      RewardFits(store.height);
      var outSum := 0;
      for i := 0 to |tx.outputs|
        invariant outSum == OutputSum(tx.outputs[..i]) < U64_LIMIT
      {
        assert tx.outputs[..i + 1][..i] == tx.outputs[..i];
        OutputSumPrefix(tx.outputs, i + 1);
        if outSum + tx.outputs[i].amount >= U64_LIMIT {
          return Err(InvalidTransaction(OverflowError));
        }
        outSum := outSum + tx.outputs[i].amount;
      }
      assert tx.outputs[..|tx.outputs|] == tx.outputs;
      if outSum != GetBlockReward(store.height) {
        return Err(InvalidRewardTransactionAmount);
      }
      var fee := CalculateDevFee(GetBlockReward(store.height));
      for i := 0 to |tx.outputs|
        invariant forall j | 0 <= j < i :: !(tx.outputs[j].receiver == DEV_WALLET && tx.outputs[j].amount == fee)
      {
        if tx.outputs[i].receiver == DEV_WALLET && tx.outputs[i].amount == fee {
          assert tx.outputs[i] in tx.outputs;
          return Ok(());
        }
      }
      return Err(NoDevFee);
    }

    /** The branch of a transaction without inputs. */
    method CheckReward(b: Block, k: nat, isIbd: bool) returns (r: Result<(), ChainError>)
      requires Valid() && k < |b.txs| && IsReward(b.txs[k])
      ensures r.Ok? <==> RewardOk(b.txs[k], store.height, isIbd, env)
      ensures r.Err? ==> TxRejectionMeans(r.error, State(), utxos.db, b, isIbd, env)
      ensures !r.Panic?
    {
      var tx := b.txs[k];
      if |tx.outputs| < 2 {
        return Err(InvalidRewardTransaction);
      }
      if tx.id.None? {
        return Err(RewardTransactionIdMissing);
      }
      if !isIbd && tx.id.value != env.txDigest(TxBuf(tx)) {
        assert TxErrorMeans(InvalidHash, utxos.db, tx, Bytes.FromBytes(State().targets.tx), isIbd, env);
        return Err(InvalidTransaction(InvalidHash));
      }
      r := CheckPayout(tx);
    }

    /** The branch of a transaction with inputs. */
    method CheckOrdinary(b: Block, k: nat, isIbd: bool, used: set<OutPoint>)
      returns (r: Result<set<OutPoint>, ChainError>)
      requires Valid() && k < |b.txs| && !IsReward(b.txs[k]) && used == AllInputs(b.txs[..k])
      ensures r.Ok? <==> TxOk(State(), b, k, isIbd, env) && PointSet(b.txs[k].inputs) !! used
      ensures r.Ok? ==> r.value == used + PointSet(b.txs[k].inputs)
      ensures r.Err? ==> TxRejectionMeans(r.error, State(), utxos.db, b, isIbd, env)
      ensures !r.Panic?
    {
      var tx := b.txs[k];
      var valid := utxos.ValidateTransaction(tx, Bytes.FromBytes(difficulty.transactionDifficulty), isIbd, env);
      if !valid.Ok? {
        return Err(InvalidTransaction(valid.error));
      }
      var usedInputs := InsertInputs(tx.inputs, used);
      if usedInputs.None? {
        Collision(b.txs, k);
        return Err(ChainError.DoubleSpend);
      }
      if tx.timestamp > b.timestamp || tx.timestamp + EXPIRATION_TIME < b.timestamp {
        return Err(InvalidTimestamp);
      }
      return Ok(usedInputs.value);
    }

    /** One turn of the checking loop: the inputs used so far and whether a reward was seen, or why not. */
    method CheckTransaction(b: Block, k: nat, isIbd: bool, used: set<OutPoint>, seen: bool)
      returns (r: Result<(set<OutPoint>, bool), ChainError>)
      requires Valid() && k < |b.txs| && Checked(State(), b, k, isIbd, env, used, seen)
      ensures r.Ok? <==>
        TxOk(State(), b, k, isIbd, env) && PointSet(b.txs[k].inputs) !! used && !(seen && IsReward(b.txs[k]))
      ensures r.Ok? ==> r.value == (used + PointSet(b.txs[k].inputs), seen || IsReward(b.txs[k]))
      ensures r.Err? ==> TxRejectionMeans(r.error, State(), utxos.db, b, isIbd, env)
      ensures !r.Panic?
    {
      if b.txs[k].inputs != [] {
        var usedInputs := CheckOrdinary(b, k, isIbd, used);
        if !usedInputs.Ok? {
          return Err(usedInputs.error);
        }
        return Ok((usedInputs.value, seen));
      } else {
        if seen {
          return Err(RewardOverspend);
        }
        var ok := CheckReward(b, k, isIbd);
        if !ok.Ok? {
          return Err(ok.error);
        }
        assert used == used + PointSet(b.txs[k].inputs);
        return Ok((used, true));
      }
    }

    /** The loop over the transactions before any of them is executed. */
    method CheckTransactions(b: Block, isIbd: bool) returns (r: Result<(), ChainError>)
      requires Valid()
      ensures r.Ok? <==> TxsOk(State(), b, |b.txs|, isIbd, env)
      ensures r.Err? ==> TxRejectionMeans(r.error, State(), utxos.db, b, isIbd, env)
      ensures !r.Panic?
    {
      ghost var l := State();
      var usedInputs: set<OutPoint> := {};
      var seenRewardTransaction := false;
      for k := 0 to |b.txs|
        invariant Checked(l, b, k, isIbd, env, usedInputs, seenRewardTransaction)
      {
        var ok := CheckTransaction(b, k, isIbd, usedInputs, seenRewardTransaction);
        if !ok.Ok? {
          if TxsOk(l, b, |b.txs|, isIbd, env) {
            AllChecked(l, b, k, isIbd, env, usedInputs, seenRewardTransaction);
          }
          return Err(ok.error);
        }
        CheckedOneMore(l, b, k, isIbd, env, usedInputs, seenRewardTransaction);
        usedInputs, seenRewardTransaction := ok.value.0, ok.value.1;
      }
      return Ok(());
    }

    /** Everything `add_block` checks before it changes anything. */
    method CheckBlock(b: Block, isIbd: bool, skipHash: bool) returns (r: Result<(), ChainError>)
      requires Valid()
      ensures r.Ok? <==> Acceptable(State(), b, isIbd, skipHash, env)
      ensures r.Err? ==> RejectionMeans(r.error, State(), utxos.db, b, isIbd, env)
      ensures !r.Panic?
    {
      var header := CheckHeader(b, isIbd, skipHash);
      if !header.Ok? {
        return header;
      }
      r := CheckTransactions(b, isIbd);
    }

    /** Everything about a block but its transactions. */
    method CheckHeader(b: Block, ghost isIbd: bool, skipHash: bool) returns (r: Result<(), ChainError>)
      requires Valid()
      ensures r.Ok? <==>
        && MetaOk(b, skipHash, env) && DifficultiesOk(difficulty.Current(), b)
        && LastHash(store.Chain()) == b.meta.previous && |b.txs| <= MAX_TRANSACTIONS_PER_BLOCK
      ensures r.Err? ==> RejectionMeans(r.error, State(), utxos.db, b, isIbd, env)
      ensures !r.Panic?
    {
      var meta := CheckMeta(b, skipHash);
      if !meta.Ok? {
        return Err(InBlock(meta.error));
      }
      if store.lastBlock != b.meta.previous {
        return Err(InvalidPreviousBlockHash);
      }
      if |b.txs| > MAX_TRANSACTIONS_PER_BLOCK {
        return Err(TooManyTransactions);
      }
      return Ok(());
    }

    /** The loop that executes the transactions and collects their undo record. */
    method ExecuteTransactions(txs: seq<Transaction>) returns (r: Result<UTXODiff, TxError>)
      modifies utxos
      ensures r.Ok? <==> ExecutableTxs(old(utxos.View()), txs)
      ensures r.Ok? ==> utxos.View() == ExecTxs(old(utxos.View()), txs) && r.value == DiffTxs(old(utxos.View()), txs)
    {
      ghost var u := utxos.View();
      var diffs := UTXODiff([], []);
      for k := 0 to |txs|
        invariant ExecutableTxs(u, txs[..k])
        invariant utxos.View() == ExecTxs(u, txs[..k]) && diffs == DiffTxs(u, txs[..k])
      {
        ExecuteOneMore(u, txs, k);
        var diff := utxos.ExecuteTransaction(txs[k]);
        if !diff.Ok? {
          return if diff.Err? then Err(diff.error) else Panic;
        }
        diffs := UTXODiff(diffs.spent + diff.value.spent, diffs.created + diff.value.created);
      }
      assert txs[..|txs|] == txs;
      return Ok(diffs);
    }

    /** Adjust the difficulty and put the block on top of the store. */
    method Commit(b: Block, diffs: UTXODiff)
      requires Valid() && b.meta.hash.Some? && b.meta.previous == LastHash(store.Chain())
      modifies store, difficulty
      ensures Valid()
      ensures store.Chain() == old(store.Chain()) + [b] && store.Diffs() == old(store.Diffs()) + [diffs]
      ensures difficulty.Current()
              == Difficulty.Retargeted(Difficulty.RULE, old(difficulty.Current()), b.timestamp, |b.txs|)
      ensures store.IndexesAgree() <==> old(store.IndexesAgree()) && b.meta.hash.value !in old(store.byHash)
      ensures store.Lost() == Overwritten(old(store.Chain()), old(store.Lost()), b.meta.hash.value)
    {
      Difficulty.NodeRule(difficulty.Current(), b.timestamp, |b.txs|);
      difficulty.UpdateDifficulty(b);
      LinkedExtends(store.Chain(), b);
      var added := store.AddBlock(b, diffs);
    }

    /** A block is added exactly when it is acceptable and executes; a block that is not acceptable
        changes nothing. */
    method AddBlock(b: Block, isIbd: bool, skipHash: bool) returns (r: Result<(), ChainError>)
      requires Valid()
      modifies utxos, store, difficulty
      ensures Valid()
      ensures r.Ok? <==> Acceptable(old(State()), b, isIbd, skipHash, env) && ExecutableTxs(old(State()).unspent, b.txs)
      ensures r.Ok? ==> State() == Extend(old(State()), b, Difficulty.RULE) && store.Chain() == old(store.Chain()) + [b]
      ensures r.Ok? ==> (store.IndexesAgree() <==> old(store.IndexesAgree()) && b.meta.hash.value !in old(store.byHash))
      ensures r.Ok? ==> store.Lost() == Overwritten(old(store.Chain()), old(store.Lost()), b.meta.hash.value)
      ensures !r.Ok? ==> unchanged(store) && unchanged(difficulty)
      ensures !Acceptable(old(State()), b, isIbd, skipHash, env) ==> r.Err? && unchanged(utxos)
      ensures r.Err? && !Acceptable(old(State()), b, isIbd, skipHash, env) ==>
        RejectionMeans(r.error, old(State()), old(utxos.db), b, isIbd, env)
    {
      var checked := CheckBlock(b, isIbd, skipHash);
      if !checked.Ok? {
        return Err(checked.error);
      }
      var diffs := ExecuteTransactions(b.txs);
      if !diffs.Ok? {
        return if diffs.Err? then Err(InvalidTransaction(diffs.error)) else Panic;
      }
      Commit(b, diffs.value);
      return Ok(());
    }

    /** Both targets go back to those the popped block states; the clock to the block now on top, if any. */
    method RestoreDifficulty(recalled: Block)
      requires store.Valid()
      modifies difficulty
      ensures difficulty.Current() == Difficulty.Targets(
        recalled.meta.blockDifficulty, recalled.meta.txDifficulty,
        if store.height > 0 then store.Chain()[store.height - 1].timestamp else recalled.timestamp)
    {
      difficulty.blockDifficulty := recalled.meta.blockDifficulty;
      difficulty.transactionDifficulty := recalled.meta.txDifficulty;
      var last := store.GetLastBlock();
      if store.height > 0 && last.Some? {
        difficulty.lastTimestamp := last.value.timestamp;
      } else {
        difficulty.lastTimestamp := recalled.timestamp;
      }
    }

    /** Take the top block off the store and bring the difficulty state back. */
    method DropTop(recalled: Block)
      requires Valid() && store.height > 0 && recalled == store.Chain()[store.height - 1]
      modifies store, difficulty
      ensures Valid()
      ensures var n := old(store.height) - 1;
        && store.Chain() == old(store.Chain())[..n] && store.Diffs() == old(store.Diffs())[..n]
        && difficulty.Current() == Difficulty.Targets(
             recalled.meta.blockDifficulty, recalled.meta.txDifficulty,
             if n > 0 then old(store.Chain())[n - 1].timestamp else recalled.timestamp)
      ensures old(store.IndexesAgree()) ==> store.IndexesAgree()
      ensures store.Lost() == old(store.Lost())[..old(store.height) - 1]
    {
      LinkedShrinks(store.Chain(), store.height - 1);
      var popped := store.PopBlock();
      RestoreDifficulty(recalled);
    }

    /** A block is popped whenever there is one and its undo record applies. */
    method PopBlock() returns (r: Result<(), ChainError>)
      requires Valid()
      modifies utxos, store, difficulty
      ensures Valid()
      ensures old(store.height) == 0 ==> r == Err(NoBlocksToPop) && State() == old(State())
      ensures r.Ok? ==> old(store.height) > 0 && State() == Shrink(old(State()))
      ensures r.Ok? ==> store.Chain() == old(store.Chain())[..old(store.height) - 1]
      ensures CanPop(old(State())) ==> r.Ok?
      ensures r.Ok? && old(store.IndexesAgree()) ==> store.IndexesAgree()
      ensures r.Ok? ==> store.Lost() == old(store.Lost())[..old(store.height) - 1]
      ensures !r.Ok? ==> unchanged(store) && unchanged(difficulty)
    {
      if store.height == 0 {
        return Err(NoBlocksToPop);
      }
      var recalled := store.GetLastBlock();
      var diffs := store.GetLastUtxoDiffs();
      if recalled.None? || diffs.None? {
        return Err(BlockNotFound);
      }
      var undone := utxos.RecallBlockUtxos(diffs.value);
      if !undone.Ok? {
        return if undone.Err? then Err(InvalidTransaction(undone.error)) else Panic;
      }
      DropTop(recalled.value);
      return Ok(());
    }
  }

  /** Where accepted blocks execute, `add_block` is exactly the ledger's step and never panics; and the blocks it loses
      are those with the new block's hash. */
  method CallAdd(bc: Blockchain, b: Block, isIbd: bool, skipHash: bool) returns (r: Result<(), ChainError>)
    requires bc.Valid()
    requires Acceptable(bc.State(), b, isIbd, skipHash, bc.env) ==> ExecutableTxs(bc.State().unspent, b.txs)
    modifies bc.utxos, bc.store, bc.difficulty
    ensures bc.Valid() && !r.Panic?
    ensures r.Ok? <==> Acceptable(old(bc.State()), b, isIbd, skipHash, bc.env)
    ensures bc.State() == Next(old(bc.State()), Add(b, isIbd, skipHash), bc.env, Difficulty.RULE)
    ensures bc.store.Lost() == NextLost(old(bc.State()), old(bc.store.Lost()), Add(b, isIbd, skipHash), bc.env)
  {
    ghost var l := bc.State();
    r := bc.AddBlock(b, isIbd, skipHash);
    assert !r.Ok? ==> bc.State() == l;
  }

  /** Where the top block can be popped, so is `pop_block`. */
  method CallPop(bc: Blockchain) returns (r: Result<(), ChainError>)
    requires bc.Valid() && (bc.store.height > 0 ==> CanPop(bc.State()))
    modifies bc.utxos, bc.store, bc.difficulty
    ensures bc.Valid() && !r.Panic?
    ensures r.Ok? <==> old(bc.store.height) > 0
    ensures bc.State() == Next(old(bc.State()), Pop, bc.env, Difficulty.RULE)
    ensures bc.store.Lost() == NextLost(old(bc.State()), old(bc.store.Lost()), Pop, bc.env)
  {
    ghost var l := bc.State();
    ghost var popped := Next(l, Pop, bc.env, Difficulty.RULE);
    assert l.chain != [] ==> popped == Shrink(l);
    r := bc.PopBlock();
  }

  /** One call that goes through does not panic, and is the ledger's step. */
  method Call(bc: Blockchain, s: Step) returns (r: Result<(), ChainError>)
    requires bc.Valid() && Doable(bc.State(), s, bc.env)
    modifies bc.utxos, bc.store, bc.difficulty
    ensures bc.Valid() && bc.State() == Next(old(bc.State()), s, bc.env, Difficulty.RULE)
    ensures !r.Panic? && (r.Ok? <==> Succeeds(old(bc.State()), s, bc.env))
    ensures bc.store.Lost() == NextLost(old(bc.State()), old(bc.store.Lost()), s, bc.env)
  {
    match s {
      case Add(b, isIbd, skipHash) => r := CallAdd(bc, b, isIbd, skipHash);
      case Pop => r := CallPop(bc);
    }
  }

  /** No call panicked, and each succeeded or failed as expected. */
  ghost predicate Answers(results: seq<Result<(), ChainError>>, outcomes: seq<bool>) {
    |results| == |outcomes|
    && forall i | 0 <= i < |results| :: !results[i].Panic? && (results[i].Ok? <==> outcomes[i])
  }

  /** Any sequence of calls that go through is the run of the ledger. None panics, and each answers as the ledger
      says. */
  method CallSteps(bc: Blockchain, steps: seq<Step>) returns (results: seq<Result<(), ChainError>>)
    requires bc.Valid() && Executes(bc.State(), steps, bc.env, Difficulty.RULE)
    modifies bc.utxos, bc.store, bc.difficulty
    ensures bc.Valid() && bc.State() == Run(old(bc.State()), steps, bc.env, Difficulty.RULE)
    ensures Answers(results, Outcomes(old(bc.State()), steps, bc.env, Difficulty.RULE))
    ensures bc.store.Lost() == LostAfter(old(bc.State()), old(bc.store.Lost()), steps, bc.env, Difficulty.RULE)
    decreases |steps|
  {
    if steps == [] {
      return [];
    }
    ghost var l := bc.State();
    var first := Call(bc, steps[0]);
    var rest := CallSteps(bc, steps[1..]);
    results := [first] + rest;
    AnswersFirst(first, rest, l, steps, bc.env);
  }

  lemma AnswersFirst(first: Result<(), ChainError>, rest: seq<Result<(), ChainError>>, l: Ledger, steps: seq<Step>,
                     env: Env)
    requires |l.diffs| == |l.chain| && steps != [] && !first.Panic? && (first.Ok? <==> Succeeds(l, steps[0], env))
    requires Answers(rest, Outcomes(Next(l, steps[0], env, Difficulty.RULE), steps[1..], env, Difficulty.RULE))
    ensures Answers([first] + rest, Outcomes(l, steps, env, Difficulty.RULE))
  {
    var tail := Outcomes(Next(l, steps[0], env, Difficulty.RULE), steps[1..], env, Difficulty.RULE);
    assert Outcomes(l, steps, env, Difficulty.RULE) == [Succeeds(l, steps[0], env)] + tail;
    AnswersMore(first, rest, Succeeds(l, steps[0], env), tail);
  }

  lemma AnswersMore(first: Result<(), ChainError>, rest: seq<Result<(), ChainError>>, head: bool, tail: seq<bool>)
    requires !first.Panic? && (first.Ok? <==> head) && Answers(rest, tail)
    ensures Answers([first] + rest, [head] + tail)
  {
  }

  /** From a consistent state and with fresh ids any sequence of calls is the run of the ledger: every theorem about
      runs is about the node. None panics, and the indexes are inverse afterwards exactly if the run leaves no block
      lost. Where they were and accepted blocks bring fresh hashes, checked or not, it loses none. */
  method CallAll(bc: Blockchain, steps: seq<Step>) returns (results: seq<Result<(), ChainError>>)
    requires bc.Valid() && Consistent(bc.State(), Difficulty.RULE)
    requires FreshRun(bc.State(), steps, bc.env, Difficulty.RULE)
    modifies bc.utxos, bc.store, bc.difficulty
    ensures bc.Valid() && bc.State() == Run(old(bc.State()), steps, bc.env, Difficulty.RULE)
    ensures Answers(results, Outcomes(old(bc.State()), steps, bc.env, Difficulty.RULE))
    ensures bc.store.IndexesAgree() <==>
      NoneLost(LostAfter(old(bc.State()), old(bc.store.Lost()), steps, bc.env, Difficulty.RULE))
    ensures old(bc.store.IndexesAgree()) && old(FreshHashes(bc.State(), steps, bc.env, Difficulty.RULE)) ==>
      bc.store.IndexesAgree()
  {
    ghost var l, lost := bc.State(), bc.store.Lost();
    FreshExecutes(l, steps, bc.env, Difficulty.RULE);
    bc.store.AgreeMeansNoneLost();
    if NoneLost(lost) && FreshHashes(l, steps, bc.env, Difficulty.RULE) {
      FreshHashesLoseNothing(l, lost, steps, bc.env, Difficulty.RULE);
    }
    results := CallSteps(bc, steps);
    bc.store.AgreeMeansNoneLost();
  }

  // ---------- When hashes are checked they are fresh ----------

  ghost predicate HashesChecked(steps: seq<Step>) {
    forall i | 0 <= i < |steps| :: steps[i].Add? ==> !steps[i].skipHash
  }

  /** On a linked chain of authentic blocks an acceptable block whose hash is checked brings a new hash. */
  lemma AcceptedHashIsNew(l: Ledger, b: Block, isIbd: bool, env: Env)
    requires InjectiveBlockDigest(env) && Linked(l.chain) && AuthenticChain(l.chain, env)
    requires Acceptable(l, b, isIbd, false, env)
    ensures FreshHash(l.chain, b) && Linked(l.chain + [b]) && AuthenticChain(l.chain + [b], env)
  {
    NextHashIsNew(l.chain, b, env);
  }

  lemma NextHashIsNew(chain: seq<Block>, b: Block, env: Env)
    requires InjectiveBlockDigest(env) && Linked(chain) && AuthenticChain(chain, env)
    requires Authentic(b, env) && b.meta.previous == LastHash(chain)
    ensures FreshHash(chain, b) && Linked(chain + [b]) && AuthenticChain(chain + [b], env)
  {
    var more := chain + [b];
    LinkedExtends(chain, b);
    forall c | c in chain ensures c.meta.hash != b.meta.hash {
      var i :| 0 <= i < |chain| && chain[i] == c;
      if c.meta.hash == b.meta.hash {
        assert HashAt(more, i) == HashAt(more, |chain|);
        HashesDistinct(more, i, |chain|, env);
        assert false;
      }
    }
  }

  /** So along any run that checks hashes they are fresh, and the indexes stay inverse. */
  lemma {:induction false} CheckedHashesAreFresh(l: Ledger, steps: seq<Step>, env: Env, rule: Difficulty.Rule)
    requires |l.diffs| == |l.chain| && InjectiveBlockDigest(env) && HashesChecked(steps)
    requires Linked(l.chain) && AuthenticChain(l.chain, env)
    ensures FreshHashes(l, steps, env, rule)
    decreases |steps|
  {
    if steps != [] {
      CheckedStep(l, steps[0], env, rule);
      CheckedHashesAreFresh(Next(l, steps[0], env, rule), steps[1..], env, rule);
    }
  }

  lemma CheckedStep(l: Ledger, s: Step, env: Env, rule: Difficulty.Rule)
    requires |l.diffs| == |l.chain| && InjectiveBlockDigest(env) && (s.Add? ==> !s.skipHash)
    requires Linked(l.chain) && AuthenticChain(l.chain, env)
    ensures FreshHashStep(l, s, env)
    ensures Linked(Next(l, s, env, rule).chain) && AuthenticChain(Next(l, s, env, rule).chain, env)
  {
    if s.Add? && Acceptable(l, s.block, s.isIbd, s.skipHash, env) {
      AcceptedHashIsNew(l, s.block, s.isIbd, env);
    } else if s.Pop? && l.chain != [] {
      LinkedShrinks(l.chain, |l.chain| - 1);
    }
  }

  lemma ExecuteOneMore(u: View, txs: seq<Transaction>, k: nat)
    requires k < |txs| && ExecutableTxs(u, txs[..k])
    ensures ExecutableTxs(u, txs[..k + 1]) <==> Executable(ExecTxs(u, txs[..k]), txs[k])
    ensures ExecutableTxs(u, txs) ==> ExecutableTxs(u, txs[..k + 1])
    ensures Executable(ExecTxs(u, txs[..k]), txs[k]) ==>
      && ExecTxs(u, txs[..k + 1]) == ExecView(ExecTxs(u, txs[..k]), txs[k])
      && DiffTxs(u, txs[..k + 1]) == Joined(DiffTxs(u, txs[..k]), TxDiff(ExecTxs(u, txs[..k]), txs[k]))
  {
    assert txs[..k + 1][..k] == txs[..k];
    if ExecutableTxs(u, txs) {
      ExecutablePrefix(u, txs, k + 1);
    }
  }

  lemma {:induction false} ExecutablePrefix(u: View, txs: seq<Transaction>, k: nat)
    requires k <= |txs| && ExecutableTxs(u, txs)
    ensures ExecutableTxs(u, txs[..k])
    decreases |txs|
  {
    if k < |txs| {
      ExecutablePrefix(u, txs[..|txs| - 1], k);
      assert txs[..|txs| - 1][..k] == txs[..k];
    } else {
      assert txs[..k] == txs;
    }
  }
}
