/** Transactions, blocks and undo records, and the cryptographic functions they are checked with
    (src/core/transaction.rs, src/core/block.rs, src/core/utxo.rs). */
module Types {
  import opened Base
  import Merkle

  const MAX_TRANSACTION_IO := 150
  const MAX_TRANSACTIONS_PER_BLOCK := 500
  const EXPIRATION_TIME := 350
  const SCIP_1_MIGRATION := 1770375600
  const SCIP_2_MIGRATION := 1770894000
  const GENESIS_PREVIOUS_BLOCK_HASH: Hash := 0
  const DEV_WALLET: Address := 0xED10_A238_FECB_3EC1_4DA2_40B2_19E2_89B8_4DBF_DB02_36B2_DEA4_8B8A_C3A9_6042_9F9B

  datatype Input = Input(txId: Hash, index: nat, signature: Option<Signature>, owner: Address)

  datatype Output = Output(amount: U64, receiver: Address)

  datatype Transaction = Transaction(
    inputs: seq<Input>, outputs: seq<Output>, id: Option<Hash>, nonce: nat, timestamp: nat)

  /** `filter` is the address inclusion filter, which the chain only ever compares for equality. */
  datatype Meta = Meta(
    blockDifficulty: seq<nat>, txDifficulty: seq<nat>, previous: Hash, hash: Option<Hash>,
    merkleRoot: Merkle.Digest, filter: int)

  datatype Block = Block(txs: seq<Transaction>, timestamp: nat, nonce: nat, meta: Meta)

  /** The place of an output: the id of its transaction and its index there. */
  datatype OutPoint = OutPoint(tx: Hash, index: nat)

  datatype DiffEntry = DiffEntry(point: OutPoint, output: Output)

  datatype UTXODiff = UTXODiff(spent: seq<DiffEntry>, created: seq<DiffEntry>)

  /** The buffer a block's hash is taken over: the block without its hash and without the inputs and outputs
      of its transactions, and after SCIP-1 one digest per transaction of its inputs. */
  datatype BlockBuf = BlockBuf(stripped: Block, inputDigests: seq<Hash>)

  /** The hash functions and the signature check, as unknown functions. */
  datatype Env = Env(
    blockDigest: BlockBuf -> Hash,
    inputsDigest: seq<Input> -> Hash,
    txDigest: Transaction -> Hash,
    verify: (Signature, Address, Transaction) -> bool,
    filterOf: seq<Transaction> -> int,
    hasher: Merkle.Hasher)

  function Point(i: Input): OutPoint {
    OutPoint(i.txId, i.index)
  }

  function TxBuf(tx: Transaction): Transaction {
    tx.(id := None)
  }

  function SigningBuf(tx: Transaction): Transaction {
    tx.(id := None, nonce := 0,
        inputs := seq(|tx.inputs|, i requires 0 <= i < |tx.inputs| => tx.inputs[i].(signature := None)))
  }

  /** The two agree in all but id, nonce and signatures. */
  predicate SameSigned(a: Transaction, b: Transaction) {
    && a.outputs == b.outputs && a.timestamp == b.timestamp && |a.inputs| == |b.inputs|
    && forall i | 0 <= i < |a.inputs| ::
      Point(a.inputs[i]) == Point(b.inputs[i]) && a.inputs[i].owner == b.inputs[i].owner
  }

  /** What a signature covers, exactly. */
  lemma SigningCovers(a: Transaction, b: Transaction)
    ensures SigningBuf(a) == SigningBuf(b) <==> SameSigned(a, b)
  {
    var p, q := SigningBuf(a), SigningBuf(b);
    if p == q {
      assert a.outputs == p.outputs && a.timestamp == p.timestamp && |a.inputs| == |p.inputs|;
      assert b.outputs == q.outputs && b.timestamp == q.timestamp && |b.inputs| == |q.inputs|;
      forall i | 0 <= i < |a.inputs|
        ensures Point(a.inputs[i]) == Point(b.inputs[i]) && a.inputs[i].owner == b.inputs[i].owner
      {
        assert p.inputs[i] == a.inputs[i].(signature := None) && q.inputs[i] == b.inputs[i].(signature := None);
      }
    }
    if SameSigned(a, b) {
      forall i | 0 <= i < |a.inputs| ensures p.inputs[i] == q.inputs[i] {
        assert Point(a.inputs[i]) == Point(b.inputs[i]);
      }
      assert p.inputs == q.inputs;
    }
  }

  function StripTx(tx: Transaction): Transaction {
    tx.(inputs := [], outputs := [])
  }

  function HashingBuf(b: Block, env: Env): BlockBuf {
    BlockBuf(
      b.(meta := b.meta.(hash := None),
         txs := seq(|b.txs|, i requires 0 <= i < |b.txs| => StripTx(b.txs[i]))),
      if b.timestamp > SCIP_1_MIGRATION
      then seq(|b.txs|, i requires 0 <= i < |b.txs| => env.inputsDigest(b.txs[i].inputs))
      else [])
  }

  /** `check_completeness` of a transaction. */
  predicate Complete(tx: Transaction) {
    tx.id.Some? && forall i <- tx.inputs :: i.signature.Some?
  }

  function TxIds(txs: seq<Transaction>): seq<Hash>
    requires forall i | 0 <= i < |txs| :: txs[i].id.Some?
  {
    seq(|txs|, i requires 0 <= i < |txs| => txs[i].id.value)
  }

  // ---------- What a block hash commits to ----------

  ghost predicate InjectiveBlockDigest(env: Env) {
    && (forall a, b :: env.blockDigest(a) == env.blockDigest(b) ==> a == b)
    && (forall a :: env.blockDigest(a) != GENESIS_PREVIOUS_BLOCK_HASH)
  }

  ghost predicate InjectiveTxDigest(env: Env) {
    forall a, b :: env.txDigest(a) == env.txDigest(b) ==> a == b
  }

  /** A signature is accepted from an owner for one buffer only. */
  ghost predicate SignsOnce(env: Env) {
    forall s, owner, a, b :: env.verify(s, owner, a) && env.verify(s, owner, b) ==> a == b
  }

  /** The attached hash is the digest of the block (`validate_block_hash`). */
  predicate Authentic(b: Block, env: Env) {
    b.meta.hash == Some(env.blockDigest(HashingBuf(b, env)))
  }

  /** Every attached transaction id is the digest of its transaction. */
  predicate IdsAuthentic(b: Block, env: Env) {
    forall i | 0 <= i < |b.txs| :: b.txs[i].id == Some(env.txDigest(TxBuf(b.txs[i])))
  }

  ghost predicate InjectiveInputsDigest(env: Env) {
    forall a, b :: env.inputsDigest(a) == env.inputsDigest(b) ==> a == b
  }

  /** The blocks differ at most in the outputs of their transactions, and up to SCIP-1 in the inputs. */
  ghost predicate SameHashedPart(a: Block, b: Block) {
    && |a.txs| == |b.txs| && a == b.(txs := a.txs, meta := b.meta.(hash := a.meta.hash))
    && forall i | 0 <= i < |a.txs| ::
      && StripTx(a.txs[i]) == StripTx(b.txs[i])
      && (a.timestamp > SCIP_1_MIGRATION ==> a.txs[i].inputs == b.txs[i].inputs)
  }

  lemma SamePartSameBuf(a: Block, b: Block, env: Env)
    requires SameHashedPart(a, b)
    ensures HashingBuf(a, env) == HashingBuf(b, env)
  {
    var p, q := HashingBuf(a, env), HashingBuf(b, env);
    assert p.stripped.txs == q.stripped.txs && p.inputDigests == q.inputDigests;
    assert a.meta.(hash := None) == b.meta.(hash := None);
  }

  /** What a block hash commits to, exactly: everything but the outputs, and past SCIP-1 the inputs too. */
  lemma HashCommitsTo(a: Block, b: Block, env: Env)
    requires InjectiveBlockDigest(env) && InjectiveInputsDigest(env) && Authentic(a, env) && Authentic(b, env)
    ensures a.meta.hash == b.meta.hash <==> SameHashedPart(a, b)
  {
    if SameHashedPart(a, b) {
      SamePartSameBuf(a, b, env);
    }
    if a.meta.hash == b.meta.hash {
      var p, q := HashingBuf(a, env), HashingBuf(b, env);
      assert p == q && |a.txs| == |p.stripped.txs| == |b.txs|;
      forall i | 0 <= i < |a.txs|
        ensures StripTx(a.txs[i]) == StripTx(b.txs[i])
        ensures a.timestamp > SCIP_1_MIGRATION ==> a.txs[i].inputs == b.txs[i].inputs
      {
        assert p.stripped.txs[i] == StripTx(a.txs[i]) && q.stripped.txs[i] == StripTx(b.txs[i]);
        assert a.timestamp > SCIP_1_MIGRATION ==> p.inputDigests[i] == env.inputsDigest(a.txs[i].inputs);
        assert a.timestamp > SCIP_1_MIGRATION ==> q.inputDigests[i] == env.inputsDigest(b.txs[i].inputs);
      }
      assert a == p.stripped.(txs := a.txs, meta := p.stripped.meta.(hash := a.meta.hash));
      assert b == q.stripped.(txs := b.txs, meta := q.stripped.meta.(hash := b.meta.hash));
    }
  }

  /** The block with other outputs in one of its transactions. */
  function WithOutputs(b: Block, i: nat, outputs: seq<Output>): Block
    requires i < |b.txs|
  {
    b.(txs := b.txs[i := b.txs[i].(outputs := outputs)])
  }

  /** Whoever exchanges outputs gets another block under the same hash, and `validate_block_hash` accepts it. */
  lemma HashIgnoresOutputs(b: Block, i: nat, outputs: seq<Output>, env: Env)
    requires Authentic(b, env) && i < |b.txs|
    ensures var c := WithOutputs(b, i, outputs);
      Authentic(c, env) && c.meta.hash == b.meta.hash && (c == b <==> outputs == b.txs[i].outputs)
  {
    var c := WithOutputs(b, i, outputs);
    SamePartSameBuf(c, b, env);
    assert c.txs[i].outputs == outputs;
    assert outputs == b.txs[i].outputs ==> c.txs == b.txs;
  }

  /** Two blocks under one hash, one of them with ids that are digests, are the same exactly if the other's ids are
      digests too: the hash reaches the outputs only through the ids. */
  lemma BlockHashBindsBlock(a: Block, b: Block, env: Env)
    requires InjectiveBlockDigest(env) && InjectiveTxDigest(env)
    requires Authentic(a, env) && Authentic(b, env) && IdsAuthentic(a, env)
    requires a.meta.hash == b.meta.hash
    ensures a == b <==> IdsAuthentic(b, env)
  {
    if IdsAuthentic(b, env) {
      SameIdsSameBlock(a, b, env);
    }
  }

  lemma SameIdsSameBlock(a: Block, b: Block, env: Env)
    requires InjectiveBlockDigest(env) && InjectiveTxDigest(env)
    requires Authentic(a, env) && Authentic(b, env) && IdsAuthentic(a, env) && IdsAuthentic(b, env)
    requires a.meta.hash == b.meta.hash
    ensures a == b
  {
    var p, q := HashingBuf(a, env).stripped, HashingBuf(b, env).stripped;
    assert HashingBuf(a, env) == HashingBuf(b, env);
    assert |a.txs| == |p.txs| == |b.txs|;
    forall i | 0 <= i < |a.txs| ensures a.txs[i] == b.txs[i] {
      assert p.txs[i] == StripTx(a.txs[i]) && q.txs[i] == StripTx(b.txs[i]);
      assert TxBuf(a.txs[i]) == TxBuf(b.txs[i]);
    }
    assert a.meta == p.meta.(hash := a.meta.hash) && b.meta == q.meta.(hash := b.meta.hash);
  }

  /** Equal hashes mean equal hashing buffers, hence equal previous hashes; and no hash is the genesis constant. */
  lemma SameHashSamePrevious(a: Block, b: Block, env: Env)
    requires InjectiveBlockDigest(env) && Authentic(a, env) && Authentic(b, env) && a.meta.hash == b.meta.hash
    ensures HashingBuf(a, env) == HashingBuf(b, env) && a.meta.previous == b.meta.previous
  {
    assert HashingBuf(a, env) == HashingBuf(b, env);
    assert a.meta.previous == HashingBuf(a, env).stripped.meta.previous;
    assert b.meta.previous == HashingBuf(b, env).stripped.meta.previous;
  }

  lemma NeverGenesis(b: Block, env: Env)
    requires InjectiveBlockDigest(env) && Authentic(b, env)
    ensures b.meta.hash != Some(GENESIS_PREVIOUS_BLOCK_HASH)
  {
  }
}
