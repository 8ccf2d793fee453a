/** The chain as a value: what accepting and popping a block mean, and what holds over every run of both
    (src/core/blockchain.rs:178-350). */
module Ledgers {
  import opened Base
  import opened Types
  import opened Utxos
  import opened Blocks
  import opened Economics
  import opened Difficulty
  import Bytes
  import Merkle

  /** Active blocks with their undo records, the unspent outputs, and the difficulty state. */
  datatype Ledger = Ledger(chain: seq<Block>, diffs: seq<UTXODiff>, unspent: View, targets: Targets)

  const GENESIS: Ledger := Ledger([], [], map[], STARTING)

  function LastHash(chain: seq<Block>): Hash {
    if chain == [] || chain[|chain| - 1].meta.hash.None? then GENESIS_PREVIOUS_BLOCK_HASH
    else chain[|chain| - 1].meta.hash.value
  }

  // ---------- When a block is accepted ----------

  /** `check_meta`, or `check_meta_ignore_hash` when `skipHash`. */
  predicate MetaOk(b: Block, skipHash: bool, env: Env) {
    && b.meta.hash.Some?
    && (!skipHash ==> Authentic(b, env))
    && env.filterOf(b.txs) == b.meta.filter
    && (forall i | 0 <= i < |b.txs| :: Complete(b.txs[i]))
    && Merkle.TreeOf(env.hasher, TxIds(b.txs)).hash == b.meta.merkleRoot
  }

  /** `validate_difficulties`: the stated targets are the node's and the hash beats the block target. */
  predicate DifficultiesOk(t: Targets, b: Block)
    requires b.meta.hash.Some?
  {
    && b.meta.blockDifficulty == t.block && b.meta.txDifficulty == t.tx
    && b.meta.hash.value <= Bytes.FromBytes(CalculateBlockDifficulty(t.block, |b.txs|))
  }

  predicate TimestampOk(tx: Transaction, b: Block) {
    tx.timestamp <= b.timestamp <= tx.timestamp + EXPIRATION_TIME
  }

  predicate PaysDevFee(tx: Transaction, height: nat) {
    exists o <- tx.outputs :: o.receiver == DEV_WALLET && o.amount == CalculateDevFee(GetBlockReward(height))
  }

  predicate RewardOk(tx: Transaction, height: nat, isIbd: bool, env: Env) {
    && |tx.outputs| >= 2
    && tx.id.Some?
    && (!isIbd ==> tx.id.value == env.txDigest(TxBuf(tx)))
    && OutputSum(tx.outputs) == GetBlockReward(height)
    && PaysDevFee(tx, height)
  }

  ghost predicate TxOk(l: Ledger, b: Block, k: nat, isIbd: bool, env: Env)
    requires k < |b.txs|
  {
    if IsReward(b.txs[k]) then RewardOk(b.txs[k], |l.chain|, isIbd, env)
    else ValidTx(l.unspent, b.txs[k], Bytes.FromBytes(l.targets.tx), isIbd, env) && TimestampOk(b.txs[k], b)
  }

  /** The first `k` transactions pass alone, share no input, and hold at most one reward. */
  ghost predicate TxsOk(l: Ledger, b: Block, k: nat, isIbd: bool, env: Env)
    requires k <= |b.txs|
  {
    && (forall i | 0 <= i < k :: TxOk(l, b, i, isIbd, env))
    && (forall i, j | 0 <= i < j < k :: PointSet(b.txs[i].inputs) !! PointSet(b.txs[j].inputs))
    && (forall i, j | 0 <= i < j < k :: !(IsReward(b.txs[i]) && IsReward(b.txs[j])))
  }

  ghost predicate Acceptable(l: Ledger, b: Block, isIbd: bool, skipHash: bool, env: Env) {
    && MetaOk(b, skipHash, env)
    && DifficultiesOk(l.targets, b)
    && LastHash(l.chain) == b.meta.previous
    && |b.txs| <= MAX_TRANSACTIONS_PER_BLOCK
    && TxsOk(l, b, |b.txs|, isIbd, env)
  }

  lemma AcceptableIsSound(l: Ledger, b: Block, isIbd: bool, skipHash: bool, env: Env)
    requires Acceptable(l, b, isIbd, skipHash, env)
    ensures SoundTxs(l.unspent, |l.chain|, b.txs)
  {
    forall i | 0 <= i < |b.txs|
      ensures b.txs[i].id.Some?
      ensures !IsReward(b.txs[i]) ==> Funded(l.unspent, b.txs[i])
      ensures IsReward(b.txs[i]) ==> OutputSum(b.txs[i].outputs) == GetBlockReward(|l.chain|)
    {
      assert TxOk(l, b, i, isIbd, env);
    }
  }

  /** What a block must state and meet, in numbers. */
  lemma DifficultiesMet(t: Targets, b: Block)
    requires b.meta.hash.Some? && b.meta.hash.value >= 0
    ensures DifficultiesOk(t, b) <==>
      && b.meta.blockDifficulty == t.block && b.meta.txDifficulty == t.tx && b.meta.hash.value <= MAX_256
      && 200 * b.meta.hash.value <= Bytes.FromBytes(t.block) * (200 + |b.txs|)
  {
    BlockTargetMet(t.block, |b.txs|, b.meta.hash.value);
  }

  /** What every accepted block promises, in numbers: at most 500 transactions; each but a reward has at most 150 inputs
      and outputs, spends what its owners signed away, pays out what it takes in, positive amounts only, and is at most
      350 seconds old; and a reward pays ten billion halved every million blocks, two per cent to the developers. */
  lemma AcceptedInNumbers(l: Ledger, b: Block, isIbd: bool, skipHash: bool, env: Env, k: nat)
    requires Acceptable(l, b, isIbd, skipHash, env) && k < |b.txs|
    ensures |b.txs| <= 500 && LastHash(l.chain) == b.meta.previous && env.filterOf(b.txs) == b.meta.filter
    ensures (forall i | 0 <= i < |b.txs| :: b.txs[i].id.Some?)
      && Merkle.TreeOf(env.hasher, TxIds(b.txs)).hash == b.meta.merkleRoot
    ensures var tx, reward := b.txs[k], GetBlockReward(|l.chain|);
      if tx.inputs != [] then
        && |tx.inputs| + |tx.outputs| <= 150 && tx.timestamp <= b.timestamp <= tx.timestamp + 350
        && tx.id.value <= Bytes.FromBytes(l.targets.tx)
        && InputSum(l.unspent, tx.inputs) == OutputSum(tx.outputs) && (forall o <- tx.outputs :: o.amount > 0)
        && (forall i <- tx.inputs :: Point(i) in l.unspent && l.unspent[Point(i)].receiver == i.owner
              && env.verify(i.signature.value, i.owner, SigningBuf(tx)))
      else
        && |tx.outputs| >= 2 && OutputSum(tx.outputs) == reward
        && (exists o <- tx.outputs :: o.receiver == DEV_WALLET && 50 * o.amount <= reward < 50 * o.amount + 50)
  {
    assert TxOk(l, b, k, isIbd, env);
    if b.txs[k].inputs == [] {
      DevFeeIs(GetBlockReward(|l.chain|));
    }
  }

  /** Where hashes and ids are checked, the ids of an accepted block are digests. */
  lemma AcceptedIdsAuthentic(l: Ledger, b: Block, env: Env)
    requires Acceptable(l, b, false, false, env)
    ensures Authentic(b, env) && IdsAuthentic(b, env)
  {
    forall i | 0 <= i < |b.txs| ensures b.txs[i].id == Some(env.txDigest(TxBuf(b.txs[i]))) {
      assert TxOk(l, b, i, false, env);
    }
  }

  /** So a hash names one block among all that any node ever accepts. */
  lemma HashNamesBlock(l: Ledger, a: Block, l': Ledger, b: Block, env: Env)
    requires InjectiveBlockDigest(env) && InjectiveTxDigest(env)
    requires Acceptable(l, a, false, false, env) && Acceptable(l', b, false, false, env)
    ensures a.meta.hash == b.meta.hash <==> a == b
  {
    AcceptedIdsAuthentic(l, a, env);
    AcceptedIdsAuthentic(l', b, env);
    if a.meta.hash == b.meta.hash {
      BlockHashBindsBlock(a, b, env);
    }
  }

  /** And a Merkle root names the transactions, among blocks with as many. */
  lemma RootNamesTransactions(l: Ledger, a: Block, l': Ledger, b: Block, env: Env)
    requires InjectiveTxDigest(env) && Merkle.CollisionFree(env.hasher) && |a.txs| == |b.txs|
    requires Acceptable(l, a, false, false, env) && Acceptable(l', b, false, false, env)
    ensures a.meta.merkleRoot == b.meta.merkleRoot <==> a.txs == b.txs
  {
    AcceptedIdsAuthentic(l, a, env);
    AcceptedIdsAuthentic(l', b, env);
    if a.meta.merkleRoot == b.meta.merkleRoot && a.txs != [] {
      Merkle.RootBindsIds(env.hasher, TxIds(a.txs), TxIds(b.txs));
      forall i | 0 <= i < |a.txs| ensures a.txs[i] == b.txs[i] {
        assert TxIds(a.txs)[i] == TxIds(b.txs)[i];
        assert TxBuf(a.txs[i]) == TxBuf(b.txs[i]);
      }
    }
  }

  // ---------- Adding and popping ----------

  ghost function Extend(l: Ledger, b: Block, rule: Rule): Ledger {
    Ledger(
      l.chain + [b],
      l.diffs + [DiffTxs(l.unspent, b.txs)],
      ExecTxs(l.unspent, b.txs),
      Retargeted(rule, l.targets, b.timestamp, |b.txs|))
  }

  /** The clock after a pop is the timestamp of the new last block, or of the popped block if none is left. */
  ghost function Shrink(l: Ledger): Ledger
    requires l.chain != [] && |l.diffs| == |l.chain|
  {
    var n := |l.chain| - 1;
    var popped := l.chain[n];
    Ledger(
      l.chain[..n],
      l.diffs[..n],
      UndoView(l.unspent, l.diffs[n]),
      Targets(popped.meta.blockDifficulty, popped.meta.txDifficulty,
              if n > 0 then l.chain[n - 1].timestamp else popped.timestamp))
  }

  datatype Step = Add(block: Block, isIbd: bool, skipHash: bool) | Pop

  /** One call on the node: a rejected block and a pop of the empty chain change nothing. */
  ghost function Next(l: Ledger, s: Step, env: Env, rule: Rule): Ledger
    requires |l.diffs| == |l.chain|
  {
    match s
    case Add(b, isIbd, skipHash) => if Acceptable(l, b, isIbd, skipHash, env) then Extend(l, b, rule) else l
    case Pop => if l.chain == [] then l else Shrink(l)
  }

  ghost function Run(l: Ledger, steps: seq<Step>, env: Env, rule: Rule): (r: Ledger)
    requires |l.diffs| == |l.chain|
    ensures |r.diffs| == |r.chain|
    decreases |steps|
  {
    if steps == [] then l else Run(Next(l, steps[0], env, rule), steps[1..], env, rule)
  }

  // ---------- Freshness of transaction ids ----------

  ghost function IdsOf(chain: seq<Block>): set<Option<Hash>> {
    set b, t | b in chain && t in b.txs :: t.id
  }

  /** Ids of the block are pairwise distinct and used by no active block. The code takes this from hashing. */
  ghost predicate FreshFor(chain: seq<Block>, b: Block) {
    && (forall i, j | 0 <= i < j < |b.txs| :: b.txs[i].id != b.txs[j].id)
    && (forall i | 0 <= i < |b.txs| :: b.txs[i].id !in IdsOf(chain))
  }

  ghost predicate FreshStep(l: Ledger, s: Step, env: Env) {
    s.Add? && Acceptable(l, s.block, s.isIbd, s.skipHash, env) ==> FreshFor(l.chain, s.block)
  }

  /** Every block accepted along the run has fresh ids at that moment. */
  ghost predicate FreshRun(l: Ledger, steps: seq<Step>, env: Env, rule: Rule)
    requires |l.diffs| == |l.chain|
    decreases |steps|
  {
    steps == [] || (
      && FreshStep(l, steps[0], env)
      && FreshRun(Next(l, steps[0], env, rule), steps[1..], env, rule))
  }

  /** The block's hash is on no active block. */
  ghost predicate FreshHash(chain: seq<Block>, b: Block) {
    forall c <- chain :: c.meta.hash != b.meta.hash
  }

  ghost predicate FreshHashStep(l: Ledger, s: Step, env: Env) {
    s.Add? && Acceptable(l, s.block, s.isIbd, s.skipHash, env) ==> FreshHash(l.chain, s.block)
  }

  /** Every block accepted along the run brings a hash that no active block carries at that moment. */
  ghost predicate FreshHashes(l: Ledger, steps: seq<Step>, env: Env, rule: Rule)
    requires |l.diffs| == |l.chain|
    decreases |steps|
  {
    steps == [] || (
      && FreshHashStep(l, steps[0], env)
      && FreshHashes(Next(l, steps[0], env, rule), steps[1..], env, rule))
  }

  /** The call succeeds: the block is acceptable, or there is one to pop. */
  ghost predicate Succeeds(l: Ledger, s: Step, env: Env) {
    match s
    case Add(b, isIbd, skipHash) => Acceptable(l, b, isIbd, skipHash, env)
    case Pop => l.chain != []
  }

  /** Which calls of a run succeed. */
  ghost function Outcomes(l: Ledger, steps: seq<Step>, env: Env, rule: Rule): (o: seq<bool>)
    requires |l.diffs| == |l.chain|
    ensures |o| == |steps|
    decreases |steps|
  {
    if steps == [] then []
    else [Succeeds(l, steps[0], env)] + Outcomes(Next(l, steps[0], env, rule), steps[1..], env, rule)
  }

  /** There is a block to pop and its undo record applies. */
  ghost predicate CanPop(l: Ledger) {
    l.chain != [] && |l.diffs| == |l.chain| && Undoable(l.unspent, l.diffs[|l.diffs| - 1])
  }

  /** What the call would do goes through: an acceptable block executes, and the record of the top block applies. */
  ghost predicate Doable(l: Ledger, s: Step, env: Env)
    requires |l.diffs| == |l.chain|
  {
    match s
    case Add(b, isIbd, skipHash) => Acceptable(l, b, isIbd, skipHash, env) ==> ExecutableTxs(l.unspent, b.txs)
    case Pop => l.chain != [] ==> CanPop(l)
  }

  ghost predicate Executes(l: Ledger, steps: seq<Step>, env: Env, rule: Rule)
    requires |l.diffs| == |l.chain|
    decreases |steps|
  {
    steps == [] || (
      && Doable(l, steps[0], env)
      && Executes(Next(l, steps[0], env, rule), steps[1..], env, rule))
  }

  /** A run with one more step. */
  lemma {:induction false} RunOneMore(l: Ledger, steps: seq<Step>, s: Step, env: Env, rule: Rule)
    requires |l.diffs| == |l.chain|
    ensures Run(l, steps + [s], env, rule) == Next(Run(l, steps, env, rule), s, env, rule)
    ensures FreshRun(l, steps + [s], env, rule)
      <==> FreshRun(l, steps, env, rule) && FreshStep(Run(l, steps, env, rule), s, env)
    ensures Executes(l, steps + [s], env, rule)
      <==> Executes(l, steps, env, rule) && Doable(Run(l, steps, env, rule), s, env)
    decreases |steps|
  {
    var more := steps + [s];
    if steps == [] {
      assert more == [s] && more[1..] == [];
    } else {
      assert more[0] == steps[0] && more[1..] == steps[1..] + [s];
      RunOneMore(Next(l, steps[0], env, rule), steps[1..], s, env, rule);
    }
  }

  /** The run never pops its chain down to nothing. */
  ghost predicate NeverEmptied(l: Ledger, steps: seq<Step>, env: Env, rule: Rule)
    requires |l.diffs| == |l.chain|
    decreases |steps|
  {
    steps == [] || (
      && !(steps[0].Pop? && |l.chain| == 1)
      && NeverEmptied(Next(l, steps[0], env, rule), steps[1..], env, rule))
  }

  // ---------- Replay of the active chain ----------

  ghost function Replay(chain: seq<Block>, rule: Rule): (l: Ledger)
    ensures l.chain == chain && |l.diffs| == |chain|
  {
    if chain == [] then GENESIS else
      assert chain == chain[..|chain| - 1] + [chain[|chain| - 1]];
      Extend(Replay(chain[..|chain| - 1], rule), chain[|chain| - 1], rule)
  }

  /** Each block was sound and fresh on top of the ones below it, and carries the transaction target of its time. */
  ghost predicate Legit(chain: seq<Block>, rule: Rule) {
    chain == [] || (
      var n := |chain| - 1;
      && Legit(chain[..n], rule)
      && SoundTxs(Replay(chain[..n], rule).unspent, n, chain[n].txs)
      && FreshFor(chain[..n], chain[n])
      && chain[n].meta.txDifficulty == Replay(chain[..n], rule).targets.tx)
  }

  /** Each block also carries the block target that replay gives for its time. */
  ghost predicate BlockTargetsReplay(chain: seq<Block>, rule: Rule) {
    chain == [] || (
      var n := |chain| - 1;
      && BlockTargetsReplay(chain[..n], rule)
      && chain[n].meta.blockDifficulty == Replay(chain[..n], rule).targets.block)
  }

  lemma Unextend(chain: seq<Block>, b: Block, rule: Rule)
    ensures (chain + [b])[..|chain|] == chain
    ensures Replay(chain + [b], rule) == Extend(Replay(chain, rule), b, rule)
  {
    var more := chain + [b];
    assert more[..|more| - 1] == chain && more[|more| - 1] == b;
  }

  /** Unspent outputs belong to transactions of the chain. */
  lemma {:induction false} UnspentKnown(chain: seq<Block>, rule: Rule)
    requires Legit(chain, rule)
    ensures forall p <- Replay(chain, rule).unspent :: Some(p.tx) in IdsOf(chain)
    decreases |chain|
  {
    if chain != [] {
      var n := |chain| - 1;
      var init, b, u := chain[..n], chain[n], Replay(chain[..n], rule).unspent;
      UnspentKnown(init, rule);
      FreshIsFresh(init, b, rule);
      SoundExecutes(u, n, b.txs);
      forall p | p in ExecTxs(u, b.txs) ensures Some(p.tx) in IdsOf(chain) {
        if p in AllCreated(b.txs) {
          InAllCreated(b.txs, p);
          var t :| t in b.txs && t.id == Some(p.tx);
          assert b in chain;
        } else {
          var c, t :| c in init && t in c.txs && t.id == Some(p.tx);
          assert c in chain;
        }
      }
    }
  }

  lemma FreshIsFresh(chain: seq<Block>, b: Block, rule: Rule)
    requires Legit(chain, rule) && FreshFor(chain, b) && forall i | 0 <= i < |b.txs| :: b.txs[i].id.Some?
    requires forall p <- Replay(chain, rule).unspent :: Some(p.tx) in IdsOf(chain)
    ensures FreshIds(Replay(chain, rule).unspent, b.txs)
  {
  }

  // ---------- The invariant of every run ----------

  /** The clock shows the last block's time whenever there is one. */
  ghost predicate ClockOk(l: Ledger) {
    l.chain != [] ==> l.targets.lastTimestamp == l.chain[|l.chain| - 1].timestamp
  }

  /** All but the block target and the clock is what replaying the active chain gives. */
  ghost predicate Consistent(l: Ledger, rule: Rule) {
    && Legit(l.chain, rule) && ClockOk(l)
    && l.diffs == Replay(l.chain, rule).diffs
    && l.unspent == Replay(l.chain, rule).unspent
    && l.targets.tx == Replay(l.chain, rule).targets.tx
  }

  /** Everything is what replaying the active chain gives. */
  ghost predicate FullyConsistent(l: Ledger, rule: Rule) {
    Consistent(l, rule) && BlockTargetsReplay(l.chain, rule) && l == Replay(l.chain, rule)
  }

  /** In a consistent state an acceptable block with fresh ids executes without a failing lookup or panic. */
  lemma AcceptedExecutes(l: Ledger, b: Block, isIbd: bool, skipHash: bool, env: Env, rule: Rule)
    requires Consistent(l, rule) && Acceptable(l, b, isIbd, skipHash, env) && FreshFor(l.chain, b)
    ensures SoundTxs(l.unspent, |l.chain|, b.txs) && FreshIds(l.unspent, b.txs)
    ensures ExecutableTxs(l.unspent, b.txs)
  {
    AcceptableIsSound(l, b, isIbd, skipHash, env);
    UnspentKnown(l.chain, rule);
    FreshIsFresh(l.chain, b, rule);
    SoundExecutes(l.unspent, |l.chain|, b.txs);
  }

  lemma AddKeeps(l: Ledger, b: Block, isIbd: bool, skipHash: bool, env: Env, rule: Rule)
    requires Consistent(l, rule) && Acceptable(l, b, isIbd, skipHash, env) && FreshFor(l.chain, b)
    ensures Consistent(Extend(l, b, rule), rule)
    ensures FullyConsistent(l, rule) ==> FullyConsistent(Extend(l, b, rule), rule)
  {
    AcceptableIsSound(l, b, isIbd, skipHash, env);
    ExtendKeeps(l, b, rule);
    if FullyConsistent(l, rule) {
      ExtendKeepsAll(l, b, rule);
    }
  }

  lemma ExtendKeeps(l: Ledger, b: Block, rule: Rule)
    requires Consistent(l, rule) && SoundTxs(l.unspent, |l.chain|, b.txs) && FreshFor(l.chain, b)
    requires b.meta.txDifficulty == l.targets.tx
    ensures Consistent(Extend(l, b, rule), rule)
  {
    LegitExtends(l.chain, b, rule);
    Unextend(l.chain, b, rule);
  }

  lemma ExtendKeepsAll(l: Ledger, b: Block, rule: Rule)
    requires FullyConsistent(l, rule) && Consistent(Extend(l, b, rule), rule)
    requires b.meta.blockDifficulty == l.targets.block
    ensures FullyConsistent(Extend(l, b, rule), rule)
  {
    TargetsExtend(l.chain, b, rule);
    Unextend(l.chain, b, rule);
  }

  lemma LegitExtends(chain: seq<Block>, b: Block, rule: Rule)
    requires Legit(chain, rule) && SoundTxs(Replay(chain, rule).unspent, |chain|, b.txs) && FreshFor(chain, b)
    requires b.meta.txDifficulty == Replay(chain, rule).targets.tx
    ensures Legit(chain + [b], rule)
  {
    var more := chain + [b];
    assert more[..|more| - 1] == chain && more[|more| - 1] == b;
  }

  lemma TargetsExtend(chain: seq<Block>, b: Block, rule: Rule)
    requires BlockTargetsReplay(chain, rule) && b.meta.blockDifficulty == Replay(chain, rule).targets.block
    ensures BlockTargetsReplay(chain + [b], rule)
  {
    Unextend(chain, b, rule);
  }

  /** A pop in a consistent state meets every undo entry it needs. */
  lemma PopUndoes(l: Ledger, rule: Rule)
    requires Consistent(l, rule) && l.chain != []
    ensures Undoable(l.unspent, l.diffs[|l.chain| - 1])
    ensures UndoView(l.unspent, l.diffs[|l.chain| - 1]) == Replay(l.chain[..|l.chain| - 1], rule).unspent
  {
    var n := |l.chain| - 1;
    var u := Replay(l.chain[..n], rule).unspent;
    UnspentKnown(l.chain[..n], rule);
    FreshIsFresh(l.chain[..n], l.chain[n], rule);
    ExactUndo(u, n, l.chain[n].txs);
    assert Replay(l.chain, rule).diffs[n] == DiffTxs(u, l.chain[n].txs);
  }

  lemma ConsistentCanPop(l: Ledger, rule: Rule)
    requires Consistent(l, rule) && l.chain != []
    ensures CanPop(l)
  {
    PopUndoes(l, rule);
  }

  lemma PopKeeps(l: Ledger, rule: Rule)
    requires Consistent(l, rule) && l.chain != []
    ensures Consistent(Shrink(l), rule)
  {
    PopUndoes(l, rule);
    var n := |l.chain| - 1;
    var init := l.chain[..n];
    assert Replay(l.chain, rule) == Extend(Replay(init, rule), l.chain[n], rule);
    assert l.diffs[..n] == Replay(init, rule).diffs;
  }

  lemma PopKeepsAll(l: Ledger, rule: Rule)
    requires FullyConsistent(l, rule) && |l.chain| > 1
    ensures FullyConsistent(Shrink(l), rule)
  {
    PopKeeps(l, rule);
    var n := |l.chain| - 1;
    var init := l.chain[..n];
    assert Replay(l.chain, rule) == Extend(Replay(init, rule), l.chain[n], rule);
    assert Replay(init, rule) == Extend(Replay(init[..n - 1], rule), init[n - 1], rule);
  }

  /** One call keeps the invariant. */
  lemma NextKeeps(l: Ledger, s: Step, env: Env, rule: Rule)
    requires Consistent(l, rule) && FreshStep(l, s, env)
    ensures Consistent(Next(l, s, env, rule), rule)
    ensures FullyConsistent(l, rule) && !(s.Pop? && |l.chain| == 1) ==> FullyConsistent(Next(l, s, env, rule), rule)
  {
    if s.Add? && Acceptable(l, s.block, s.isIbd, s.skipHash, env) {
      AddKeeps(l, s.block, s.isIbd, s.skipHash, env, rule);
    } else if s.Pop? && l.chain != [] {
      PopKeeps(l, rule);
      if FullyConsistent(l, rule) && |l.chain| > 1 {
        PopKeepsAll(l, rule);
      }
    }
  }

  /** History independence: after any run of adds and pops with fresh ids, the unspent outputs, the undo records
      and the transaction target are those of a replay of the active blocks from genesis; so are the block target
      and the clock if the run never popped its chain down to nothing. */
  lemma {:induction false} HistoryIndependence(l: Ledger, steps: seq<Step>, env: Env, rule: Rule)
    requires Consistent(l, rule) && FreshRun(l, steps, env, rule)
    ensures Consistent(Run(l, steps, env, rule), rule)
    ensures (FullyConsistent(l, rule) && NeverEmptied(l, steps, env, rule)) ==>
              FullyConsistent(Run(l, steps, env, rule), rule)
    decreases |steps|
  {
    if steps != [] {
      NextKeeps(l, steps[0], env, rule);
      HistoryIndependence(Next(l, steps[0], env, rule), steps[1..], env, rule);
    }
  }

  /** From a consistent state and with fresh ids every call goes through. */
  lemma {:induction false} FreshExecutes(l: Ledger, steps: seq<Step>, env: Env, rule: Rule)
    requires Consistent(l, rule) && FreshRun(l, steps, env, rule)
    ensures Executes(l, steps, env, rule)
    decreases |steps|
  {
    if steps != [] {
      FreshIsDoable(l, steps[0], env, rule);
      NextKeeps(l, steps[0], env, rule);
      FreshExecutes(Next(l, steps[0], env, rule), steps[1..], env, rule);
    }
  }

  lemma FreshIsDoable(l: Ledger, s: Step, env: Env, rule: Rule)
    requires Consistent(l, rule) && FreshStep(l, s, env)
    ensures Doable(l, s, env)
  {
    if s.Add? && Acceptable(l, s.block, s.isIbd, s.skipHash, env) {
      AcceptedExecutes(l, s.block, s.isIbd, s.skipHash, env, rule);
    } else if s.Pop? && l.chain != [] {
      ConsistentCanPop(l, rule);
    }
  }

  /** If every call along `steps` goes through, `now` is where they lead from `l`. */
  ghost predicate Follows(l: Ledger, steps: seq<Step>, now: Ledger, env: Env, rule: Rule)
    requires |l.diffs| == |l.chain|
  {
    Executes(l, steps, env, rule) ==> now == Run(l, steps, env, rule)
  }

  lemma FollowsOneMore(l: Ledger, steps: seq<Step>, mid: Ledger, s: Step, now: Ledger, env: Env, rule: Rule)
    requires |l.diffs| == |l.chain| && |mid.diffs| == |mid.chain| && Follows(l, steps, mid, env, rule)
    requires Doable(mid, s, env) ==> now == Next(mid, s, env, rule)
    ensures Follows(l, steps + [s], now, env, rule)
  {
    RunOneMore(l, steps, s, env, rule);
  }

  lemma GenesisConsistent(rule: Rule)
    ensures FullyConsistent(GENESIS, rule)
  {
  }

  /** Popping the block just added restores the whole state exactly when a block remains below it, or the
      popped block happens to carry the time the clock already showed. */
  lemma PopUndoesAdd(l: Ledger, b: Block, isIbd: bool, skipHash: bool, env: Env, rule: Rule)
    requires Consistent(l, rule) && Acceptable(l, b, isIbd, skipHash, env) && FreshFor(l.chain, b)
    ensures Shrink(Extend(l, b, rule)).(targets := l.targets) == l
    ensures Shrink(Extend(l, b, rule)) == l <==> l.chain != [] || b.timestamp == l.targets.lastTimestamp
  {
    var l' := Extend(l, b, rule);
    AcceptedExecutes(l, b, isIbd, skipHash, env, rule);
    ExactUndo(l.unspent, |l.chain|, b.txs);
    assert l'.chain[..|l.chain|] == l.chain && l'.diffs[..|l.diffs|] == l.diffs;
  }

  // ---------- Conservation over runs ----------

  /** What the active chain has minted. */
  ghost function MintedBy(chain: seq<Block>): nat {
    if chain == [] then 0
    else MintedBy(chain[..|chain| - 1]) + Minted(|chain| - 1, chain[|chain| - 1].txs)
  }

  lemma LastBlockConserves(chain: seq<Block>, rule: Rule)
    requires chain != [] && Legit(chain, rule)
    ensures var n := |chain| - 1;
      Total(Replay(chain, rule).unspent) == Total(Replay(chain[..n], rule).unspent) + Minted(n, chain[n].txs)
  {
    var n := |chain| - 1;
    UnspentKnown(chain[..n], rule);
    FreshIsFresh(chain[..n], chain[n], rule);
    BlockConserves(Replay(chain[..n], rule).unspent, n, chain[n].txs);
  }

  lemma LegitBelow(chain: seq<Block>, rule: Rule)
    requires chain != [] && Legit(chain, rule)
    ensures Legit(chain[..|chain| - 1], rule)
  {
  }

  lemma MintedOneMore(chain: seq<Block>)
    requires chain != []
    ensures MintedBy(chain)
         == MintedBy(chain[..|chain| - 1]) + Minted(|chain| - 1, chain[|chain| - 1].txs)
  {
  }

  lemma {:induction false} ChainConserves(chain: seq<Block>, rule: Rule)
    requires Legit(chain, rule)
    ensures Total(Replay(chain, rule).unspent) == MintedBy(chain)
    decreases |chain|
  {
    if chain != [] {
      var init := chain[..|chain| - 1];
      LegitBelow(chain, rule);
      ChainConserves(init, rule);
      LastBlockConserves(chain, rule);
      MintedOneMore(chain);
    }
  }

  lemma {:induction false} MintedAtMost(chain: seq<Block>)
    ensures MintedBy(chain) <= RewardsBelow(|chain|)
    decreases |chain|
  {
    if chain != [] {
      MintedAtMost(chain[..|chain| - 1]);
    }
  }

  /** After any run the unspent outputs sum to the rewards of the active blocks that carry one; below 64 halvings
      they fit a `u64` all together. */
  lemma {:induction false} Conservation(steps: seq<Step>, env: Env, rule: Rule)
    requires FreshRun(GENESIS, steps, env, rule)
    ensures var l := Run(GENESIS, steps, env, rule);
      && Total(l.unspent) == MintedBy(l.chain) <= RewardsBelow(|l.chain|)
      && (|l.chain| <= 64 * HALVING_INTERVAL ==> Total(l.unspent) < U64_LIMIT)
  {
    HistoryIndependence(GENESIS, steps, env, rule);
    var l := Run(GENESIS, steps, env, rule);
    ChainConserves(l.chain, rule);
    MintedAtMost(l.chain);
    TotalRewardBound(|l.chain|);
  }

  /** Hence no balance of a single address overflows either. */
  lemma {:induction false} BalancesFit(steps: seq<Step>, env: Env, address: Address, rule: Rule)
    requires FreshRun(GENESIS, steps, env, rule) && |Run(GENESIS, steps, env, rule).chain| <= 64 * HALVING_INTERVAL
    ensures Total(Owned(Run(GENESIS, steps, env, rule).unspent, address)) < U64_LIMIT
  {
    Conservation(steps, env, rule);
    TotalOfPart(Owned(Run(GENESIS, steps, env, rule).unspent, address), Run(GENESIS, steps, env, rule).unspent);
  }

  // ---------- No double spend in history ----------

  ghost predicate CreatedBelow(diffs: seq<UTXODiff>, n: nat, e: DiffEntry)
    requires n <= |diffs|
  {
    exists j | 0 <= j < n :: e in diffs[j].created
  }

  /** What is unspent was created by some active block and appears in no undo record as spent;
      whatever was spent belonged to a transaction of the chain. */
  ghost predicate SpentForGood(chain: seq<Block>, rule: Rule) {
    var l := Replay(chain, rule);
    && (forall p <- l.unspent :: CreatedBelow(l.diffs, |chain|, DiffEntry(p, l.unspent[p])))
    && (forall p, j | p in l.unspent && 0 <= j < |chain| :: p !in EntryPoints(l.diffs[j].spent))
    && (forall p, j | 0 <= j < |chain| && p in EntryPoints(l.diffs[j].spent) :: Some(p.tx) in IdsOf(chain))
  }

  ghost predicate NoOutputSpentTwice(diffs: seq<UTXODiff>) {
    && (forall i | 0 <= i < |diffs| :: DistinctPoints(diffs[i].spent))
    && (forall i, j | 0 <= i < j < |diffs| :: EntryPoints(diffs[i].spent) !! EntryPoints(diffs[j].spent))
    && (forall i, e | 0 <= i < |diffs| && e in diffs[i].spent :: CreatedBelow(diffs, i, e))
  }

  lemma CreatedStays(diffs: seq<UTXODiff>, more: UTXODiff, n: nat, e: DiffEntry)
    requires n <= |diffs| && CreatedBelow(diffs, n, e)
    ensures CreatedBelow(diffs + [more], n, e) && CreatedBelow(diffs + [more], |diffs| + 1, e)
  {
    var j :| 0 <= j < n && e in diffs[j].created;
    assert e in (diffs + [more])[j].created;
  }

  lemma SpentStep(chain: seq<Block>, rule: Rule)
    requires chain != [] && Legit(chain, rule) && SpentForGood(chain[..|chain| - 1], rule)
    ensures SpentForGood(chain, rule)
  {
    var n := |chain| - 1;
    var init, b, l := chain[..n], chain[n], Replay(chain[..n], rule);
    UnspentKnown(init, rule);
    FreshIsFresh(init, b, rule);
    SoundExecutes(l.unspent, n, b.txs);
    DiffRecords(l.unspent, n, b.txs);
    IdsGrow(chain);
    forall p | p in AllCreated(b.txs) ensures Some(p.tx) !in IdsOf(init) {
      CreatedIdsNew(init, b, p);
    }
    SpentStaysSpent(l.diffs, DiffTxs(l.unspent, b.txs), l.unspent, AllInputs(b.txs), AllCreated(b.txs),
                    IdsOf(init), IdsOf(chain));
    assert Replay(chain, rule) == Extend(l, b, rule);
  }

  lemma SpentStaysSpent(diffs: seq<UTXODiff>, diff: UTXODiff, u: View, spent: set<OutPoint>, made: View,
                        ids: set<Option<Hash>>, ids': set<Option<Hash>>)
    requires Records(u, spent, made, diff) && ids <= ids'
    requires forall p <- u :: Some(p.tx) in ids
    requires forall p <- made :: Some(p.tx) !in ids
    requires forall p <- u :: CreatedBelow(diffs, |diffs|, DiffEntry(p, u[p]))
    requires forall p, j | p in u && 0 <= j < |diffs| :: p !in EntryPoints(diffs[j].spent)
    requires forall p, j | 0 <= j < |diffs| && p in EntryPoints(diffs[j].spent) :: Some(p.tx) in ids
    ensures var v, all := (u - spent) + made, diffs + [diff];
      && (forall p <- v :: CreatedBelow(all, |all|, DiffEntry(p, v[p])))
      && (forall p, j | p in v && 0 <= j < |all| :: p !in EntryPoints(all[j].spent))
      && (forall p, j | 0 <= j < |all| && p in EntryPoints(all[j].spent) :: Some(p.tx) in ids')
  {
    var v, all, n := (u - spent) + made, diffs + [diff], |diffs|;
    forall p | p in v ensures CreatedBelow(all, |all|, DiffEntry(p, v[p])) {
      if p in made {
        var e :| e in diff.created && e.point == p;
        assert e == DiffEntry(p, v[p]) && e in all[n].created;
      } else {
        CreatedStays(diffs, diff, n, DiffEntry(p, u[p]));
      }
    }
    forall p, j | p in v && 0 <= j < |all| ensures p !in EntryPoints(all[j].spent) {
      assert j < n ==> all[j] == diffs[j];
    }
    forall p, j | 0 <= j < |all| && p in EntryPoints(all[j].spent) ensures Some(p.tx) in ids' {
      assert j < n ==> all[j] == diffs[j];
    }
  }

  lemma IdsGrow(chain: seq<Block>)
    requires chain != []
    ensures IdsOf(chain[..|chain| - 1]) <= IdsOf(chain)
  {
    forall id | id in IdsOf(chain[..|chain| - 1]) ensures id in IdsOf(chain) {
      var c, t :| c in chain[..|chain| - 1] && t in c.txs && id == t.id;
      assert c in chain;
    }
  }

  lemma CreatedIdsNew(chain: seq<Block>, b: Block, p: OutPoint)
    requires FreshFor(chain, b) && p in AllCreated(b.txs)
    ensures Some(p.tx) !in IdsOf(chain)
  {
    InAllCreated(b.txs, p);
    var t :| t in b.txs && t.id == Some(p.tx);
    var i :| 0 <= i < |b.txs| && b.txs[i] == t;
  }

  /** Along a chain with unique ids no output is spent by two blocks or twice in one, and each spent
      output was created, with the same value, by a strictly earlier block. */
  lemma {:induction false} NoDoubleSpend(chain: seq<Block>, rule: Rule)
    requires Legit(chain, rule)
    ensures SpentForGood(chain, rule) && NoOutputSpentTwice(Replay(chain, rule).diffs)
    decreases |chain|
  {
    if chain != [] {
      NoDoubleSpend(chain[..|chain| - 1], rule);
      SpentStep(chain, rule);
      TopSpends(chain, rule);
    }
  }

  lemma TopSpends(chain: seq<Block>, rule: Rule)
    requires chain != [] && Legit(chain, rule) && SpentForGood(chain[..|chain| - 1], rule)
    requires NoOutputSpentTwice(Replay(chain[..|chain| - 1], rule).diffs)
    ensures NoOutputSpentTwice(Replay(chain, rule).diffs)
  {
    var n := |chain| - 1;
    var init, b, l := chain[..n], chain[n], Replay(chain[..n], rule);
    UnspentKnown(init, rule);
    FreshIsFresh(init, b, rule);
    DiffRecords(l.unspent, n, b.txs);
    LastSpends(l.diffs, DiffTxs(l.unspent, b.txs), l.unspent);
    assert Replay(chain, rule).diffs == l.diffs + [DiffTxs(l.unspent, b.txs)];
  }

  lemma LastSpends(diffs: seq<UTXODiff>, diff: UTXODiff, u: View)
    requires NoOutputSpentTwice(diffs) && DistinctPoints(diff.spent)
    requires forall e <- diff.spent :: e.point in u && u[e.point] == e.output
    requires forall p <- u :: CreatedBelow(diffs, |diffs|, DiffEntry(p, u[p]))
    requires forall p, j | p in u && 0 <= j < |diffs| :: p !in EntryPoints(diffs[j].spent)
    ensures NoOutputSpentTwice(diffs + [diff])
  {
    var all, n := diffs + [diff], |diffs|;
    forall i, e | 0 <= i < n + 1 && e in all[i].spent ensures CreatedBelow(all, i, e) {
      if i < n {
        CreatedStays(diffs, diff, i, e);
      } else {
        assert e == DiffEntry(e.point, u[e.point]);
        CreatedStays(diffs, diff, n, e);
      }
    }
    forall i, j | 0 <= i < j < n + 1 ensures EntryPoints(all[i].spent) !! EntryPoints(all[j].spent) {
      if j == n {
        forall p | p in EntryPoints(diff.spent) ensures p !in EntryPoints(diffs[i].spent) {
          assert p in u;
        }
      }
    }
  }

  /** The same over every run of the node. */
  lemma {:induction false} NoDoubleSpendInHistory(steps: seq<Step>, env: Env, rule: Rule)
    requires FreshRun(GENESIS, steps, env, rule)
    ensures NoOutputSpentTwice(Run(GENESIS, steps, env, rule).diffs)
  {
    HistoryIndependence(GENESIS, steps, env, rule);
    NoDoubleSpend(Run(GENESIS, steps, env, rule).chain, rule);
  }
}
