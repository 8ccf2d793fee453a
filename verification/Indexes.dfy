/** What a repeated block hash does to the hash index. `add_block` writes the index entry of the new block's hash and
    `pop_block` removes it (src/core/block_store.rs:103-209); neither looks whether an active block carries the hash
    already, and then that block is lost to the index. */
module Indexes {
  import opened Base
  import opened Types
  import opened Ledgers
  import opened Difficulty
  import opened HashLinks
  import Bytes
  import Merkle
  import Clocks

  /** Which blocks are lost once a block with the hash is on top: those that were, and those that carry the hash. */
  ghost function Overwritten(chain: seq<Block>, lost: seq<bool>, hash: Hash): (r: seq<bool>)
    requires |lost| == |chain|
    ensures |r| == |chain| + 1
  {
    seq(|chain|, i requires 0 <= i < |chain| => lost[i] || HashAt(chain, i) == Some(hash)) + [false]
  }

  ghost predicate NoneLost(lost: seq<bool>) {
    forall i | 0 <= i < |lost| :: !lost[i]
  }

  ghost function NextLost(l: Ledger, lost: seq<bool>, s: Step, env: Env): (r: seq<bool>)
    requires |lost| == |l.chain|
  {
    match s
    case Add(b, isIbd, skipHash) =>
      if Acceptable(l, b, isIbd, skipHash, env) then Overwritten(l.chain, lost, b.meta.hash.value) else lost
    case Pop => if l.chain == [] then lost else lost[..|l.chain| - 1]
  }

  /** Which active blocks are lost after a run. A pop of the block that overwrote an entry does not bring it back; a pop
      of the lost block itself ends the matter. */
  ghost function LostAfter(l: Ledger, lost: seq<bool>, steps: seq<Step>, env: Env, rule: Rule): (r: seq<bool>)
    requires |l.diffs| == |l.chain| == |lost|
    ensures |r| == |Run(l, steps, env, rule).chain|
    decreases |steps|
  {
    if steps == [] then lost
    else LostAfter(Next(l, steps[0], env, rule), NextLost(l, lost, steps[0], env), steps[1..], env, rule)
  }

  /** Fresh hashes lose nothing. */
  lemma {:induction false} FreshHashesLoseNothing(l: Ledger, lost: seq<bool>, steps: seq<Step>, env: Env, rule: Rule)
    requires |l.diffs| == |l.chain| == |lost| && NoneLost(lost) && FreshHashes(l, steps, env, rule)
    ensures NoneLost(LostAfter(l, lost, steps, env, rule))
    decreases |steps|
  {
    if steps != [] {
      FreshStepLosesNothing(l, lost, steps[0], env);
      FreshHashesLoseNothing(Next(l, steps[0], env, rule), NextLost(l, lost, steps[0], env), steps[1..], env, rule);
    }
  }

  lemma FreshStepLosesNothing(l: Ledger, lost: seq<bool>, s: Step, env: Env)
    requires |lost| == |l.chain| && NoneLost(lost) && FreshHashStep(l, s, env)
    ensures NoneLost(NextLost(l, lost, s, env))
  {
    if s.Add? && Acceptable(l, s.block, s.isIbd, s.skipHash, env) {
      assert forall i | 0 <= i < |l.chain| :: l.chain[i] in l.chain;
    }
  }

  // ---------- An input on which it shows ----------

  /** An empty block that fits on a ledger, under any hash. */
  function Bare(t: Targets, previous: Hash, hash: Hash, timestamp: nat, env: Env): Block {
    Block([], timestamp, 0,
          Meta(t.block, t.tx, previous, Some(hash), Merkle.TreeOf(env.hasher, []).hash, env.filterOf([])))
  }

  lemma BareIsAcceptable(l: Ledger, hash: Hash, timestamp: nat, env: Env)
    requires hash <= Bytes.FromBytes(CalculateBlockDifficulty(l.targets.block, 0))
    ensures Acceptable(l, Bare(l.targets, LastHash(l.chain), hash, timestamp, env), true, true, env)
  {
    assert TxIds([]) == [];
  }

  /** Past SCIP-2 a first block leaves the largest target. */
  lemma StillMax(timestamp: nat)
    requires timestamp > SCIP_2_MIGRATION
    ensures Bytes.FromBytes(CalculateBlockDifficulty(STARTING.block, 0)) == MAX_256
    ensures Bytes.FromBytes(CalculateBlockDifficulty(RULE.nextBlock(STARTING.block, timestamp, 0), 0)) == MAX_256
  {
    StartingIsMax();
    var e := Elapsed(timestamp, 0);
    Clocks.ScaledMax(ScaleAfterScip2(e), ScaleAfterScip2(e), 1_000_000);
    ReadsBack(MAX_256);
    assert MAX_256 * 1000 / 1000 == MAX_256;
  }

  /** With hash checks skipped, whatever the hash functions: an empty block, and on top of it another that names and
      carries the same hash. Both are accepted from genesis, ids are fresh, and the first block is lost, also once the
      second is popped again. */
  lemma RepeatedHashExample(hash: Hash, timestamp: nat, later: nat, env: Env)
    requires 0 <= hash <= MAX_256 && timestamp > SCIP_2_MIGRATION
    ensures var first := Bare(STARTING, GENESIS_PREVIOUS_BLOCK_HASH, hash, timestamp, env);
      var l := Extend(GENESIS, first, RULE);
      var second := Bare(l.targets, hash, hash, later, env);
      var steps := [Add(first, true, true), Add(second, true, true)];
      && Outcomes(GENESIS, steps, env, RULE) == [true, true] && FreshRun(GENESIS, steps, env, RULE)
      && Run(GENESIS, steps, env, RULE).chain == [first, second]
      && LostAfter(GENESIS, [], steps, env, RULE) == [true, false]
      && NextLost(Run(GENESIS, steps, env, RULE), [true, false], Pop, env) == [true]
  {
    var first := Bare(STARTING, GENESIS_PREVIOUS_BLOCK_HASH, hash, timestamp, env);
    var l := Extend(GENESIS, first, RULE);
    var second := Bare(l.targets, hash, hash, later, env);
    var steps := [Add(first, true, true), Add(second, true, true)];
    StillMax(timestamp);
    BareIsAcceptable(GENESIS, hash, timestamp, env);
    BareIsAcceptable(l, hash, later, env);
    TwoSteps(GENESIS, [], steps[0], steps[1], env, RULE);
  }

  lemma TwoSteps(l: Ledger, lost: seq<bool>, s0: Step, s1: Step, env: Env, rule: Rule)
    requires |l.diffs| == |l.chain| == |lost|
    ensures var l1 := Next(l, s0, env, rule);
      && Run(l, [s0, s1], env, rule) == Next(l1, s1, env, rule)
      && Outcomes(l, [s0, s1], env, rule) == [Succeeds(l, s0, env), Succeeds(l1, s1, env)]
      && (FreshRun(l, [s0, s1], env, rule) <==> FreshStep(l, s0, env) && FreshStep(l1, s1, env))
      && LostAfter(l, lost, [s0, s1], env, rule) == NextLost(l1, NextLost(l, lost, s0, env), s1, env)
  {
    var l1 := Next(l, s0, env, rule);
    assert [s0, s1][1..] == [s1] && [s1][1..] == [];
    assert Run(l1, [s1], env, rule) == Next(l1, s1, env, rule);
    assert Outcomes(l1, [s1], env, rule) == [Succeeds(l1, s1, env)];
    assert FreshRun(l1, [s1], env, rule) <==> FreshStep(l1, s1, env);
    var lost1 := NextLost(l, lost, s0, env);
    assert LostAfter(l1, lost1, [s1], env, rule) == NextLost(l1, lost1, s1, env);
  }
}
