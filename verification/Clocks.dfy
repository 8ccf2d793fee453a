/** When the whole state is a replay of the active blocks: popping the only block leaves its time on the clock
    (src/core/blockchain.rs:333-339), and the next block target is computed from it (src/core/difficulty.rs:40-87). */
module Clocks {
  import opened Base
  import opened Types
  import opened Utxos
  import opened Blocks
  import opened Difficulty
  import opened Ledgers
  import Merkle

  /** The time that the last emptying of the chain left on the clock, `t0` if there is none. */
  ghost function LeftClock(l: Ledger, t0: nat, steps: seq<Step>, env: Env, rule: Rule): nat
    requires |l.diffs| == |l.chain|
    decreases |steps|
  {
    if steps == [] then t0
    else
      var left := if steps[0].Pop? && |l.chain| == 1 then l.chain[0].timestamp else t0;
      LeftClock(Next(l, steps[0], env, rule), left, steps[1..], env, rule)
  }

  /** The targets after a chain that started with the clock at `t0`. */
  ghost function TargetsFrom(t0: nat, chain: seq<Block>, rule: Rule): Targets {
    if chain == [] then Targets(STARTING.block, STARTING.tx, t0)
    else
      var n := |chain| - 1;
      Retargeted(rule, TargetsFrom(t0, chain[..n], rule), chain[n].timestamp, |chain[n].txs|)
  }

  /** The state of the difficulty, and what the blocks state, come from a start with the clock at `t0`. */
  ghost predicate Clocked(l: Ledger, t0: nat, rule: Rule) {
    && |l.diffs| == |l.chain| && l.targets == TargetsFrom(t0, l.chain, rule)
    && forall i | 0 <= i < |l.chain| :: StatedAt(l.chain, i, t0, rule)
  }

  ghost predicate StatedAt(chain: seq<Block>, i: nat, t0: nat, rule: Rule)
    requires i < |chain|
  {
    var t := TargetsFrom(t0, chain[..i], rule);
    chain[i].meta.blockDifficulty == t.block && chain[i].meta.txDifficulty == t.tx
  }

  lemma ExtendClocked(l: Ledger, b: Block, t0: nat, rule: Rule)
    requires Clocked(l, t0, rule)
    requires b.meta.blockDifficulty == l.targets.block && b.meta.txDifficulty == l.targets.tx
    ensures Clocked(Extend(l, b, rule), t0, rule)
  {
    var more := l.chain + [b];
    assert more[..|l.chain|] == l.chain;
    forall i | 0 <= i < |more| ensures StatedAt(more, i, t0, rule) {
      assert more[..i] == l.chain[..i];
      assert i == |l.chain| || StatedAt(l.chain, i, t0, rule);
      assert l.chain[..|l.chain|] == l.chain;
    }
  }

  lemma ShrinkClocked(l: Ledger, t0: nat, rule: Rule)
    requires Clocked(l, t0, rule) && l.chain != []
    ensures Clocked(Shrink(l), if |l.chain| == 1 then l.chain[0].timestamp else t0, rule)
  {
    var n := |l.chain| - 1;
    var init := l.chain[..n];
    assert StatedAt(l.chain, n, t0, rule);
    forall i | 0 <= i < n ensures StatedAt(init, i, t0, rule) {
      assert init[..i] == l.chain[..i] && StatedAt(l.chain, i, t0, rule);
    }
  }

  /** In every run the difficulty state is that of a start at the time the last emptying left. */
  lemma {:induction false} RunClocked(l: Ledger, t0: nat, steps: seq<Step>, env: Env, rule: Rule)
    requires Clocked(l, t0, rule)
    ensures Clocked(Run(l, steps, env, rule), LeftClock(l, t0, steps, env, rule), rule)
    decreases |steps|
  {
    if steps != [] {
      var left := if steps[0].Pop? && |l.chain| == 1 then l.chain[0].timestamp else t0;
      match steps[0] {
        case Add(b, isIbd, skipHash) =>
          if Acceptable(l, b, isIbd, skipHash, env) {
            ExtendClocked(l, b, t0, rule);
          }
        case Pop =>
          if l.chain != [] {
            ShrinkClocked(l, t0, rule);
          }
      }
      RunClocked(Next(l, steps[0], env, rule), left, steps[1..], env, rule);
    }
  }

  /** The clock at the start makes no difference to the chain: with no block it is the clock of genesis, and with some
      the target after the first is the same from either. */
  predicate Harmless(t0: nat, chain: seq<Block>, rule: Rule) {
    if chain == [] then t0 == 0
    else rule.nextBlock(STARTING.block, chain[0].timestamp, t0) == rule.nextBlock(STARTING.block, chain[0].timestamp, 0)
  }

  lemma {:induction false} HarmlessTargets(t0: nat, chain: seq<Block>, rule: Rule)
    requires Harmless(t0, chain, rule)
    ensures TargetsFrom(t0, chain, rule) == TargetsFrom(0, chain, rule)
    decreases |chain|
  {
    if |chain| > 1 {
      HarmlessTargets(t0, chain[..|chain| - 1], rule);
    }
  }

  lemma {:induction false} ReplayTargets(chain: seq<Block>, rule: Rule)
    ensures Replay(chain, rule).targets == TargetsFrom(0, chain, rule)
  {
    if chain != [] {
      ReplayTargets(chain[..|chain| - 1], rule);
    }
  }

  ghost predicate BlockTargetAt(chain: seq<Block>, i: nat, rule: Rule)
    requires i < |chain|
  {
    chain[i].meta.blockDifficulty == TargetsFrom(0, chain[..i], rule).block
  }

  lemma {:induction false} StatedIsReplayed(chain: seq<Block>, rule: Rule)
    requires forall i | 0 <= i < |chain| :: BlockTargetAt(chain, i, rule)
    ensures BlockTargetsReplay(chain, rule)
    decreases |chain|
  {
    if chain != [] {
      var n := |chain| - 1;
      var init := chain[..n];
      forall i | 0 <= i < n ensures BlockTargetAt(init, i, rule) {
        assert BlockTargetAt(chain, i, rule) && init[..i] == chain[..i];
      }
      StatedIsReplayed(init, rule);
      ReplayTargets(init, rule);
      assert BlockTargetAt(chain, n, rule);
    }
  }

  lemma {:induction false} ReplayedIsStated(chain: seq<Block>, i: nat, rule: Rule)
    requires BlockTargetsReplay(chain, rule) && i < |chain|
    ensures BlockTargetAt(chain, i, rule)
    decreases |chain|
  {
    var n := |chain| - 1;
    var init := chain[..n];
    if i < n {
      ReplayedIsStated(init, i, rule);
      assert init[..i] == chain[..i];
    } else {
      ReplayTargets(init, rule);
    }
  }

  lemma HarmlessIsFull(l: Ledger, t0: nat, rule: Rule)
    requires Consistent(l, rule) && Clocked(l, t0, rule) && Harmless(t0, l.chain, rule)
    ensures FullyConsistent(l, rule)
  {
    HarmlessTargets(t0, l.chain, rule);
    ReplayTargets(l.chain, rule);
    forall i | 0 <= i < |l.chain| ensures BlockTargetAt(l.chain, i, rule) {
      assert StatedAt(l.chain, i, t0, rule);
      if i > 0 {
        HarmlessTargets(t0, l.chain[..i], rule);
      }
    }
    StatedIsReplayed(l.chain, rule);
  }

  /** What the second block states is what the first leaves, from either clock. */
  lemma SecondShows(chain: seq<Block>, t0: nat, rule: Rule)
    requires |chain| > 1 && StatedAt(chain, 1, t0, rule) && BlockTargetAt(chain, 1, rule)
    ensures Harmless(t0, chain, rule)
  {
    AfterFirst(t0, chain, rule);
    AfterFirst(0, chain, rule);
  }

  lemma FullIsHarmless(l: Ledger, t0: nat, rule: Rule)
    requires FullyConsistent(l, rule) && Clocked(l, t0, rule)
    ensures Harmless(t0, l.chain, rule)
  {
    if |l.chain| > 1 {
      ReplayedIsStated(l.chain, 1, rule);
      SecondShows(l.chain, t0, rule);
    } else {
      ReplayTargets(l.chain, rule);
      if l.chain != [] {
        AfterFirst(t0, l.chain, rule);
        AfterFirst(0, l.chain, rule);
        assert l.chain[..1] == l.chain;
      }
    }
  }

  lemma AfterFirst(t0: nat, chain: seq<Block>, rule: Rule)
    requires chain != []
    ensures TargetsFrom(t0, chain[..1], rule).block == rule.nextBlock(STARTING.block, chain[0].timestamp, t0)
  {
    assert chain[..1][..0] == [];
  }

  /** History independence, exactly: after any run with fresh ids the unspent outputs, the undo records and the
      transaction target are those of a replay of the active blocks; and everything is, the block target, the clock and
      what the blocks state about it, if and only if the clock left by the last emptying is harmless. */
  lemma {:induction false} ReplayFrom(l: Ledger, t0: nat, steps: seq<Step>, env: Env, rule: Rule)
    requires Consistent(l, rule) && Clocked(l, t0, rule) && FreshRun(l, steps, env, rule)
    ensures var now, left := Run(l, steps, env, rule), LeftClock(l, t0, steps, env, rule);
      && Consistent(now, rule) && (FullyConsistent(now, rule) <==> Harmless(left, now.chain, rule))
  {
    var now, left := Run(l, steps, env, rule), LeftClock(l, t0, steps, env, rule);
    HistoryIndependence(l, steps, env, rule);
    RunClocked(l, t0, steps, env, rule);
    if Harmless(left, now.chain, rule) {
      HarmlessIsFull(now, left, rule);
    }
    if FullyConsistent(now, rule) {
      FullIsHarmless(now, left, rule);
    }
  }

  /** From genesis, where the clock shows zero. */
  lemma {:induction false} StateIsReplay(steps: seq<Step>, env: Env, rule: Rule)
    requires FreshRun(GENESIS, steps, env, rule)
    ensures var l, t0 := Run(GENESIS, steps, env, rule), LeftClock(GENESIS, 0, steps, env, rule);
      && Consistent(l, rule) && (FullyConsistent(l, rule) <==> Harmless(t0, l.chain, rule))
  {
    GenesisConsistent(rule);
    ReplayFrom(GENESIS, 0, steps, env, rule);
  }

  // ---------- When the node's own rule is harmless ----------

  /** Elapsed-time thresholds: after SCIP-2 the first block must come a target time after what the clock shows; before
      it, twenty seconds. Timestamps too small for that are harmless up to 16, where either elapsed time is clamped. */
  predicate ClockHarmless(timestamp: nat, t0: nat) {
    if timestamp > SCIP_2_MIGRATION then t0 + TARGET_TIME <= timestamp
    else if timestamp >= 20 then t0 + 20 <= timestamp
    else timestamp <= 16 || t0 == 0
  }

  lemma QuotientGrows(a: nat, b: nat, unit: nat)
    requires a <= b && 0 < unit
    ensures a / unit <= b / unit
  {
    var q := a / unit;
    FloorTimes(a, unit);
    assert q * unit == unit * q;
    QuotientAbove(b, unit, q);
  }

  lemma FloorKeepsOrder(m: nat, a: nat, b: nat, unit: nat)
    requires a < b && 0 < unit <= m
    ensures m * a / unit < m * b / unit
  {
    var q := m * a / unit;
    FloorTimes(m * a, unit);
    Times(a + 1, b, m);
    assert m * (a + 1) == m * a + m;
    assert (q + 1) * unit == unit * q + unit;
    QuotientAbove(m * b, unit, q + 1);
  }

  /** The largest target scaled: itself from a full scale on, and below that strictly by scale. */
  lemma ScaledMax(a: nat, b: nat, unit: nat)
    requires 0 < unit <= 1_000_000
    ensures a >= unit ==> Min(MAX_256 * a / unit, MAX_256) == MAX_256
    ensures a < unit && a < b ==> Min(MAX_256 * a / unit, MAX_256) < Min(MAX_256 * b / unit, MAX_256)
  {
    assert MAX_256 * unit / unit == MAX_256;
    if a >= unit {
      assert MAX_256 * a >= MAX_256 * unit;
      QuotientGrows(MAX_256 * unit, MAX_256 * a, unit);
    } else {
      FloorKeepsOrder(MAX_256, a, unit, unit);
      if a < b {
        FloorKeepsOrder(MAX_256, a, b, unit);
      }
    }
  }

  lemma SameTargetFromMax(timestamp: nat, t0: nat)
    ensures NextBlockTarget(MAX_256, timestamp, t0) == NextBlockTarget(MAX_256, timestamp, 0)
      <==> ClockHarmless(timestamp, t0)
  {
    var e, e0 := Elapsed(timestamp, t0), Elapsed(timestamp, 0);
    if timestamp > SCIP_2_MIGRATION {
      ScaledMax(ScaleAfterScip2(e), ScaleAfterScip2(e0), 1_000_000);
      ScaledMax(ScaleAfterScip2(e0), ScaleAfterScip2(e0), 1_000_000);
    } else {
      ScaledMax(ScaleBeforeScip2(e), ScaleBeforeScip2(e0), 1000);
      ScaledMax(ScaleBeforeScip2(e0), ScaleBeforeScip2(e0), 1000);
    }
  }

  lemma NodeRuleHarmless(timestamp: nat, t0: nat)
    ensures RULE.nextBlock(STARTING.block, timestamp, t0) == RULE.nextBlock(STARTING.block, timestamp, 0)
      <==> ClockHarmless(timestamp, t0)
  {
    StartingIsMax();
    SameTargetFromMax(timestamp, t0);
    ReadsBack(NextBlockTarget(MAX_256, timestamp, t0));
    ReadsBack(NextBlockTarget(MAX_256, timestamp, 0));
  }

  /** For the node: after any run the whole state is a replay exactly if the chain is empty and the clock too, or the
      first active block came late enough after the clock that the last emptying left. */
  lemma {:induction false} NodeStateIsReplay(steps: seq<Step>, env: Env)
    requires FreshRun(GENESIS, steps, env, RULE)
    ensures var l, t0 := Run(GENESIS, steps, env, RULE), LeftClock(GENESIS, 0, steps, env, RULE);
      FullyConsistent(l, RULE) <==> (if l.chain == [] then t0 == 0 else ClockHarmless(l.chain[0].timestamp, t0))
  {
    var l, t0 := Run(GENESIS, steps, env, RULE), LeftClock(GENESIS, 0, steps, env, RULE);
    StateIsReplay(steps, env, RULE);
    if l.chain != [] {
      NodeRuleHarmless(l.chain[0].timestamp, t0);
    }
  }

  // ---------- The shortest run that shows it ----------

  /** Emptying the chain leaves a state that accepts what genesis accepts. */
  lemma EmptiedState(b: Block, env: Env, isIbd: bool)
    requires Acceptable(GENESIS, b, isIbd, false, env) && FreshFor([], b)
    ensures var l := Shrink(Extend(GENESIS, b, RULE));
      l == GENESIS.(targets := Targets(STARTING.block, STARTING.tx, b.timestamp))
  {
    GenesisConsistent(RULE);
    PopUndoesAdd(GENESIS, b, isIbd, false, env, RULE);
  }

  /** Add a block, pop it, add another: two blocks that genesis would accept leave a state other than a replay of the
      second exactly if its time is too close to that of the first. */
  lemma StaleClockChangesTarget(b: Block, b': Block, isIbd: bool, env: Env)
    requires Acceptable(GENESIS, b, isIbd, false, env) && FreshFor([], b)
    requires Acceptable(GENESIS, b', isIbd, false, env) && FreshFor([], b')
    ensures var steps := [Add(b, isIbd, false), Pop, Add(b', isIbd, false)];
      var l := Run(GENESIS, steps, env, RULE);
      l.chain == [b'] && (FullyConsistent(l, RULE) <==> ClockHarmless(b'.timestamp, b.timestamp))
  {
    var add, add' := Add(b, isIbd, false), Add(b', isIbd, false);
    EmptiedState(b, env, isIbd);
    var added := Extend(GENESIS, b, RULE);
    var emptied := Shrink(added);
    AcceptableSame(emptied, b', isIbd, env);
    ThreeSteps(add, Pop, add', env, RULE);
    assert Next(GENESIS, add, env, RULE) == added && Next(added, Pop, env, RULE) == emptied;
    NodeStateIsReplay([add, Pop, add'], env);
  }

  lemma ThreeSteps(s0: Step, s1: Step, s2: Step, env: Env, rule: Rule)
    ensures var l1 := Next(GENESIS, s0, env, rule);
      var l2 := Next(l1, s1, env, rule);
      && Run(GENESIS, [s0, s1, s2], env, rule) == Next(l2, s2, env, rule)
      && (FreshRun(GENESIS, [s0, s1, s2], env, rule)
          <==> FreshStep(GENESIS, s0, env) && FreshStep(l1, s1, env) && FreshStep(l2, s2, env))
      && (s0.Add? && s1.Pop? && s2.Add? ==>
            LeftClock(GENESIS, 0, [s0, s1, s2], env, rule) == if |l1.chain| == 1 then l1.chain[0].timestamp else 0)
  {
    var l1 := Next(GENESIS, s0, env, rule);
    var l2 := Next(l1, s1, env, rule);
    assert [s0, s1, s2][1..] == [s1, s2] && [s1, s2][1..] == [s2] && [s2][1..] == [];
    assert Run(l2, [s2], env, rule) == Next(l2, s2, env, rule);
    assert Run(l1, [s1, s2], env, rule) == Run(l2, [s2], env, rule);
    assert FreshRun(l2, [s2], env, rule) <==> FreshStep(l2, s2, env);
    assert FreshRun(l1, [s1, s2], env, rule) <==> FreshStep(l1, s1, env) && FreshRun(l2, [s2], env, rule);
    var left := if s1.Pop? && |l1.chain| == 1 then l1.chain[0].timestamp else 0;
    assert s2.Add? ==> LeftClock(l2, left, [s2], env, rule) == left;
    assert LeftClock(l1, 0, [s1, s2], env, rule) == LeftClock(l2, left, [s2], env, rule);
  }

  lemma AcceptableSame(l: Ledger, b: Block, isIbd: bool, env: Env)
    requires l == GENESIS.(targets := STARTING.(lastTimestamp := l.targets.lastTimestamp))
    ensures Acceptable(l, b, isIbd, false, env) <==> Acceptable(GENESIS, b, isIbd, false, env)
  {
    forall k | 0 <= k < |b.txs| ensures TxOk(l, b, k, isIbd, env) <==> TxOk(GENESIS, b, k, isIbd, env) {
    }
  }

  /** A block without transactions, right on top of genesis. */
  function EmptyBlock(timestamp: nat): Block {
    Block([], timestamp, 0, Meta(STARTING.block, STARTING.tx, GENESIS_PREVIOUS_BLOCK_HASH, Some(0), 0, 0))
  }

  const EXAMPLE: Env := Env(_ => 0, _ => 0, _ => 0, (_, _, _) => false, _ => 0, Merkle.Hasher(_ => 0, (_, _) => 0))

  /** An input on which it shows: two empty blocks of any two times, of which the second comes too early. */
  lemma StaleClockExample(first: nat, second: nat)
    ensures Acceptable(GENESIS, EmptyBlock(first), false, false, EXAMPLE)
    ensures var steps := [Add(EmptyBlock(first), false, false), Pop, Add(EmptyBlock(second), false, false)];
      var l := Run(GENESIS, steps, EXAMPLE, RULE);
      l.chain == [EmptyBlock(second)] && (FullyConsistent(l, RULE) <==> ClockHarmless(second, first))
  {
    StaleClockChangesTarget(EmptyBlock(first), EmptyBlock(second), false, EXAMPLE);
  }
}
