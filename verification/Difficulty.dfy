/** Difficulty targets and their adjustment after each block (src/core/difficulty.rs).
    The source's floating-point ratios are computed here over exact reals. */
module Difficulty {
  import opened Base
  import opened Types
  import opened Bytes

  const TARGET_TIME := 35
  const TX_TARGET := 100
  const DIFFICULTY_ADJUST_DIVISOR := 64
  const DIFF_ADJUST_SCALE := 1_000_000

  /** The largest 256-bit number, `max_256_bui`. */
  const MAX_256: nat :=
    0xFFFF_FFFF_FFFF_FFFF_FFFF_FFFF_FFFF_FFFF_FFFF_FFFF_FFFF_FFFF_FFFF_FFFF_FFFF_FFFF

  function Min(a: nat, b: nat): nat {
    if a < b then a else b
  }

  function ClampI(x: int, lo: int, hi: int): int {
    if x < lo then lo else if x > hi then hi else x
  }

  function ClampF(x: real, lo: real, hi: real): real {
    if x < lo then lo else if x > hi then hi else x
  }

  function Elapsed(now: nat, last: nat): nat {
    if now > last then now - last else 0
  }

  datatype Targets = Targets(block: seq<nat>, tx: seq<nat>, lastTimestamp: nat)

  /** `[u8::MAX; 32]`. */
  const MAX_BUF: seq<nat> := Repeated(0xFF, BUF_LEN)

  const STARTING: Targets := Targets(MAX_BUF, MAX_BUF, 0)

  // ---------- The adjustment in whole numbers ----------

  /** Millionths by which the block target is multiplied after SCIP-2. */
  function ScaleAfterScip2(elapsed: nat): nat {
    var seconds := if elapsed < 1 then 1 else elapsed;
    Min((2205 + seconds) * 1_000_000 / 2240, 1_050_000)
  }

  /** Thousandths by which the block target was multiplied before SCIP-2. */
  function ScaleBeforeScip2(elapsed: nat): nat {
    ClampI(50 * elapsed, 800, 1200)
  }

  /** Thousandths by which the transaction target is multiplied. */
  function TxScale(count: nat): nat {
    ClampI(100_000 / (if count < 1 then 1 else count), 800, 1200)
  }

  function NextBlockTarget(target: nat, now: nat, last: nat): nat {
    if now > SCIP_2_MIGRATION
    then Min(target * ScaleAfterScip2(Elapsed(now, last)) / 1_000_000, MAX_256)
    else Min(target * ScaleBeforeScip2(Elapsed(now, last)) / 1000, MAX_256)
  }

  function NextTxTarget(target: nat, count: nat): nat {
    Min(target * TxScale(count) / 1000, MAX_256)
  }

  function NextBlockBuf(block: seq<nat>, now: nat, last: nat): seq<nat> {
    To32Bytes(NextBlockTarget(FromBytes(block), now, last))
  }

  function NextTxBuf(tx: seq<nat>, count: nat): seq<nat> {
    To32Bytes(NextTxTarget(FromBytes(tx), count))
  }

  function NextTargets(t: Targets, timestamp: nat, count: nat): Targets {
    Targets(NextBlockBuf(t.block, timestamp, t.lastTimestamp), NextTxBuf(t.tx, count), timestamp)
  }

  /** A rule by which the two targets move: the block target with the time passed, the transaction target with the
      number of transactions. */
  datatype Rule = Rule(nextBlock: (seq<nat>, nat, nat) -> seq<nat>, nextTx: (seq<nat>, nat) -> seq<nat>)

  /** The rule of the node. */
  const RULE: Rule := Rule(NextBlockBuf, NextTxBuf)

  function Retargeted(rule: Rule, t: Targets, timestamp: nat, count: nat): Targets {
    Targets(rule.nextBlock(t.block, timestamp, t.lastTimestamp), rule.nextTx(t.tx, count), timestamp)
  }

  lemma NodeRule(t: Targets, timestamp: nat, count: nat)
    ensures Retargeted(RULE, t, timestamp, count) == NextTargets(t, timestamp, count)
  {
  }

  /** `calculate_block_difficulty`: half a per cent easier for every transaction carried. */
  function CalculateBlockDifficulty(blockDifficulty: seq<nat>, txCount: nat): seq<nat> {
    To32Bytes(Min(FromBytes(blockDifficulty) * (1000 + 5 * txCount) / 1000, MAX_256))
  }

  /** The source computes the factor from reals. What it comes to is `BlockTargetMet`. */
  method ComputeBlockDifficulty(blockDifficulty: seq<nat>, txCount: nat) returns (target: seq<nat>)
    ensures target == CalculateBlockDifficulty(blockDifficulty, txCount)
  {
    var factor := ((1.0 + 0.005 * txCount as real) * 1000.0).Floor;
    assert (1.0 + 0.005 * txCount as real) * 1000.0 == (1000 + 5 * txCount) as real;
    target := To32Bytes(Min(FromBytes(blockDifficulty) * factor / 1000, MAX_256));
  }

  /** What the hash of a block must meet: its block target grown by half a per cent for every transaction, 256 bits at
      most. */
  lemma BlockTargetMet(block: seq<nat>, count: nat, hash: nat)
    ensures hash <= FromBytes(CalculateBlockDifficulty(block, count))
      <==> hash <= MAX_256 && 200 * hash <= FromBytes(block) * (200 + count)
  {
    var t := FromBytes(block);
    var product := t * (1000 + 5 * count);
    ReadsBack(Min(product / 1000, MAX_256));
    BelowQuotient(product, 1000, hash);
    assert product == 5 * (t * (200 + count));
  }

  lemma BelowQuotient(n: nat, d: nat, k: nat)
    requires d > 0
    ensures k <= n / d <==> d * k <= n
  {
    if d * k <= n {
      QuotientAbove(n, d, k);
    } else {
      QuotientBelow(n, d, k);
    }
  }

  /** Millionths of the base target left to new transactions: one five-hundredth less for each pending one. */
  function LiveScale(mempoolSize: nat): nat {
    1_000_000 - 2000 * Min(mempoolSize, MAX_TRANSACTIONS_PER_BLOCK)
  }

  function LiveTarget(target: nat, mempoolSize: nat): nat {
    target * LiveScale(mempoolSize) / 1_000_000
  }

  method CalculateLiveTransactionDifficulty(txDifficulty: seq<nat>, mempoolSize: nat) returns (live: seq<nat>)
    ensures live == To32Bytes(LiveTarget(FromBytes(txDifficulty), mempoolSize))
  {
    var pressure := 1.0 / (MAX_TRANSACTIONS_PER_BLOCK as real);
    var decay := ClampF(mempoolSize as real * pressure, 0.0, 1.0);
    var factor := ((1.0 - decay) * 1_000_000.0).Floor;
    assert pressure == 0.002;
    assert factor == LiveScale(mempoolSize);
    live := To32Bytes(FromBytes(txDifficulty) * factor / 1_000_000);
  }

  class DifficultyState {
    var blockDifficulty: seq<nat>
    var transactionDifficulty: seq<nat>
    var lastTimestamp: nat

    function Current(): Targets
      reads this
    {
      Targets(blockDifficulty, transactionDifficulty, lastTimestamp)
    }

    constructor ()
      ensures Current() == STARTING
    {
      blockDifficulty := MAX_BUF;
      transactionDifficulty := MAX_BUF;
      lastTimestamp := 0;
    }

    /** The steps of the source, taken over exact reals, land on the whole-number adjustment. */
    method UpdateBlockDifficulty(timestamp: nat)
      modifies this`blockDifficulty
      ensures blockDifficulty == old(To32Bytes(NextBlockTarget(FromBytes(blockDifficulty), timestamp, lastTimestamp)))
    {
      var elapsed := Elapsed(timestamp, lastTimestamp);
      var target := FromBytes(blockDifficulty);
      if timestamp > SCIP_2_MIGRATION {
        var seconds := if elapsed < 1 then 1 else elapsed;
        var targetTime := TARGET_TIME as real;
        var error := (targetTime - seconds as real) / targetTime;
        var adj := ClampF(error / (DIFFICULTY_ADJUST_DIVISOR as real), -0.05, 0.05);
        var ratio := 1.0 - adj;
        var scaled := (ratio * (DIFF_ADJUST_SCALE as real)).Floor;
        ScaledIs(seconds, scaled);
        blockDifficulty := To32Bytes(Min(target * scaled / DIFF_ADJUST_SCALE, MAX_256));
      } else {
        var timeRatio := (ClampF(elapsed as real / 20.0, 0.8, 1.2) * 1000.0).Floor;
        assert timeRatio == ScaleBeforeScip2(elapsed);
        blockDifficulty := To32Bytes(Min(target * timeRatio / 1000, MAX_256));
      }
    }

    method UpdateTransactionDifficulty(txCount: nat)
      modifies this`transactionDifficulty
      ensures transactionDifficulty == old(To32Bytes(NextTxTarget(FromBytes(transactionDifficulty), txCount)))
    {
      var count := if txCount < 1 then 1 else txCount;
      var txRatio := (ClampF(TX_TARGET as real / count as real, 0.8, 1.2) * 1000.0).Floor;
      TxRatioIs(count, txRatio);
      transactionDifficulty := To32Bytes(Min(FromBytes(transactionDifficulty) * txRatio / 1000, MAX_256));
    }

    method UpdateDifficulty(newBlock: Block)
      modifies this
      ensures Current() == NextTargets(old(Current()), newBlock.timestamp, |newBlock.txs|)
    {
      UpdateBlockDifficulty(newBlock.timestamp);
      UpdateTransactionDifficulty(|newBlock.txs|);
      lastTimestamp := newBlock.timestamp;
    }
  }

  lemma ScaledIs(seconds: nat, scaled: int)
    requires seconds >= 1
    requires scaled == ((1.0 - ClampF((35.0 - seconds as real) / 35.0 / 64.0, -0.05, 0.05)) * 1_000_000.0).Floor
    ensures scaled == ScaleAfterScip2(seconds)
  {
    var x := (2205 + seconds) * 1_000_000;
    var k := x / 2240;
    assert 2240 * k <= x < 2240 * (k + 1);
    var adj := (35.0 - seconds as real) / 35.0 / 64.0;
    assert adj == (35.0 - seconds as real) / 2240.0;
    assert (1.0 - adj) * 1_000_000.0 == x as real / 2240.0;
  }

  lemma TxRatioIs(count: nat, ratio: int)
    requires count >= 1
    requires ratio == (ClampF(100.0 / count as real, 0.8, 1.2) * 1000.0).Floor
    ensures ratio == TxScale(count)
  {
    var q, c := 100.0 / count as real, count as real;
    assert q * c == 100.0;
    if count > 125 {
      RealOrder(0.8, q, c);
      QuotientBelow(100_000, count, 800);
    } else if count < 84 {
      RealOrder(q, 1.2, c);
      QuotientAbove(100_000, count, 1201);
    } else {
      RealOrder(q, 0.8, c);
      RealOrder(1.2, q, c);
      QuotientAbove(100_000, count, 800);
      QuotientBelow(100_000, count, 1201);
      FloorOfQuotient(100_000, count, 100_000 / count);
      assert q * 1000.0 == 100_000.0 / c;
    }
  }

  lemma RealOrder(a: real, b: real, c: real)
    requires c > 0.0
    ensures a * c > b * c ==> a > b
    ensures a * c < b * c ==> a < b
    ensures a * c >= b * c ==> a >= b
  {
  }

  lemma QuotientBelow(n: nat, d: nat, m: nat)
    requires 0 < d && n < m * d
    ensures n / d < m
  {
    var k := n / d;
    assert k * d <= n;
    assert k >= m ==> k * d >= m * d;
  }

  lemma QuotientAbove(n: nat, d: nat, m: nat)
    requires 0 < d && m * d <= n
    ensures m <= n / d
  {
    var k := n / d;
    assert n < (k + 1) * d;
    assert k + 1 <= m ==> (k + 1) * d <= m * d;
  }

  lemma {:induction false} ProductAsReal(a: nat, b: nat)
    ensures a as real * b as real == (a * b) as real
  {
    if a > 0 {
      ProductAsReal(a - 1, b);
      assert (a - 1) * b + b == a * b;
      assert (a - 1) as real * b as real + b as real == a as real * b as real;
    }
  }

  lemma FloorBetween(q: real, k: int)
    requires k as real <= q < k as real + 1.0
    ensures q.Floor == k
  {
  }

  lemma FloorOfQuotient(n: nat, d: nat, k: nat)
    requires d >= 1 && k * d <= n < (k + 1) * d
    ensures (n as real / d as real).Floor == k
  {
    var q, r, lo := n as real / d as real, d as real, k as real;
    var hi := lo + 1.0;
    assert q * r == n as real;
    assert lo * r <= q * r by {
      ProductAsReal(k, d);
    }
    assert q * r < hi * r by {
      ProductAsReal(k + 1, d);
      assert (k + 1) as real == hi;
    }
    RealOrder(q, lo, r);
    RealOrder(q, hi, r);
    FloorBetween(q, k);
  }

  // ---------- Bounds on the adjustment ----------

  /** A scaled, floored and capped target stays within one unit of the exact product. */
  lemma ScaledBounds(t: nat, scale: nat, unit: nat, lo: nat, hi: nat, cap: nat)
    requires 0 < unit && lo <= scale <= hi && lo <= unit && t <= cap
    ensures lo * t <= unit * Min(t * scale / unit, cap) + unit
    ensures unit * Min(t * scale / unit, cap) <= hi * t
  {
    var p := t * scale;
    var q := p / unit;
    Times(lo, scale, t);
    Times(scale, hi, t);
    FloorTimes(p, unit);
    if q > cap {
      Times(lo, unit, t);
      Times(t, cap, unit);
    }
  }

  lemma Times(a: nat, b: nat, t: nat)
    requires a <= b
    ensures a * t <= b * t && t * a == a * t && t * b == b * t
  {
  }

  lemma FloorTimes(p: nat, unit: nat)
    requires unit > 0
    ensures unit * (p / unit) <= p <= unit * (p / unit) + unit
  {
  }

  /** One block moves the transaction target by at most a fifth either way, and the block target by a factor
      in [0.984821, 1.05] after SCIP-2 and [0.8, 1.2] before, up to flooring and the 256-bit ceiling. */
  lemma OneStep(t: nat, now: nat, last: nat, count: nat)
    requires t <= MAX_256
    ensures 0.8 * t as real - 1.0 <= NextTxTarget(t, count) as real <= 1.2 * t as real
    ensures now > SCIP_2_MIGRATION ==>
      0.984821 * t as real - 1.0 <= NextBlockTarget(t, now, last) as real <= 1.05 * t as real
    ensures now <= SCIP_2_MIGRATION ==>
      0.8 * t as real - 1.0 <= NextBlockTarget(t, now, last) as real <= 1.2 * t as real
  {
    var e := Elapsed(now, last);
    ScaledBounds(t, TxScale(count), 1000, 800, 1200, MAX_256);
    ScaledBounds(t, ScaleAfterScip2(e), 1_000_000, 984_821, 1_050_000, MAX_256);
    ScaledBounds(t, ScaleBeforeScip2(e), 1000, 800, 1200, MAX_256);
  }

  /** Millionths past SCIP-2: from 984821 at one second in proportion up to 1.05 million. */
  lemma ScaleAfterScip2Is(elapsed: nat, k: nat)
    ensures k <= ScaleAfterScip2(elapsed)
      <==> k <= 1_050_000 && 2240 * k <= (2205 + if elapsed < 1 then 1 else elapsed) * 1_000_000
  {
    BelowQuotient((2205 + if elapsed < 1 then 1 else elapsed) * 1_000_000, 2240, k);
  }

  /** Thousandths for transactions: a hundred of them over their number, between 800 and 1200. */
  lemma TxScaleIs(count: nat, k: nat)
    ensures k <= TxScale(count) <==> k <= 800 || (k <= 1200 && k * count <= 100_000)
  {
    if count > 0 {
      BelowQuotient(100_000, count, k);
      assert count * k == k * count;
    } else {
      assert k * count == 0;
    }
  }

  /** Thousandths before SCIP-2: fifty a second, between 800 and 1200. */
  lemma ScaleBeforeScip2Is(elapsed: nat, k: nat)
    ensures k <= ScaleBeforeScip2(elapsed) <==> k <= 800 || (k <= 1200 && k <= 50 * elapsed)
  {
  }

  /** Where the block target rests and where its change ends: past SCIP-2 at 35 seconds, from 147 on and up to one. */
  lemma RestsAfterScip2(t: nat, now: nat, last: nat)
    requires t <= MAX_256 && now > SCIP_2_MIGRATION
    ensures Elapsed(now, last) == 35 ==> NextBlockTarget(t, now, last) == t
    ensures Elapsed(now, last) >= 147 ==> NextBlockTarget(t, now, last) == Min(t * 105 / 100, MAX_256)
    ensures Elapsed(now, last) <= 1 ==> NextBlockTarget(t, now, last) == t * 984_821 / 1_000_000
  {
    var e := Elapsed(now, last);
    ScaleAfterScip2Is(e, 1_050_000);
    assert e >= 147 ==> ScaleAfterScip2(e) == 1_050_000;
    assert e == 35 ==> ScaleAfterScip2(e) == 1_000_000;
    assert e <= 1 ==> ScaleAfterScip2(e) == 984_821;
    assert t * 1_050_000 / 1_000_000 == t * 105 / 100;
  }

  /** Before SCIP-2 at 20 seconds, from 24 on and up to 16. */
  lemma RestsBeforeScip2(t: nat, now: nat, last: nat)
    requires t <= MAX_256 && now <= SCIP_2_MIGRATION
    ensures Elapsed(now, last) == 20 ==> NextBlockTarget(t, now, last) == t
    ensures Elapsed(now, last) >= 24 ==> NextBlockTarget(t, now, last) == Min(t * 12 / 10, MAX_256)
    ensures Elapsed(now, last) <= 16 ==> NextBlockTarget(t, now, last) == t * 8 / 10
  {
    var e := Elapsed(now, last);
    assert e >= 24 ==> ScaleBeforeScip2(e) == 1200;
    assert e == 20 ==> ScaleBeforeScip2(e) == 1000;
    assert e <= 16 ==> ScaleBeforeScip2(e) == 800;
    assert t * 1200 / 1000 == t * 12 / 10 && t * 800 / 1000 == t * 8 / 10;
  }

  /** The transaction target rests at a hundred transactions, grows most up to 83 and shrinks most from 125 on. */
  lemma TxTargetRests(t: nat, count: nat)
    requires t <= MAX_256
    ensures count == 100 ==> NextTxTarget(t, count) == t
    ensures count <= 83 ==> NextTxTarget(t, count) == Min(t * 12 / 10, MAX_256)
    ensures count >= 125 ==> NextTxTarget(t, count) == t * 8 / 10
  {
    TxScaleIs(count, 1200);
    TxScaleIs(count, 801);
    assert count <= 83 ==> TxScale(count) == 1200;
    assert count >= 125 ==> TxScale(count) == 800;
    assert t * 1200 / 1000 == t * 12 / 10 && t * 800 / 1000 == t * 8 / 10;
  }

  /** What the id of a new transaction must meet: the base target less a five-hundredth for each pending one. */
  lemma LiveTargetMet(t: nat, pending: nat, id: nat)
    ensures id <= LiveTarget(t, pending) <==> 500 * id <= t * (500 - Min(pending, 500))
  {
    var left := 500 - Min(pending, 500);
    BelowQuotient(t * LiveScale(pending), 1_000_000, id);
    assert LiveScale(pending) == 2000 * left;
    assert t * (2000 * left) == 2000 * (t * left);
  }

  datatype Header = Header(timestamp: nat, count: nat)

  /** `ts` are the targets before the first and after each block of `headers`. */
  ghost predicate IsRun(ts: seq<Targets>, headers: seq<Header>) {
    && |ts| == |headers| + 1
    && forall i | 0 <= i < |headers| :: ts[i + 1] == NextTargets(ts[i], headers[i].timestamp, headers[i].count)
  }

  /** t0 multiplied n times by r. */
  ghost function Compound(r: real, n: nat, t0: real): real {
    if n == 0 then t0 else r * Compound(r, n - 1, t0)
  }

  lemma MaxFillsBuffer()
    ensures MAX_256 == Pow256(BUF_LEN) - 1
  {
    assert Pow256(8) == 0x1_0000_0000_0000_0000;
    Pow256Sum(8, 8);
    Pow256Sum(16, 16);
  }

  /** The starting targets are the largest. */
  lemma StartingIsMax()
    ensures FromBytes(MAX_BUF) == MAX_256 && IsBuf32(MAX_BUF)
  {
    FullBytes(BUF_LEN);
    MaxFillsBuffer();
  }

  lemma ReadsBack(n: nat)
    requires n <= MAX_256
    ensures FromBytes(To32Bytes(n)) == n
  {
    MaxFillsBuffer();
    To32BytesReadsBack(n);
  }

  ghost predicate Fits(t: Targets) {
    FromBytes(t.block) <= MAX_256 && FromBytes(t.tx) <= MAX_256
  }

  /** The new targets fit their buffers and read back as the numbers computed. */
  lemma NextTargetsReadBack(t: Targets, timestamp: nat, count: nat)
    ensures var t' := NextTargets(t, timestamp, count);
      && Fits(t')
      && FromBytes(t'.block) == NextBlockTarget(FromBytes(t.block), timestamp, t.lastTimestamp)
      && FromBytes(t'.tx) == NextTxTarget(FromBytes(t.tx), count)
  {
    ReadsBack(NextTxTarget(FromBytes(t.tx), count));
    ReadsBack(NextBlockTarget(FromBytes(t.block), timestamp, t.lastTimestamp));
  }

  /** Numbers that move by at most a fifth and one unit a step. */
  lemma {:induction false} CompoundBounds(vs: seq<real>, k: nat)
    requires k < |vs| && vs[0] >= 0.0
    requires forall i | 0 <= i < |vs| - 1 :: 0.8 * vs[i] - 1.0 <= vs[i + 1] <= 1.2 * vs[i]
    ensures Compound(0.8, k, vs[0] + 5.0) - 5.0 <= vs[k] <= Compound(1.2, k, vs[0])
  {
    if k > 0 {
      CompoundBounds(vs, k - 1);
      assert 0.8 * vs[k - 1] - 1.0 <= vs[k] <= 1.2 * vs[k - 1];
    }
  }

  /** Over any run of n blocks every target still fits its 32 bytes, and the transaction target stays
      between 0.8^n (t0 + 5) - 5, hence 0.8^n t0 - 5, and 1.2^n t0. */
  lemma TargetsOverRuns(ts: seq<Targets>, headers: seq<Header>)
    requires IsRun(ts, headers) && Fits(ts[0])
    ensures forall i | 0 <= i < |ts| :: Fits(ts[i])
    ensures var n, t0, t := |headers|, FromBytes(ts[0].tx) as real, FromBytes(ts[|headers|].tx) as real;
      Compound(0.8, n, t0) - 5.0 <= Compound(0.8, n, t0 + 5.0) - 5.0 <= t <= Compound(1.2, n, t0)
  {
    var n, t0 := |headers|, FromBytes(ts[0].tx) as real;
    forall i | 0 <= i < |ts| ensures Fits(ts[i]) {
      if i > 0 {
        NextTargetsReadBack(ts[i - 1], headers[i - 1].timestamp, headers[i - 1].count);
        assert ts[(i - 1) + 1] == ts[i];
      }
    }
    var vs := seq(|ts|, i requires 0 <= i < |ts| => FromBytes(ts[i].tx) as real);
    forall i | 0 <= i < |vs| - 1 ensures 0.8 * vs[i] - 1.0 <= vs[i + 1] <= 1.2 * vs[i] {
      NextTxBounds(ts[i], headers[i].timestamp, headers[i].count);
    }
    CompoundBounds(vs, n);
    CompoundMonotone(0.8, n, t0, t0 + 5.0);
  }

  lemma NextTxBounds(t: Targets, timestamp: nat, count: nat)
    requires Fits(t)
    ensures var now, next := FromBytes(t.tx) as real, FromBytes(NextTargets(t, timestamp, count).tx) as real;
      0.8 * now - 1.0 <= next <= 1.2 * now
    ensures Fits(NextTargets(t, timestamp, count))
  {
    NextTargetsReadBack(t, timestamp, count);
    OneStep(FromBytes(t.tx), timestamp, t.lastTimestamp, count);
  }

  lemma {:induction false} CompoundMonotone(r: real, n: nat, a: real, b: real)
    requires r >= 0.0 && a <= b
    ensures Compound(r, n, a) <= Compound(r, n, b)
  {
    if n > 0 {
      CompoundMonotone(r, n - 1, a, b);
    }
  }

  /** The live target reads back as computed and only ever tightens the base one: never looser with more
      pending transactions, equal to it on an empty mempool, and zero once a full block is pending. */
  lemma LiveTargetTightens(t: nat, a: nat, b: nat)
    requires t <= MAX_256 && a <= b
    ensures FromBytes(To32Bytes(LiveTarget(t, a))) == LiveTarget(t, a)
    ensures LiveTarget(t, b) <= LiveTarget(t, a) <= LiveTarget(t, 0) == t
    ensures LiveTarget(t, a + MAX_TRANSACTIONS_PER_BLOCK) == 0
  {
    ScaledOrder(t, LiveScale(b), LiveScale(a));
    ScaledOrder(t, LiveScale(a), 1_000_000);
    ReadsBack(LiveTarget(t, a));
    assert LiveScale(a + MAX_TRANSACTIONS_PER_BLOCK) == 0 && t * 0 == 0;
  }

  lemma ScaledOrder(n: nat, a: nat, b: nat)
    requires a <= b
    ensures n * a / 1_000_000 <= n * b / 1_000_000
  {
    assert n * a <= n * b;
  }
}
