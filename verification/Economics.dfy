/** The reward schedule (src/core/economics.rs). */
module Economics {
  import opened Base

  const INITIAL_REWARD := 10_000_000_000
  const HALVING_INTERVAL := 1_000_000
  const MIN_REWARD := 1

  /** `n >> k`, for every `k`. */
  function ShiftRight(n: nat, k: nat): nat {
    if k == 0 then n else ShiftRight(n, k - 1) / 2
  }

  /** The reward of every block of era `e`, halved `e` times but never below the minimum. */
  function EraReward(e: nat): (reward: nat)
    ensures reward >= MIN_REWARD
  {
    var reward := ShiftRight(INITIAL_REWARD, e);
    if reward < MIN_REWARD then MIN_REWARD else reward
  }

  function GetBlockReward(height: nat): nat {
    EraReward(height / HALVING_INTERVAL)
  }

  /** Two per cent; the source computes it in floating point. */
  function CalculateDevFee(reward: nat): nat {
    reward / 50
  }

  ghost function RewardsBelow(height: nat): nat {
    if height == 0 then 0 else RewardsBelow(height - 1) + GetBlockReward(height - 1)
  }

  /** Sum over the first `e` eras of the halved reward, one block each. */
  ghost function EraSum(e: nat): nat {
    if e == 0 then 0 else EraSum(e - 1) + EraReward(e - 1)
  }

  /** The accumulating loop. From 64 halvings on the shift of the reward overflows, below that nothing does. */
  method TotalReward(upToHeight: nat) returns (r: Result<U64, ()>)
    ensures r.Ok? <==> upToHeight <= 64 * HALVING_INTERVAL
    ensures r.Ok? ==> r.value == RewardsBelow(upToHeight)
    ensures !r.Err?
  {
    var total := 0;
    for height := 0 to upToHeight
      invariant height <= 64 * HALVING_INTERVAL && total == RewardsBelow(height) < U64_LIMIT
    {
      if height / HALVING_INTERVAL >= 64 {
        return Panic;
      }
      TotalRewardBound(height + 1);
      total := total + GetBlockReward(height);
    }
    return Ok(total);
  }

  lemma {:induction false} RewardsGrow(a: nat, b: nat)
    requires a <= b
    ensures RewardsBelow(a) <= RewardsBelow(b)
  {
    if a < b {
      RewardsGrow(a, b - 1);
    }
  }

  lemma {:induction false} ShiftShrinks(n: nat, a: nat, b: nat)
    requires a <= b
    ensures ShiftRight(n, b) <= ShiftRight(n, a)
  {
    if a < b {
      ShiftShrinks(n, a, b - 1);
    }
  }

  lemma RewardNonIncreasing(a: nat, b: nat)
    requires a <= b
    ensures GetBlockReward(b) <= GetBlockReward(a)
  {
    ShiftShrinks(INITIAL_REWARD, a / HALVING_INTERVAL, b / HALVING_INTERVAL);
  }

  lemma {:induction false} ShiftHalves(n: nat, k: nat)
    ensures ShiftRight(n, k + 1) == ShiftRight(n, k) / 2
  {
  }

  /** The schedule: ten billion at first, the same through an era, and half of it in the next, but one at least. */
  lemma RewardSchedule(height: nat, later: nat)
    ensures height < 1_000_000 ==> GetBlockReward(height) == 10_000_000_000
    ensures later / 1_000_000 == height / 1_000_000 ==> GetBlockReward(later) == GetBlockReward(height)
    ensures GetBlockReward(height + 1_000_000)
      == if GetBlockReward(height) >= 2 then GetBlockReward(height) / 2 else 1
  {
    var e := height / HALVING_INTERVAL;
    assert (height + HALVING_INTERVAL) / HALVING_INTERVAL == e + 1;
    ShiftHalves(INITIAL_REWARD, e);
  }

  /** The developers' part is two per cent, rounded down. */
  lemma DevFeeIs(reward: nat)
    ensures 50 * CalculateDevFee(reward) <= reward < 50 * CalculateDevFee(reward) + 50
  {
  }

  lemma RewardInEra(e: nat, m: nat)
    requires m < HALVING_INTERVAL
    ensures GetBlockReward(e * HALVING_INTERVAL + m) == EraReward(e)
  {
    assert (e * HALVING_INTERVAL + m) / HALVING_INTERVAL == e;
  }

  lemma {:induction false} SteadyRewards(start: nat, m: nat, reward: nat)
    requires forall h | start <= h < start + m :: GetBlockReward(h) == reward
    ensures RewardsBelow(start + m) == RewardsBelow(start) + m * reward
  {
    if m > 0 {
      SteadyRewards(start, m - 1, reward);
      Distribute(m, reward);
    }
  }

  lemma WithinEra(e: nat, m: nat)
    requires m <= HALVING_INTERVAL
    ensures RewardsBelow(e * HALVING_INTERVAL + m) == RewardsBelow(e * HALVING_INTERVAL) + m * EraReward(e)
  {
    var start := e * HALVING_INTERVAL;
    forall h | start <= h < start + m ensures GetBlockReward(h) == EraReward(e) {
      RewardInEra(e, h - start);
    }
    SteadyRewards(start, m, EraReward(e));
  }

  lemma {:induction false} FullEras(e: nat)
    ensures RewardsBelow(e * HALVING_INTERVAL) == HALVING_INTERVAL * EraSum(e)
  {
    if e > 0 {
      FullEras(e - 1);
      WithinEra(e - 1, HALVING_INTERVAL);
    }
  }

  /** The accumulating loop equals the era by era closed form: full eras, then the started one. */
  lemma {:induction false} TotalByEra(height: nat)
    ensures var e, m := height / HALVING_INTERVAL, height % HALVING_INTERVAL;
      RewardsBelow(height) == HALVING_INTERVAL * EraSum(e) + m * EraReward(e)
  {
    var e, m := height / HALVING_INTERVAL, height % HALVING_INTERVAL;
    assert height == e * HALVING_INTERVAL + m;
    FullEras(e);
    WithinEra(e, m);
  }

  lemma Distribute(m: nat, r: nat)
    requires m > 0
    ensures (m - 1) * r + r == m * r
  {
  }

  lemma {:induction false} EraSumBound(e: nat)
    ensures EraSum(e) + 2 * ShiftRight(INITIAL_REWARD, e) <= 2 * INITIAL_REWARD + e
  {
    if e > 0 {
      EraSumBound(e - 1);
    }
  }

  /** Everything ever minted stays below two full first eras plus one unit per block. */
  lemma TotalRewardBound(height: nat)
    ensures RewardsBelow(height) <= 2 * INITIAL_REWARD * HALVING_INTERVAL + height
    ensures height <= 64 * HALVING_INTERVAL ==> RewardsBelow(height) < U64_LIMIT
  {
    var e, m := height / HALVING_INTERVAL, height % HALVING_INTERVAL;
    TotalByEra(height);
    EraSumBound(e);
    var shifted := ShiftRight(INITIAL_REWARD, e);
    StartedEra(m, EraReward(e), shifted);
  }

  lemma StartedEra(m: nat, reward: nat, shifted: nat)
    requires m < HALVING_INTERVAL && reward <= shifted + 1
    ensures m * reward <= HALVING_INTERVAL * shifted + m
  {
    TimesMore(reward, shifted + 1, m);
    TimesMore(m, HALVING_INTERVAL, shifted);
    assert m * (shifted + 1) == m * shifted + m;
  }

  lemma TimesMore(a: nat, b: nat, k: nat)
    requires a <= b
    ensures a * k <= b * k
  {
  }
}
