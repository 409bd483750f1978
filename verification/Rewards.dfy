/** Issuance and the split of fees between producer and treasury. */
module Rewards {

  const INITIAL_REWARD := 50
  const HALVING_INTERVAL := 100_000
  const MIN_REWARD := 1
  const FEE_SPLIT_FORK_HEIGHT := 1279
  const PRODUCER_FEE_BPS := 9000
  const TREASURY_ADDR := "TREASURY_BLACKCHAIN"

  function ShiftRight(x: nat, n: nat): nat
    decreases n
  {
    if n == 0 then x else ShiftRight(x / 2, n - 1)
  }

  function BlockRewardForHeight(h: int): (r: nat)
    ensures h >= 1 ==> r >= 1
  {
    if h <= 0 then 0
    else
      var era := (h - 1) / HALVING_INTERVAL;
      if era >= 62 then MIN_REWARD
      else
        var reward := ShiftRight(INITIAL_REWARD, era);
        if reward < MIN_REWARD then MIN_REWARD else reward
  }

  predicate FeeSplitActive(height: int)
  {
    height >= FEE_SPLIT_FORK_HEIGHT
  }

  function ProducerFees(total: int): int
  {
    if total <= 0 then 0 else total * PRODUCER_FEE_BPS / 10000
  }

  function TreasuryFees(total: int): int
  {
    if total <= 0 then 0 else total - ProducerFees(total)
  }

  function ExpectedReward(height: int, fees: int): int
  {
    BlockRewardForHeight(height) + if FeeSplitActive(height) then ProducerFees(fees) else fees
  }

  function Ceil(n: nat, d: nat): nat
    requires d > 0
  {
    (n + d - 1) / d
  }

  /** What block application credits to the treasury beyond what the header commits to: it passes
      twice the fees of the block to the split. */
  function Surplus(height: int, fees: int): int
  {
    if FeeSplitActive(height) && fees > 0 then Ceil(fees, 5) - Ceil(fees, 10) else 0
  }

  /** The shares add up; the treasury part is a ceiling, and nothing is split of nothing. */
  lemma SplitFeesExact(fees: int)
    ensures fees >= 0 ==>
      && ProducerFees(fees) + TreasuryFees(fees) == fees && ProducerFees(fees) >= 0
      && TreasuryFees(fees) == Ceil(fees, 10) && TreasuryFees(2 * fees) == Ceil(fees, 5)
    ensures fees <= 0 ==> ProducerFees(fees) == TreasuryFees(fees) == 0
  {
  }

  lemma SurplusZero(height: int, fees: nat)
    ensures Surplus(height, fees) >= 0
    ensures Surplus(height, fees) == 0 <==> height < FEE_SPLIT_FORK_HEIGHT || fees <= 5
  {
  }

  // ----- the issuance schedule

  function RewardSum(h: nat): nat
  {
    if h == 0 then 0 else RewardSum(h - 1) + BlockRewardForHeight(h)
  }

  /** The schedule in closed form: 50, 25, 12, 6 and 3 for a hundred thousand blocks each, then 1. */
  function Issued(h: nat): nat
  {
    if h <= 100_000 then 50 * h
    else if h <= 200_000 then 5_000_000 + 25 * (h - 100_000)
    else if h <= 300_000 then 7_500_000 + 12 * (h - 200_000)
    else if h <= 400_000 then 8_700_000 + 6 * (h - 300_000)
    else if h <= 500_000 then 9_300_000 + 3 * (h - 400_000)
    else 9_100_000 + h
  }

  lemma {:induction false} ShiftOut(x: nat, n: nat)
    requires n >= 6 && x < 64
    ensures ShiftRight(x, n) == 0
    decreases n
  {
    if n == 6 {
      assert ShiftRight(x / 2 / 2, 4) == ShiftRight(x / 2 / 2 / 2 / 2, 2);
    } else {
      ShiftOut(x / 2, n - 1);
    }
  }

  lemma RewardByEra(h: nat)
    requires h >= 1
    ensures var era := (h - 1) / 100_000;
      BlockRewardForHeight(h) ==
        (if era == 0 then 50 else if era == 1 then 25 else if era == 2 then 12
         else if era == 3 then 6 else if era == 4 then 3 else 1)
  {
    var era := (h - 1) / 100_000;
    if era >= 6 {
      ShiftOut(50, era);
    } else {
      assert ShiftRight(50, 0) == 50 && ShiftRight(50, 1) == 25;
      assert ShiftRight(50, 2) == ShiftRight(25, 1) == 12;
      assert ShiftRight(50, 3) == ShiftRight(25, 2) == ShiftRight(12, 1) == 6;
      assert ShiftRight(50, 4) == ShiftRight(25, 3) == ShiftRight(12, 2) == ShiftRight(6, 1) == 3;
      assert ShiftRight(50, 5) == ShiftRight(25, 4) == ShiftRight(12, 3) == ShiftRight(6, 2) == 1;
    }
  }

  lemma {:induction false} RewardSumIsIssued(h: nat)
    ensures RewardSum(h) == Issued(h)
  {
    if h > 0 {
      RewardSumIsIssued(h - 1);
      RewardByEra(h);
    }
  }

  /** Issuance never exceeds 9,100,000 plus one coin a block, and meets that line from 500,000 on. */
  lemma IssuanceBound(h: nat)
    ensures RewardSum(h) <= 9_100_000 + h
    ensures RewardSum(h) == 9_100_000 + h <==> h >= 500_000
  {
    RewardSumIsIssued(h);
  }
}
