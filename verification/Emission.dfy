/** The block subsidy schedules (consensus/rewards.go, params/mainnet_emission.go). */
module Emission {
  import opened Prelude
  import opened Params

  // Literals used below: 5_000_000_000 base units is the initial testnet reward of 50 coins, 1_000_000 the
  // halving interval, 131_490 the mainnet epoch length, 40 the number of epochs, 5_259_600 the last height
  // with a subsidy, and 100_000_000 the base units of one coin.

  /** Mainnet issuance per epoch, in whole coins. */
  function EpochCoins(epoch: nat): nat {
    match epoch
    case 0 => 2_101_200 case 1 => 2_060_400 case 2 => 2_019_600 case 3 => 1_978_800
    case 4 => 1_838_550 case 5 => 1_802_850 case 6 => 1_767_150 case 7 => 1_731_450
    case 8 => 1_707_225 case 9 => 1_674_075 case 10 => 1_640_925 case 11 => 1_607_775
    case 12 => 1_575_900 case 13 => 1_545_300 case 14 => 1_514_700 case 15 => 1_484_100
    case 16 => 1_444_575 case 17 => 1_416_525 case 18 => 1_388_475 case 19 => 1_360_425
    case 20 => 1_313_250 case 21 => 1_287_750 case 22 => 1_262_250 case 23 => 1_236_750
    case 24 => 1_050_600 case 25 => 1_030_200 case 26 => 1_009_800 case 27 => 989_400
    case 28 => 919_275 case 29 => 901_425 case 30 => 883_575 case 31 => 865_725
    case 32 => 656_625 case 33 => 643_875 case 34 => 631_125 case 35 => 618_375
    case 36 => 525_300 case 37 => 515_100 case 38 => 504_900 case _ => 494_700
  }

  type EpochTable = nat -> nat

  /** The subsidy every block of an epoch gets, and the number of its first blocks that get one unit more. */
  function EpochBase(coins: nat): nat {
    coins * 100_000_000 / 131_490
  }

  function EpochExtra(coins: nat): nat {
    coins * 100_000_000 % 131_490
  }

  function MainnetSubsidy(table: EpochTable, height: nat): nat {
    if height == 0 || height > 5_259_600 then 0
    else
      var coins := table((height - 1) / 131_490);
      if (height - 1) % 131_490 < EpochExtra(coins) then EpochBase(coins) + 1 else EpochBase(coins)
  }

  /** x >> n, one bit at a time. */
  function ShiftRight(x: nat, n: nat): (r: nat)
    ensures r <= x
  {
    if n == 0 then x else ShiftRight(x, n - 1) / 2
  }

  /** The initial reward shifted right by the number of halvings, with the cut-off at 64. */
  function Halved(halvings: nat): (r: nat)
    ensures r <= 5_000_000_000
  {
    if halvings >= 64 then 0 else ShiftRight(5_000_000_000, halvings)
  }

  function TestnetSubsidy(height: nat): nat {
    Halved(height / 1_000_000)
  }

  /** None is the error of an unknown policy. */
  function BlockSubsidy(policy: Policy, height: nat): Option<nat> {
    match policy
    case OtherPolicy(_) => None
    case TestnetPolicy => Some(TestnetSubsidy(height))
    case MainnetPolicy => Some(MainnetSubsidy(EpochCoins, height))
  }

  /** What the schedule pays for the blocks at heights 1..height. */
  function Scheduled(policy: Policy, height: nat): nat
    requires !policy.OtherPolicy?
  {
    if height == 0 then 0 else Scheduled(policy, height - 1) + BlockSubsidy(policy, height).value
  }

  function MainnetScheduled(table: EpochTable, height: nat): nat {
    if height == 0 then 0 else MainnetScheduled(table, height - 1) + MainnetSubsidy(table, height)
  }

  lemma {:induction false} ScheduledMainnet(height: nat)
    ensures Scheduled(MainnetPolicy, height) == MainnetScheduled(EpochCoins, height)
  {
    if height > 0 {
      ScheduledMainnet(height - 1);
    }
  }

  function CoinsIssued(table: EpochTable, epochs: nat): nat
    requires epochs <= 40
  {
    if epochs == 0 then 0 else CoinsIssued(table, epochs - 1) + table(epochs - 1)
  }

  /** What the first `blocks` blocks of an epoch pay, block by block. */
  function Paid(base: nat, extra: nat, blocks: nat): nat {
    if blocks == 0 then 0
    else Paid(base, extra, blocks - 1) + base + (if blocks - 1 < extra then 1 else 0)
  }

  lemma {:induction false} PaidClosedForm(base: nat, extra: nat, blocks: nat)
    ensures Paid(base, extra, blocks) == blocks * base + (if blocks < extra then blocks else extra)
  {
    if blocks > 0 {
      PaidClosedForm(base, extra, blocks - 1);
      assert blocks * base == (blocks - 1) * base + base;
    }
  }

  lemma EpochPaysItsEntry(coins: nat)
    ensures Paid(EpochBase(coins), EpochExtra(coins), 131_490) == coins * 100_000_000
  {
    PaidClosedForm(EpochBase(coins), EpochExtra(coins), 131_490);
  }

  lemma SubsidyInEpoch(table: EpochTable, epoch: nat, offset: nat)
    requires epoch < 40 && offset < 131_490
    ensures MainnetSubsidy(table, epoch * 131_490 + offset + 1)
            == EpochBase(table(epoch)) + (if offset < EpochExtra(table(epoch)) then 1 else 0)
  {
    var before := epoch * 131_490 + offset;
    assert before / 131_490 == epoch && before % 131_490 == offset;
  }

  /** Inside an epoch the schedule advances by what the epoch's blocks pay. */
  lemma {:induction false} WithinEpoch(table: EpochTable, epoch: nat, start: nat, base: nat, extra: nat, blocks: nat)
    requires epoch < 40 && blocks <= 131_490
    requires start == epoch * 131_490
    requires base == EpochBase(table(epoch)) && extra == EpochExtra(table(epoch))
    ensures MainnetScheduled(table, start + blocks) == MainnetScheduled(table, start) + Paid(base, extra, blocks)
  {
    if blocks > 0 {
      WithinEpoch(table, epoch, start, base, extra, blocks - 1);
      SubsidyInEpoch(table, epoch, blocks - 1);
    }
  }

  lemma EpochDifference(table: EpochTable, epoch: nat, start: nat)
    requires epoch < 40 && start == epoch * 131_490
    ensures MainnetScheduled(table, start + 131_490) == MainnetScheduled(table, start) + table(epoch) * 100_000_000
  {
    var coins := table(epoch);
    WithinEpoch(table, epoch, start, EpochBase(coins), EpochExtra(coins), 131_490);
    EpochPaysItsEntry(coins);
  }

  /** At the start of an epoch exactly the earlier table entries have been paid. */
  lemma {:induction false} MainnetByEpochs(table: EpochTable, epoch: nat, start: nat)
    requires epoch <= 40 && start == epoch * 131_490
    ensures MainnetScheduled(table, start) == CoinsIssued(table, epoch) * 100_000_000
    decreases epoch
  {
    if epoch > 0 {
      MainnetByEpochs(table, epoch - 1, start - 131_490);
      EpochDifference(table, epoch - 1, start - 131_490);
    }
  }

  /** Every full mainnet epoch pays exactly its table entry. */
  lemma MainnetEpochPaysItsEntry(epoch: nat)
    requires epoch < 40
    ensures Scheduled(MainnetPolicy, (epoch + 1) * 131_490)
            == Scheduled(MainnetPolicy, epoch * 131_490) + EpochCoins(epoch) * 100_000_000
  {
    var start := epoch * 131_490;
    ScheduledMainnet(start);
    ScheduledMainnet(start + 131_490);
    EpochDifference(EpochCoins, epoch, start);
    assert (epoch + 1) * 131_490 == start + 131_490;
  }

  lemma {:induction false} ScheduleEnds(table: EpochTable, height: nat)
    requires height >= 5_259_600
    ensures MainnetScheduled(table, height) == CoinsIssued(table, 40) * 100_000_000
  {
    if height == 5_259_600 {
      MainnetByEpochs(table, 40, 5_259_600);
    } else {
      ScheduleEnds(table, height - 1);
    }
  }

  lemma {:induction false} ScheduleMonotone(table: EpochTable, low: nat, high: nat)
    requires low <= high
    ensures MainnetScheduled(table, low) <= MainnetScheduled(table, high)
    decreases high - low
  {
    if low < high {
      ScheduleMonotone(table, low, high - 1);
    }
  }

  lemma EpochTableTotal()
    ensures CoinsIssued(EpochCoins, 40) == 51_000_000
  {
    assert CoinsIssued(EpochCoins, 2) == 4_161_600;
    assert CoinsIssued(EpochCoins, 4) == 8_160_000;
    assert CoinsIssued(EpochCoins, 6) == 11_801_400;
    assert CoinsIssued(EpochCoins, 8) == 15_300_000;
    assert CoinsIssued(EpochCoins, 10) == 18_681_300;
    assert CoinsIssued(EpochCoins, 12) == 21_930_000;
    assert CoinsIssued(EpochCoins, 14) == 25_051_200;
    assert CoinsIssued(EpochCoins, 16) == 28_050_000;
    assert CoinsIssued(EpochCoins, 18) == 30_911_100;
    assert CoinsIssued(EpochCoins, 20) == 33_660_000;
    assert CoinsIssued(EpochCoins, 22) == 36_261_000;
    assert CoinsIssued(EpochCoins, 24) == 38_760_000;
    assert CoinsIssued(EpochCoins, 26) == 40_840_800;
    assert CoinsIssued(EpochCoins, 28) == 42_840_000;
    assert CoinsIssued(EpochCoins, 30) == 44_660_700;
    assert CoinsIssued(EpochCoins, 32) == 46_410_000;
    assert CoinsIssued(EpochCoins, 34) == 47_710_500;
    assert CoinsIssued(EpochCoins, 36) == 48_960_000;
    assert CoinsIssued(EpochCoins, 38) == 50_000_400;
  }

  /** Mainnet has issued exactly 51,000,000 coins at height 5,259,600, never more before, and nothing after. */
  lemma MainnetTotal(height: nat)
    ensures height >= 5_259_600 ==> Scheduled(MainnetPolicy, height) == 51_000_000 * 100_000_000
    ensures Scheduled(MainnetPolicy, height) <= 51_000_000 * 100_000_000
  {
    EpochTableTotal();
    ScheduledMainnet(height);
    if height < 5_259_600 {
      ScheduleMonotone(EpochCoins, height, 5_259_600);
      ScheduleEnds(EpochCoins, 5_259_600);
    } else {
      ScheduleEnds(EpochCoins, height);
    }
  }

  /** The annual targets in percent of the cap. */
  function AnnualPercent(year: nat): nat {
    match year
    case 0 => 16 case 1 => 14 case 2 => 13 case 3 => 12 case 4 => 11
    case 5 => 10 case 6 => 8 case 7 => 7 case 8 => 5 case _ => 4
  }

  /** The multiplier of a quarter, in percent of a fourth of the year. */
  function QuarterPercent(quarter: nat): nat {
    match quarter
    case 0 => 103 case 1 => 101 case 2 => 99 case _ => 97
  }

  /** Every entry of the table is its quarter's part of its year's part of 51,000,000 coins. */
  lemma TableFollowsTargets(year: nat, quarter: nat)
    requires year < 10 && quarter < 4
    ensures EpochCoins(4 * year + quarter) * 40_000 == 51_000_000 * AnnualPercent(year) * QuarterPercent(quarter)
  {
  }

  /** Within an epoch no block gets more than one base unit more than another, and earlier ones never less. */
  lemma EpochIsEven(low: nat, high: nat)
    requires 1 <= low <= high <= 5_259_600 && (low - 1) / 131_490 == (high - 1) / 131_490
    ensures BlockSubsidy(MainnetPolicy, high).value <= BlockSubsidy(MainnetPolicy, low).value
            <= BlockSubsidy(MainnetPolicy, high).value + 1
  {
    hide EpochCoins, EpochBase, EpochExtra;
  }

  /** The testnet pays 50 coins in its first million heights and half as much in each following million. */
  lemma TestnetHalves(height: nat)
    ensures height < 1_000_000 ==> BlockSubsidy(TestnetPolicy, height) == Some(50 * 100_000_000)
    ensures BlockSubsidy(TestnetPolicy, height + 1_000_000).value == BlockSubsidy(TestnetPolicy, height).value / 2
  {
    assert (height + 1_000_000) / 1_000_000 == height / 1_000_000 + 1;
    HalvedStep(height / 1_000_000);
  }

  lemma HalvedStep(halvings: nat)
    ensures Halved(halvings + 1) == Halved(halvings) / 2
  {
    if halvings + 1 == 64 {
      ShiftedOut();
    }
  }

  lemma ShiftedOut()
    ensures ShiftRight(5_000_000_000, 63) / 2 == 0
  {
    assert ShiftRight(5_000_000_000, 8) == 19_531_250;
    assert ShiftRight(5_000_000_000, 16) == 76_293;
    assert ShiftRight(5_000_000_000, 24) == 298;
    assert ShiftRight(5_000_000_000, 33) == 0;
    ShiftOfNothing(33, 30);
  }

  lemma {:induction false} ShiftOfNothing(n: nat, k: nat)
    requires ShiftRight(5_000_000_000, n) == 0
    ensures ShiftRight(5_000_000_000, n + k) == 0
  {
    if k > 0 {
      ShiftOfNothing(n, k - 1);
    }
  }

  ghost predicate FallsAt(table: EpochTable, epoch: nat) {
    epoch + 1 < 40 ==> table(epoch + 1) < table(epoch)
  }

  ghost predicate Falling(table: EpochTable) {
    forall e :: 0 <= e < 40 ==> FallsAt(table, e)
  }

  lemma SubsidyStepsDown(table: EpochTable, height: nat)
    requires Falling(table) && height >= 1
    ensures MainnetSubsidy(table, height + 1) <= MainnetSubsidy(table, height)
  {
    if height + 1 <= 5_259_600 {
      var e, o := (height - 1) / 131_490, (height - 1) % 131_490;
      if o + 1 < 131_490 {
        assert height / 131_490 == e && height % 131_490 == o + 1;
      } else {
        assert height / 131_490 == e + 1;
        assert FallsAt(table, e);
      }
    }
  }

  lemma {:induction false} SubsidyNeverRises(table: EpochTable, low: nat, high: nat)
    requires Falling(table) && 1 <= low <= high
    ensures MainnetSubsidy(table, high) <= MainnetSubsidy(table, low)
    decreases high - low
  {
    if low < high {
      SubsidyNeverRises(table, low, high - 1);
      SubsidyStepsDown(table, high - 1);
    }
  }

  /** The mainnet subsidy never rises from height 1 on. */
  lemma {:induction false} MainnetSubsidyNeverRises(low: nat, high: nat)
    requires 1 <= low <= high
    ensures BlockSubsidy(MainnetPolicy, high).value <= BlockSubsidy(MainnetPolicy, low).value
  {
    EpochTableFalls();
    SubsidyNeverRises(EpochCoins, low, high);
  }

  lemma EpochTableFalls()
    ensures Falling(EpochCoins)
  {
  }

  lemma HalvingHalves(halvings: nat)
    ensures 2 * Halved(halvings + 1) <= Halved(halvings)
  {
  }

  /** A bound on the testnet schedule after `r` blocks of the halving period `q`. */
  function TestnetCeiling(q: nat, r: nat): int {
    1_000_000 * (10_000_000_000 - 2 * Halved(q)) + (r + 1) * Halved(q)
  }

  lemma TestnetCeilingStep(q: nat, r: nat)
    ensures TestnetCeiling(q, r + 1) == TestnetCeiling(q, r) + Halved(q)
    ensures TestnetCeiling(q, 999_999) + Halved(q + 1) <= TestnetCeiling(q + 1, 0)
  {
    HalvingHalves(q);
    hide Halved;
    assert (r + 1 + 1) * Halved(q) == (r + 1) * Halved(q) + Halved(q);
  }

  /** The testnet halving series stays below its ceiling at every height. */
  lemma {:induction false} TestnetBound(height: nat)
    ensures Scheduled(TestnetPolicy, height) <= TestnetCeiling(height / 1_000_000, height % 1_000_000)
  {
    if height == 0 {
      assert TestnetCeiling(0, 0) >= 0;
      return;
    }
    hide Halved, TestnetCeiling;
    if height > 0 {
      TestnetBound(height - 1);
      var q, r := (height - 1) / 1_000_000, (height - 1) % 1_000_000;
      TestnetCeilingStep(q, r);
      if r + 1 < 1_000_000 {
        assert height / 1_000_000 == q && height % 1_000_000 == r + 1;
      } else {
        assert height / 1_000_000 == q + 1 && height % 1_000_000 == 0;
      }
    }
  }

  lemma TestnetTotal(height: nat)
    ensures Scheduled(TestnetPolicy, height) <= MAX_SUPPLY
  {
    TestnetBound(height);
    var q, r := height / 1_000_000, height % 1_000_000;
    MulMonotone(r + 1, 1_000_000, Halved(q));
  }

  /** Both schedules stay within their hard caps of 51 billion and 51 million coins at every height. */
  lemma ScheduleWithinCap(policy: Policy, height: nat)
    requires !policy.OtherPolicy?
    ensures Scheduled(policy, height) <= MaxSupplyFor(policy)
    ensures MaxSupplyFor(policy) == (if policy.MainnetPolicy? then 51_000_000 else 51_000_000_000) * 100_000_000
  {
    if policy.MainnetPolicy? {
      MainnetTotal(height);
    } else {
      TestnetTotal(height);
    }
  }
}
