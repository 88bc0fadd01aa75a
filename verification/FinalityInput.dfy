/**
 Why finality is promised for one reorganization at a time: a run of two reorganizations that replaces a block which was
 finalized at its start. The first one adopts a shorter chain with more work, so the finalized height falls.
 */
module FinalityInput {
  import opened Prelude
  import opened Params
  import opened Transactions
  import opened Ledgers
  import opened Conservation
  import opened Blocks
  import opened Merkle
  import opened Work
  import opened Difficulty
  import opened Chains
  import opened Replaying
  import opened Reorgs
  import opened Pools
  import opened PoolBlocks
  import opened Rebuild
  import opened NodeRuns

  /** A public testnet node whose verifier accepts some nonce for every header of Version 1. */
  ghost predicate Minable(c: Context) {
    && c.config.network == PublicTestnet && c.config.activation == MAX_U64 && c.config.verifier.supports(1)
    && forall b: Block :: b.version == 1 ==> exists n: u64 :: c.config.verifier.accepts(b.(nonce := n))
  }

  const GENESIS := GenesisBlock(PublicTestnet).value

  // ----- chains of empty blocks at a fixed pace

  function Template(c: Context, blocks: seq<Block>, interval: nat): Block
    requires 0 < |blocks| <= 1000
  {
    var last := blocks[|blocks| - 1];
    Block(1, |blocks|, last.timestamp + interval, BlockHash(c.sha, last), MerkleRoot(c.sha, []),
          NextFromHistory(last.difficulty, RecentIntervals(blocks)), 0, "miner", [])
  }

  /** The template with a nonce that the verifier accepts, if there is one. */
  ghost function Next(c: Context, blocks: seq<Block>, interval: nat): Block
    requires 0 < |blocks| <= 1000
  {
    var template := Template(c, blocks, interval);
    if n: u64 :| c.config.verifier.accepts(template.(nonce := n)) then template.(nonce := n) else template
  }

  lemma NextFields(c: Context, blocks: seq<Block>, interval: nat)
    requires 0 < |blocks| <= 1000
    ensures var b, last := Next(c, blocks, interval), blocks[|blocks| - 1];
            && b.height == |blocks| && b.timestamp == last.timestamp + interval && b.miner == "miner" && b.txs == []
            && b.difficulty == NextFromHistory(last.difficulty, RecentIntervals(blocks))
  {
    hide NextFromHistory, RecentIntervals, MerkleRoot, BlockHash;
  }

  ghost function Grow(c: Context, blocks: seq<Block>, n: nat, interval: nat): (grown: seq<Block>)
    requires blocks != [] && |blocks| + n <= 1000
    ensures |grown| == |blocks| + n && blocks <= grown
  {
    if n == 0 then blocks
    else
      var before := Grow(c, blocks, n - 1, interval);
      before + [Next(c, before, interval)]
  }

  /** A valid chain of empty blocks on the genesis block, which replays. */
  ghost predicate Good(c: Context, blocks: seq<Block>) {
    && Minable(c) && blocks != [] && ValidChain(c.sha, c.config, blocks) && HeightsCount(blocks) && blocks[0] == GENESIS
    && Replay(c.check, TestnetPolicy, blocks).Ok?
    && forall i :: 0 <= i < |blocks| ==> blocks[i].txs == []
  }

  lemma GenesisGood(c: Context)
    requires Minable(c)
    ensures Good(c, [GENESIS])
  {
    hide BlockHash;
  }

  lemma NextExtends(c: Context, blocks: seq<Block>, interval: nat)
    requires Minable(c) && 0 < |blocks| <= 1000 && blocks[|blocks| - 1].height == |blocks| - 1 && interval > 0
    ensures Extends(c.sha, c.config, blocks, Next(c, blocks, interval))
  {
    hide BlockHash, MerkleRoot, NextFromHistory, RecentIntervals;
    var template := Template(c, blocks, interval);
    assert exists n: u64 :: c.config.verifier.accepts(template.(nonce := n));
  }

  lemma NextGood(c: Context, blocks: seq<Block>, interval: nat)
    requires Good(c, blocks) && |blocks| < 1000 && interval > 0
    ensures Good(c, blocks + [Next(c, blocks, interval)])
  {
    hide Extends, ProcessBlock, ValidChain, Backed, NextFromHistory, BlockHash, MerkleRoot, Next, Minable;
    NextFields(c, blocks, interval);
    var b, all := Next(c, blocks, interval), blocks + [Next(c, blocks, interval)];
    NextExtends(c, blocks, interval);
    AppendValid(c.sha, c.config, blocks, b);
    ReplayIsBacked(c.check, TestnetPolicy, blocks);
    var l := Replay(c.check, TestnetPolicy, blocks).value;
    ProcessBlockConserves(c.check, l, TestnetPolicy, b.height, [], "miner");
    assert all[..|all| - 1] == blocks;
  }

  lemma {:induction false} GrowGood(c: Context, blocks: seq<Block>, n: nat, interval: nat)
    requires Good(c, blocks) && blocks != [] && |blocks| + n <= 1000 && interval > 0
    ensures Good(c, Grow(c, blocks, n, interval))
  {
    hide Good, Next;
    if n > 0 {
      GrowGood(c, blocks, n - 1, interval);
      NextGood(c, Grow(c, blocks, n - 1, interval), interval);
    }
  }

  lemma GoodRises(c: Context, blocks: seq<Block>, i: nat)
    requires Good(c, blocks) && i < |blocks|
    ensures RisesAt(blocks, i) && blocks[i].difficulty >= 1
  {
    hide Extends, GenesisFault, Replay, BlockHash;
    ChainShape(c.sha, c.config, blocks, i);
  }

  // ----- pace and difficulty

  ghost predicate PaceAt(blocks: seq<Block>, i: nat, low: int, high: int) {
    0 < i < |blocks| ==> low <= blocks[i].timestamp - blocks[i - 1].timestamp <= high
  }

  lemma {:induction false} GrowPace(c: Context, blocks: seq<Block>, n: nat, interval: nat, i: nat)
    requires blocks != [] && |blocks| + n <= 1000 && |blocks| <= i
    ensures PaceAt(Grow(c, blocks, n, interval), i, interval, interval)
  {
    hide NextFromHistory, RecentIntervals, Next;
    if n > 0 {
      var before := Grow(c, blocks, n - 1, interval);
      NextFields(c, before, interval);
      GrowPace(c, blocks, n - 1, interval, i);
      assert i < |before| ==> PaceAt(before, i, interval, interval);
    }
  }

  lemma {:induction false} IntervalsAt(blocks: seq<Block>, start: nat, end: nat, k: nat)
    requires 1 <= start <= end <= |blocks| && k < end - start
    requires forall i :: 0 <= i < |blocks| ==> RisesAt(blocks, i)
    ensures |IntervalsFrom(blocks, start, end)| == end - start
    ensures IntervalsFrom(blocks, start, end)[k] == blocks[start + k].timestamp - blocks[start + k - 1].timestamp
  {
    IntervalsKeepAll(blocks, start, end);
    assert RisesAt(blocks, end - 1);
    IntervalsKeepAll(blocks, start, end - 1);
    if k < end - 1 - start {
      IntervalsAt(blocks, start, end - 1, k);
    }
  }

  /** The k-th recent interval of a rising chain, counted from the oldest. */
  lemma RecentAt(blocks: seq<Block>, k: nat)
    requires blocks != [] && forall i :: 0 <= i < |blocks| ==> RisesAt(blocks, i)
    requires k < |RecentIntervals(blocks)|
    ensures var r := RecentIntervals(blocks);
            && |r| == (if |blocks| - 1 > DIFFICULTY_WINDOW then DIFFICULTY_WINDOW else |blocks| - 1)
            && r[k] == blocks[|blocks| - |r| + k].timestamp - blocks[|blocks| - |r| + k - 1].timestamp
  {
    hide IntervalsFrom, RisesAt;
    RecentKeepAll(blocks);
    var count := if |blocks| - 1 > DIFFICULTY_WINDOW then DIFFICULTY_WINDOW else |blocks| - 1;
    IntervalsAt(blocks, |blocks| - count, |blocks|, k);
  }

  /** At normal pace the difficulty stays. */
  lemma NormalPaceKeeps(blocks: seq<Block>, d: u32)
    requires blocks != [] && d >= 1 && forall i :: 0 <= i < |blocks| ==> RisesAt(blocks, i)
    requires forall i :: 0 < i < |blocks| ==> PaceAt(blocks, i, 30, 120)
    ensures NextFromHistory(d, RecentIntervals(blocks)) == d
  {
    hide RecentIntervals, Median, Count, RisesAt;
    var r := RecentIntervals(blocks);
    MedianIsMiddle(r);
    RecentKeepAll(blocks);
    if r != [] {
      var k :| 0 <= k < |r| && r[k] == Median(r);
      RecentAt(blocks, k);
      assert PaceAt(blocks, |blocks| - |r| + k, 30, 120);
    }
  }

  lemma CountMost(s: seq<int>, p: int -> bool)
    requires forall i :: 1 <= i < |s| ==> p(s[i])
    ensures Count(s, p) >= |s| - 1
  {
    if s != [] {
      CountAll(s[1..], p);
    }
  }

  lemma {:induction false} CountAll(s: seq<int>, p: int -> bool)
    requires forall i :: 0 <= i < |s| ==> p(s[i])
    ensures Count(s, p) == |s|
  {
    if s != [] {
      CountAll(s[1..], p);
    }
  }

  /** Once blocks after the first are fast, and the first is fast or outvoted, the median is fast. */
  lemma FastMedian(blocks: seq<Block>)
    requires |blocks| >= 2 && forall i :: 0 <= i < |blocks| ==> RisesAt(blocks, i)
    requires forall i :: 2 <= i < |blocks| ==> PaceAt(blocks, i, 1, 29)
    requires PaceAt(blocks, 1, 1, 29) || |blocks| >= 4
    ensures Median(RecentIntervals(blocks)) < 30
  {
    hide RecentIntervals, Median, Count, RisesAt, Positive;
    var r := RecentIntervals(blocks);
    RecentKeepAll(blocks);
    MedianIsMiddle(r);
    var m := Median(r);
    forall k | 0 <= k < |r| && (k >= 1 || |blocks| < 4) ensures r[k] < 30 {
      RecentIsFast(blocks, k);
    }
    if m >= 30 {
      CountMost(r, x => x < m);
    }
  }

  lemma RecentIsFast(blocks: seq<Block>, k: nat)
    requires |blocks| >= 2 && forall i :: 0 <= i < |blocks| ==> RisesAt(blocks, i)
    requires forall i :: 2 <= i < |blocks| ==> PaceAt(blocks, i, 1, 29)
    requires PaceAt(blocks, 1, 1, 29) || |blocks| >= 4
    requires k < |RecentIntervals(blocks)| && (k >= 1 || |blocks| < 4)
    ensures RecentIntervals(blocks)[k] < 30
  {
    hide RecentIntervals, RisesAt;
    RecentAt(blocks, k);
    assert PaceAt(blocks, |blocks| - |RecentIntervals(blocks)| + k, 1, 29);
  }

  lemma FastPaceRises(blocks: seq<Block>, d: u32)
    requires |blocks| >= 2 && d >= 1 && forall i :: 0 <= i < |blocks| ==> RisesAt(blocks, i)
    requires forall i :: 2 <= i < |blocks| ==> PaceAt(blocks, i, 1, 29)
    requires PaceAt(blocks, 1, 1, 29) || |blocks| >= 4
    ensures NextFromHistory(d, RecentIntervals(blocks)) == NextDifficulty(d, 1)
    ensures NextDifficulty(d, 1) > d || NextDifficulty(d, 1) == MAX_U32
  {
    hide RecentIntervals, Median, RisesAt, PaceAt;
    FastMedian(blocks);
  }

  // ----- three chains

  /** One minute between blocks. */
  ghost function Slow(c: Context, n: nat): seq<Block>
    requires n < 1000
  {
    Grow(c, [GENESIS], n, 60)
  }

  /** The first slow block, then one second between blocks. */
  ghost function Fork(c: Context, n: nat): seq<Block>
    requires n < 998
  {
    Grow(c, Slow(c, 1), n, 1)
  }

  /** One second between blocks from the genesis block on. */
  ghost function Fast(c: Context, n: nat): seq<Block>
    requires n < 1000
  {
    Grow(c, [GENESIS], n, 1)
  }

  lemma {:induction false} GrowPrefix(c: Context, blocks: seq<Block>, n: nat, m: nat, interval: nat)
    requires blocks != [] && m <= n && |blocks| + n <= 1000
    ensures Grow(c, blocks, n, interval)[..|blocks| + m] == Grow(c, blocks, m, interval)
  {
    hide Next;
    if m < n {
      GrowPrefix(c, blocks, n - 1, m, interval);
    }
  }

  lemma AllGood(c: Context, slow: nat, fork: nat, fast: nat)
    requires Minable(c) && slow < 1000 && fork < 998 && fast < 1000
    ensures Good(c, Slow(c, slow)) && Good(c, Fork(c, fork)) && Good(c, Fast(c, fast))
  {
    hide Good;
    GenesisGood(c);
    GrowGood(c, [GENESIS], slow, 60);
    GrowGood(c, [GENESIS], 1, 60);
    GrowGood(c, Slow(c, 1), fork, 1);
    GrowGood(c, [GENESIS], fast, 1);
  }

  lemma WorkOfOne()
    ensures BlockWork(1) == 1
  {
    WorkExactly(1);
  }

  lemma {:induction false} SlowWork(c: Context, n: nat)
    requires Minable(c) && n < 1000
    ensures WorkSum(Slow(c, n)) == n + 1 && Slow(c, n)[n].difficulty == 1
  {
    hide BlockWork, Good, NextFromHistory, RecentIntervals, Next, Minable;
    WorkOfOne();
    var blocks := Slow(c, n);
    if n == 0 {
      assert blocks[..0] == [];
    } else {
      var before := Slow(c, n - 1);
      NextFields(c, before, 60);
      SlowWork(c, n - 1);
      AllGood(c, n - 1, 0, 0);
      forall i | 0 <= i < |before| ensures RisesAt(before, i) && PaceAt(before, i, 30, 120) {
        GoodRises(c, before, i);
        if i > 0 {
          GrowPace(c, [GENESIS], n - 1, 60, i);
        }
      }
      NormalPaceKeeps(before, 1);
      assert blocks[..n] == before;
    }
  }

  /** Every block of a good chain is worth at least one unit. */
  lemma {:induction false} WorkAtLeastCount(c: Context, blocks: seq<Block>, n: nat)
    requires Good(c, blocks) && n <= |blocks|
    ensures WorkSum(blocks[..n]) >= n
  {
    hide BlockWork, Good;
    if n > 0 {
      WorkAtLeastCount(c, blocks, n - 1);
      GoodRises(c, blocks, n - 1);
      WorkExactly(blocks[n - 1].difficulty);
      assert blocks[..n][..n - 1] == blocks[..n - 1];
    }
  }

  lemma ForkStep(c: Context, n: nat)
    requires Minable(c) && 3 <= n < 998
    ensures var d, d' := Fork(c, n - 1)[n].difficulty, Fork(c, n)[n + 1].difficulty; d' > d || d' == MAX_U32
  {
    hide Good, NextFromHistory, RecentIntervals, NextDifficulty, Next, Minable;
    var before := Fork(c, n - 1);
    NextFields(c, before, 1);
    AllGood(c, 0, n - 1, 0);
    forall i | 0 <= i < |before| ensures RisesAt(before, i) && (i >= 2 ==> PaceAt(before, i, 1, 29)) {
      GoodRises(c, before, i);
      if i >= 2 {
        GrowPace(c, Slow(c, 1), n - 1, 1, i);
      }
    }
    GoodRises(c, before, n);
    FastPaceRises(before, before[n].difficulty);
  }

  /** The work of the fork grows with the square of its length. */
  lemma {:induction false} ForkWork(c: Context, n: nat)
    requires Minable(c) && 2 <= n < 998
    ensures Fork(c, n)[n + 1].difficulty >= n - 1 && 2 * WorkSum(Fork(c, n)) >= 8 + (n - 2) * (n - 1)
  {
    hide BlockWork, Good, Next, Minable;
    var blocks := Fork(c, n);
    AllGood(c, 0, n, 0);
    GoodRises(c, blocks, n + 1);
    if n == 2 {
      WorkAtLeastCount(c, blocks, 4);
      assert blocks[..4] == blocks;
    } else {
      ForkWork(c, n - 1);
      ForkStep(c, n);
      WorkExactly(blocks[n + 1].difficulty);
      assert blocks[..n + 1] == Fork(c, n - 1);
      assert (n - 2) * (n - 1) == (n - 3) * (n - 2) + 2 * (n - 2);
    }
  }

  lemma FasterIsHarder(d: u32, d': u32, interval: int)
    requires 1 <= d <= d'
    ensures NextDifficulty(d, interval) <= NextDifficulty(d', 1)
  {
  }

  lemma GoodDifficulty(c: Context, blocks: seq<Block>, k: nat)
    requires Good(c, blocks) && 0 < k < |blocks|
    ensures blocks[k].difficulty == NextFromHistory(blocks[k - 1].difficulty, RecentIntervals(blocks[..k]))
  {
    hide Replay, MerkleRoot, BlockHash, RecentIntervals, NextFromHistory, ValidTransactions, VersionAllowed, GenesisFault;
    assert Extends(c.sha, c.config, blocks[..k], blocks[k]);
  }

  lemma FastStep(c: Context, k: nat)
    requires Minable(c) && 2 <= k < 1000
    ensures Fast(c, k)[k].difficulty == NextDifficulty(Fast(c, k - 1)[k - 1].difficulty, 1)
    ensures Fast(c, k - 1)[k - 1].difficulty >= 1
  {
    hide Good, NextFromHistory, RecentIntervals, NextDifficulty, Next, Minable;
    var before := Fast(c, k - 1);
    NextFields(c, before, 1);
    AllGood(c, 0, 0, k - 1);
    forall i | 0 <= i < |before| ensures RisesAt(before, i) && PaceAt(before, i, 1, 29) {
      GoodRises(c, before, i);
      if i > 0 {
        GrowPace(c, [GENESIS], k - 1, 1, i);
      }
    }
    GoodRises(c, before, k - 1);
    FastPaceRises(before, before[k - 1].difficulty);
  }

  /** No good chain is harder at any height than the fast one. */
  lemma {:induction false} FastDominates(c: Context, blocks: seq<Block>, k: nat)
    requires Minable(c) && Good(c, blocks) && k < |blocks| && k < 1000
    ensures blocks[k].difficulty <= Fast(c, k)[k].difficulty
  {
    hide Good, RecentIntervals, NextDifficulty, Median, Next, Minable;
    GoodHasReplay(c, blocks);
    if k == 1 {
      NextFields(c, [GENESIS], 1);
      GoodDifficulty(c, blocks, 1);
      assert blocks[..1] == [GENESIS] == Grow(c, [GENESIS], 0, 1);
      assert Fast(c, 1) == [GENESIS] + [Next(c, [GENESIS], 1)];
    } else if k > 1 {
      FastDominates(c, blocks, k - 1);
      GoodDifficulty(c, blocks, k);
      GoodRises(c, blocks, k - 1);
      FastStep(c, k);
      FasterIsHarder(blocks[k - 1].difficulty, Fast(c, k - 1)[k - 1].difficulty, Median(RecentIntervals(blocks[..k])));
    }
  }

  /** The fast chain of as many blocks has at least as much work. */
  lemma {:induction false} FastWork(c: Context, blocks: seq<Block>, n: nat)
    requires Minable(c) && Good(c, blocks) && n < |blocks| && n < 1000
    ensures WorkSum(blocks[..n + 1]) <= WorkSum(Fast(c, n))
  {
    hide BlockWork, Good, Next, Minable;
    FastDominates(c, blocks, n);
    WorkNeverFalls(blocks[n].difficulty, Fast(c, n)[n].difficulty);
    assert blocks[..n + 1][..n] == blocks[..n];
    if n > 0 {
      FastWork(c, blocks, n - 1);
      assert Fast(c, n)[..n] == Fast(c, n - 1);
    } else {
      assert Fast(c, 0)[..0] == blocks[..0] == [];
    }
  }

  // ----- the run

  /** A clock that reads each block's own timestamp while it is checked. */
  function ClockOf(blocks: seq<Block>): nat -> int {
    (i: nat) => if i < |blocks| then blocks[i].timestamp else 0
  }

  lemma {:induction false} HighestMatchExists(sha: Sha, a: seq<Block>, b: seq<Block>, top: nat, h: nat) returns (common: nat)
    requires h <= top && Match(sha, a, b, h)
    ensures h <= common && HighestMatch(sha, a, b, top, common)
    decreases top - h
  {
    hide Match;
    if k :| h < k <= top && Match(sha, a, b, k) {
      common := HighestMatchExists(sha, a, b, top, k);
    } else {
      common := h;
    }
  }

  /** A good chain with more work that shares a recent block is adopted. */
  lemma GoodAdopts(c: Context, blocks: seq<Block>, candidate: seq<Block>, h: nat)
    requires Good(c, blocks) && Good(c, candidate)
    requires WorkSum(candidate) > WorkSum(blocks)
    requires h < |blocks| && h < |candidate| && blocks[h] == candidate[h] && |blocks| - 1 - h <= MAX_REORG_DEPTH
    ensures Adopts(c.sha, c.check, c.config, blocks, c.config, candidate, ClockOf(candidate), ClockOf(candidate))
  {
    hide ValidChain, Replay, BlockHash, HighestMatch, WorkSum;
    var top := Lower(|blocks| - 1, |candidate| - 1);
    assert Match(c.sha, blocks, candidate, h);
    var common := HighestMatchExists(c.sha, blocks, candidate, top, h);
    assert WithinDepth(c.sha, blocks, candidate);
  }

  lemma {:induction false} EmptyBlocksHaveNoTxs(blocks: seq<Block>)
    requires forall i :: 0 <= i < |blocks| ==> blocks[i].txs == []
    ensures AllTxs(blocks) == []
  {
    if |blocks| > 1 {
      EmptyBlocksHaveNoTxs(blocks[..|blocks| - 1]);
    }
  }

  function ViewOf(check: SignatureCheck, blocks: seq<Block>): NodeView
    requires Replay(check, TestnetPolicy, blocks).Ok?
  {
    NodeView(blocks, Replay(check, TestnetPolicy, blocks).value, EMPTY_POOL)
  }

  function Adoption(c: Context, candidate: seq<Block>): Event {
    Reorganized(c.config, candidate, ClockOf(candidate), ClockOf(candidate), [])
  }

  lemma GoodStep(c: Context, blocks: seq<Block>, candidate: seq<Block>)
    requires Good(c, blocks) && Good(c, candidate)
    requires Adopts(c.sha, c.check, c.config, blocks, c.config, candidate, ClockOf(candidate), ClockOf(candidate))
    ensures Takes(c, ViewOf(c.check, blocks), Adoption(c, candidate), ViewOf(c.check, candidate))
  {
    hide ValidChain, Replay, Adopts, Recovers, AdmitAll, AllTxs;
    EmptyBlocksHaveNoTxs(blocks);
    NothingToRecover(c.check, blocks, ViewOf(c.check, candidate).ledger);
  }

  lemma NothingToRecover(check: SignatureCheck, blocks: seq<Block>, l: Ledger)
    requires AllTxs(blocks) == []
    ensures Recovers(blocks, EMPTY_POOL, l, []) && AdmitAll(check, l, [], PublicTestnet) == EMPTY_POOL
  {
    hide AllTxs, CandidateLeq;
  }

  lemma GoodIsSound(c: Context, blocks: seq<Block>)
    requires Good(c, blocks)
    ensures Sound(c, ViewOf(c.check, blocks))
  {
    hide ValidChain, Replay, Agrees;
    EmptyAgrees();
  }

  /**
   For every hash, signature check and verifier there is a run of two adopted reorganizations at whose start height 1 is
   finalized and at whose end the header at height 1 is another one. The first candidate is shorter than the chain it replaces.
   */
  lemma FinalityIsPerReorganization(c: Context)
    returns (states: seq<NodeView>, events: seq<Event>)
    requires Minable(c)
    ensures IsRun(c, states, events) && |states| == 3 && Sound(c, states[0])
    ensures events[0].Reorganized? && events[1].Reorganized?
    ensures 2 <= |states[1].blocks| < |states[0].blocks| && 2 <= |states[2].blocks|
    ensures FinalizedHeight(|states[0].blocks| - 1) == 1 && FinalizedHeight(|states[1].blocks| - 1) == 0
    ensures Header(states[2].blocks[1]) != Header(states[0].blocks[1])
  {
    hide Good, Next, Adopts, WorkSum, ValidChain, Takes, Header, Minable;
    var slow, fork, fast := Slow(c, 121), Fork(c, 17), Fast(c, 19);
    AllGood(c, 121, 17, 19);
    SlowWork(c, 121);
    ForkWork(c, 17);
    GrowPrefix(c, [GENESIS], 121, 1, 60);
    assert slow[..2][1] == slow[1] == fork[1];
    GoodAdopts(c, slow, fork, 1);
    ForkLosesToFast(c);
    GoodAdopts(c, fork, fast, 0);
    GoodHasReplay(c, slow);
    GoodHasReplay(c, fork);
    GoodHasReplay(c, fast);
    GoodStep(c, slow, fork);
    GoodStep(c, fork, fast);
    GoodIsSound(c, slow);
    FirstHeadersDiffer(c);
    states := [ViewOf(c.check, slow), ViewOf(c.check, fork), ViewOf(c.check, fast)];
    events := [Adoption(c, fork), Adoption(c, fast)];
  }

  lemma GoodHasReplay(c: Context, blocks: seq<Block>)
    requires Good(c, blocks)
    ensures Replay(c.check, TestnetPolicy, blocks).Ok? && blocks != [] && blocks[0] == GENESIS
  {
  }

  lemma ForkLosesToFast(c: Context)
    requires Minable(c)
    ensures WorkSum(Fast(c, 19)) > WorkSum(Fork(c, 17)) && Fork(c, 17)[0] == Fast(c, 19)[0]
  {
    hide Good, Next, BlockWork, Minable;
    var fork, fast := Fork(c, 17), Fast(c, 19);
    AllGood(c, 0, 17, 19);
    FastWork(c, fork, 18);
    assert fork[..19] == fork;
    assert fast[..19] == Fast(c, 18);
    GoodRises(c, fast, 19);
    WorkExactly(fast[19].difficulty);
  }

  lemma FirstHeadersDiffer(c: Context)
    ensures Header(Fast(c, 19)[1]) != Header(Slow(c, 121)[1])
  {
    hide Next, Header;
    GrowPrefix(c, [GENESIS], 19, 1, 1);
    GrowPrefix(c, [GENESIS], 121, 1, 60);
    var a, b := Fast(c, 19)[1], Slow(c, 121)[1];
    FirstTimestamp(c, 1);
    FirstTimestamp(c, 60);
    assert Fast(c, 19)[..2][1] == a && Slow(c, 121)[..2][1] == b;
    if Header(a) == Header(b) {
      HeaderDetermines(a, b);
    }
  }

  lemma FirstTimestamp(c: Context, interval: nat)
    ensures Grow(c, [GENESIS], 1, interval)[1].timestamp == GENESIS.timestamp + interval
  {
    hide NextFromHistory, RecentIntervals, Next;
    NextFields(c, [GENESIS], interval);
    assert Grow(c, [GENESIS], 0, interval) == [GENESIS];
  }
}
