/** Difficulty from the median of recent block intervals (consensus/difficulty.go, consensus/history_difficulty.go,
    blockchain/difficulty_history.go). */
module Difficulty {
  import opened Prelude
  import opened Params
  import opened Blocks
  import opened Sorting

  function NextDifficulty(current: u32, interval: int): u32 {
    var d: u32 := if current == 0 then 1 else current;
    if interval < 30 then
      var increase := if d / 4 == 0 then 1 else d / 4;
      if d > MAX_U32 - increase then MAX_U32 else d + increase
    else if interval > 120 then
      var decrease := if d / 5 == 0 then 1 else d / 5;
      if decrease >= d then 1 else d - decrease
    else d
  }

  function Positive(intervals: seq<int>): seq<int> {
    if intervals == [] then []
    else
      var rest := Positive(intervals[..|intervals| - 1]);
      if intervals[|intervals| - 1] > 0 then rest + [intervals[|intervals| - 1]] else rest
  }

  function IntLeq(x: int, y: int): bool {
    x <= y
  }

  function Median(intervals: seq<int>): int {
    var valid := Sort(Positive(intervals), IntLeq);
    if valid == [] then TARGET_BLOCK_SECONDS else valid[|valid| / 2]
  }

  function NextFromHistory(current: u32, intervals: seq<int>): u32 {
    NextDifficulty(current, Median(intervals))
  }

  method MedianBlockInterval(intervals: seq<int>) returns (median: int)
    ensures median == Median(intervals)
  {
    var valid: seq<int> := [];
    for k := 0 to |intervals|
      invariant valid == Positive(intervals[..k])
    {
      assert intervals[..k + 1][..k] == intervals[..k];
      if intervals[k] > 0 {
        valid := valid + [intervals[k]];
      }
    }
    assert intervals[..|intervals|] == intervals;
    SortPermutes(valid, IntLeq);
    if |valid| == 0 {
      return TARGET_BLOCK_SECONDS;
    }
    valid := Sort(valid, IntLeq);
    return valid[|valid| / 2];
  }

  // ----- how far difficulty can move

  /** Difficulty stays at least 1 and moves by at most a quarter up or a fifth down, or by 1 where that is less. */
  lemma DifficultyMovesSlowly(current: u32, interval: int)
    requires current >= 1
    ensures var next := NextDifficulty(current, interval);
            && next >= 1
            && next <= current + (if current / 4 == 0 then 1 else current / 4)
            && next >= current - (if current / 5 == 0 then 1 else current / 5)
  {
  }

  /** The size of a step: after fast blocks difficulty rises by no less than a quarter, rounded down, unless it meets the
      ceiling; after slow ones it falls by no less than a fifth, rounded down. Difficulty 0 counts as 1. */
  lemma DifficultyStepIsFull(current: u32, interval: int)
    requires current >= 1
    ensures var next := NextDifficulty(current, interval);
            && (interval < 30 && next < MAX_U32 ==> 4 * (next - current) > current - 4)
            && (interval > 120 ==> 5 * (current - next) > current - 5)
    ensures NextDifficulty(0, interval) == NextDifficulty(1, interval)
  {
  }

  /** It rises after fast blocks and falls after slow ones, strictly until it meets its bounds, and stays otherwise. */
  lemma DifficultyFollowsPace(current: u32, interval: int)
    requires current >= 1
    ensures var next := NextDifficulty(current, interval);
            && (interval < 30 ==> next > current || next == MAX_U32)
            && (interval > 120 ==> next < current || next == 1)
            && (Normal(interval) ==> next == current)
  {
  }

  // ----- the median and a majority of normal intervals

  predicate Normal(interval: int) {
    30 <= interval <= 120
  }

  function Count(s: seq<int>, p: int -> bool): nat {
    if s == [] then 0 else (if p(s[0]) then 1 else 0) + Count(s[1..], p)
  }

  lemma {:induction false} CountAppend(a: seq<int>, b: seq<int>, p: int -> bool)
    ensures Count(a + b, p) == Count(a, p) + Count(b, p)
  {
    if a == [] {
      assert a + b == b;
    } else {
      CountAppend(a[1..], b, p);
      assert (a + b)[1..] == a[1..] + b;
    }
  }

  lemma {:induction false} CountBounds(s: seq<int>, p: int -> bool)
    ensures Count(s, p) <= |s|
    ensures (forall i :: 0 <= i < |s| ==> !p(s[i])) ==> Count(s, p) == 0
  {
    if s != [] {
      CountBounds(s[1..], p);
    }
  }

  lemma {:induction false} CountInsert(x: int, s: seq<int>, p: int -> bool)
    ensures Count(InsertInOrder(x, s, IntLeq), p) == Count([x], p) + Count(s, p)
  {
    if s == [] || IntLeq(x, s[0]) {
      CountAppend([x], s, p);
    } else {
      CountInsert(x, s[1..], p);
      CountAppend([s[0]], InsertInOrder(x, s[1..], IntLeq), p);
    }
  }

  lemma {:induction false} CountSort(s: seq<int>, p: int -> bool)
    ensures Count(Sort(s, IntLeq), p) == Count(s, p)
  {
    if s != [] {
      CountSort(s[1..], p);
      CountInsert(s[0], Sort(s[1..], IntLeq), p);
    }
  }

  lemma {:induction false} CountPositive(s: seq<int>)
    ensures Count(Positive(s), Normal) == Count(s, Normal) && |Positive(s)| <= |s|
  {
    if s != [] {
      var front, last := s[..|s| - 1], s[|s| - 1];
      CountPositive(front);
      assert s == front + [last];
      CountAppend(front, [last], Normal);
      CountAppend(Positive(front), [last], Normal);
    }
  }

  /** A part of the list where `p` fails bounds the count by the rest. */
  lemma CountOutside(s: seq<int>, k: nat, p: int -> bool)
    requires k <= |s|
    ensures (forall i :: 0 <= i < k ==> !p(s[i])) ==> Count(s, p) <= |s| - k
    ensures (forall i :: k <= i < |s| ==> !p(s[i])) ==> Count(s, p) <= k
  {
    assert s == s[..k] + s[k..];
    CountAppend(s[..k], s[k..], p);
    CountBounds(s[..k], p);
    CountBounds(s[k..], p);
  }

  /** The median is one of the positive intervals, with at most half of them below it and fewer than half, rounded up,
      above it: the upper of the two middle ones when their number is even. */
  lemma MedianIsMiddle(intervals: seq<int>)
    ensures var valid, m := Positive(intervals), Median(intervals);
            if valid == [] then m == 60
            else
              && m in valid
              && Count(valid, x => x < m) <= |valid| / 2
              && Count(valid, x => x > m) < |valid| - |valid| / 2
  {
    hide Count, Positive;
    var valid, m := Positive(intervals), Median(intervals);
    SortPermutes(valid, IntLeq);
    SortSorts(valid, IntLeq);
    var s, k := Sort(valid, IntLeq), |valid| / 2;
    if valid != [] {
      SortMember(valid, IntLeq, m);
      var below, above: int -> bool := x => x < m, x => x > m;
      CountSort(valid, below);
      CountSort(valid, above);
      assert forall i :: k <= i < |s| ==> i == k || IntLeq(s[k], s[i]);
      assert forall i :: 0 <= i < k ==> IntLeq(s[i], s[k]);
      CountOutside(s, k, below);
      CountOutside(s, k + 1, above);
    }
  }

  lemma SortedMedianIsNormal(s: seq<int>)
    requires Sorted(s, IntLeq) && 2 * Count(s, Normal) > |s|
    ensures s != [] && Normal(s[|s| / 2])
  {
    hide Count;
    CountBounds(s, Normal);
    var m := |s| / 2;
    if s[m] < 30 {
      assert forall i :: 0 <= i < m ==> IntLeq(s[i], s[m]);
      CountOutside(s, m + 1, Normal);
    } else if s[m] > 120 {
      assert forall i :: m < i < |s| ==> IntLeq(s[m], s[i]);
      CountOutside(s, m, Normal);
    }
  }

  /** If more than half of the intervals are normal, the others cannot change the difficulty. */
  lemma MajorityFixesDifficulty(current: u32, intervals: seq<int>)
    requires current >= 1 && 2 * Count(intervals, Normal) > |intervals|
    ensures NextFromHistory(current, intervals) == current
  {
    var valid := Positive(intervals);
    CountPositive(intervals);
    CountSort(valid, Normal);
    SortPermutes(valid, IntLeq);
    SortSorts(valid, IntLeq);
    SortedMedianIsNormal(Sort(valid, IntLeq));
  }

  // ----- intervals of a chain

  function IntervalsFrom(blocks: seq<Block>, start: nat, end: nat): seq<int>
    requires 1 <= start && end <= |blocks|
  {
    if end <= start then []
    else
      var rest := IntervalsFrom(blocks, start, end - 1);
      var interval := blocks[end - 1].timestamp - blocks[end - 2].timestamp;
      if interval > 0 then rest + [interval] else rest
  }

  function RecentIntervals(blocks: seq<Block>): seq<int> {
    if |blocks| < 2 then []
    else
      var count := if |blocks| - 1 > DIFFICULTY_WINDOW then DIFFICULTY_WINDOW else |blocks| - 1;
      IntervalsFrom(blocks, |blocks| - count, |blocks|)
  }

  method RecentBlockIntervals(blocks: seq<Block>) returns (intervals: seq<int>)
    ensures intervals == RecentIntervals(blocks)
  {
    if |blocks| < 2 {
      return [];
    }
    var intervalCount := |blocks| - 1;
    if intervalCount > DIFFICULTY_WINDOW {
      intervalCount := DIFFICULTY_WINDOW;
    }
    var start := |blocks| - intervalCount;
    intervals := [];
    for i := start to |blocks|
      invariant intervals == IntervalsFrom(blocks, start, i)
    {
      var interval := blocks[i].timestamp - blocks[i - 1].timestamp;
      if interval > 0 {
        intervals := intervals + [interval];
      }
    }
  }

  ghost predicate RisesAt(blocks: seq<Block>, i: nat)
    requires i < |blocks|
  {
    i > 0 ==> blocks[i - 1].timestamp < blocks[i].timestamp
  }

  /** When timestamps rise, the positive-interval filter drops nothing. */
  lemma {:induction false} IntervalsKeepAll(blocks: seq<Block>, start: nat, end: nat)
    requires 1 <= start <= end <= |blocks|
    requires forall i :: 0 <= i < |blocks| ==> RisesAt(blocks, i)
    ensures |IntervalsFrom(blocks, start, end)| == end - start
    ensures Positive(IntervalsFrom(blocks, start, end)) == IntervalsFrom(blocks, start, end)
  {
    if start < end {
      IntervalsKeepAll(blocks, start, end - 1);
      var s := IntervalsFrom(blocks, start, end);
      assert RisesAt(blocks, end - 1);
      assert s[..|s| - 1] == IntervalsFrom(blocks, start, end - 1);
    }
  }

  lemma RecentKeepAll(blocks: seq<Block>)
    requires blocks != [] && forall i :: 0 <= i < |blocks| ==> RisesAt(blocks, i)
    ensures |RecentIntervals(blocks)| == if |blocks| - 1 > DIFFICULTY_WINDOW then DIFFICULTY_WINDOW else |blocks| - 1
    ensures Positive(RecentIntervals(blocks)) == RecentIntervals(blocks)
  {
    hide RisesAt, IntervalsFrom;
    if |blocks| >= 2 {
      var count := if |blocks| - 1 > DIFFICULTY_WINDOW then DIFFICULTY_WINDOW else |blocks| - 1;
      IntervalsKeepAll(blocks, |blocks| - count, |blocks|);
    }
  }
}
