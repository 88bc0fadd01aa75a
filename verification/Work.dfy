/** Proof-of-work targets and the work they represent (consensus/work.go). */
module Work {
  import opened Prelude

  const TWO_256 := 0x1_0000000000000000_0000000000000000_0000000000000000_0000000000000000

  function Target(difficulty: u32): nat {
    if difficulty == 0 then 0 else (TWO_256 - 1) / difficulty
  }

  /** floor(2^256 / (target + 1)). */
  function BlockWork(difficulty: u32): nat {
    if difficulty == 0 || Target(difficulty) == 0 then 0 else TWO_256 / (Target(difficulty) + 1)
  }

  lemma WorkWhenDividing(q: nat, d: nat, n: nat)
    requires d >= 1 && q >= 1 && n == q * d
    ensures n >= 1 && n / ((n - 1) / d + 1) == d
  {
    MulMonotone(1, q, d);
    assert (q - 1) * d == q * d - d;
    DivideUnique(n - 1, d, q - 1);
    assert d * q == q * d;
    DivideUnique(n, q, d);
  }

  lemma WorkWhenNotDividing(q: nat, d: nat, r: nat, n: nat)
    requires 0 < r < d <= q && n == q * d + r
    ensures n / ((n - 1) / d + 1) == d - 1
  {
    DivideUnique(n - 1, d, q);
    assert (d - 1) * (q + 1) == q * d + d - q - 1;
    DivideUnique(n, q + 1, d - 1);
  }

  /** For n at least d squared, n / ((n - 1) / d + 1) is d when d divides n and d - 1 otherwise. */
  lemma WorkOf(n: nat, d: nat)
    requires 1 <= d && d * d <= n
    ensures n / ((n - 1) / d + 1) == if n % d == 0 then d else d - 1
  {
    var q, r := n / d, n % d;
    assert n == q * d + r;
    assert (q + 1) * d == q * d + d;
    LessCancels(d, q + 1, d);
    if r == 0 {
      WorkWhenDividing(q, d, n);
    } else {
      WorkWhenNotDividing(q, d, r, n);
    }
  }

  /** The work of a block is its difficulty when that divides 2^256, and one less otherwise. */
  lemma WorkExactly(difficulty: u32)
    requires difficulty >= 1
    ensures BlockWork(difficulty) == if TWO_256 % difficulty == 0 then difficulty else difficulty - 1
    ensures BlockWork(difficulty) >= 1
  {
    var n := TWO_256;
    SquareFits(difficulty);
    WorkOf(n, difficulty);
    TargetIsPositive(difficulty);
    if difficulty == 1 {
      assert n % 1 == 0;
    }
  }

  lemma SquareFits(d: u32)
    ensures d * d <= TWO_256
  {
    MulMonotone(d, 0x1_0000_0000, d);
    MulMonotone(d, 0x1_0000_0000, 0x1_0000_0000);
  }

  lemma TargetIsPositive(d: u32)
    requires d >= 1
    ensures Target(d) >= 1
  {
    var n := TWO_256 - 1;
    var t := n / d;
    assert n == t * d + n % d;
  }

  /** A block of higher difficulty never represents less work. */
  lemma WorkNeverFalls(low: u32, high: u32)
    requires low <= high
    ensures BlockWork(low) <= BlockWork(high)
  {
    hide BlockWork;
    if 1 <= low < high {
      WorkExactly(low);
      WorkExactly(high);
    } else if low == 0 {
      assert BlockWork(0) == 0 by { NoWorkAtZero(); }
    }
  }

  lemma NoWorkAtZero()
    ensures BlockWork(0) == 0
  {
  }
}
