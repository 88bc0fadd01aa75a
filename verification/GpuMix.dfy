/** The register schedule and the merge step of the GPU proof (pow/gpu_pow_v1_permutation.go, gpu_pow_v1_rng.go,
    gpu_pow_v1_mix.go), a ProgPoW-style construction (EIP-1057). Words are integers below 2^32. */
module GpuMix {
  import opened Prelude

  // ----- words

  function Wrap(n: int): u32 {
    n % 0x1_0000_0000
  }

  /** Exclusive or of the `bits` low-order bits. */
  function XorBits(a: nat, b: nat, bits: nat): nat {
    if bits == 0 then 0 else 2 * XorBits(a / 2, b / 2, bits - 1) + (a + b) % 2
  }

  function Pow2(n: nat): (p: nat)
    ensures p >= 1
  {
    if n == 0 then 1 else 2 * Pow2(n - 1)
  }

  lemma {:induction false} XorBitsFits(a: nat, b: nat, bits: nat)
    ensures XorBits(a, b, bits) < Pow2(bits)
  {
    if bits > 0 {
      XorBitsFits(a / 2, b / 2, bits - 1);
    }
  }

  lemma WordIsPow2()
    ensures Pow2(32) == 0x1_0000_0000
  {
    assert Pow2(8) == 0x100;
    assert Pow2(16) == 0x100 * Pow2(8);
    assert Pow2(24) == 0x100 * Pow2(16);
    assert Pow2(32) == 0x100 * Pow2(24);
  }

  function Xor(a: u32, b: u32): u32 {
    XorBitsFits(a, b, 32);
    WordIsPow2();
    XorBits(a, b, 32)
  }

  // ----- bits

  function Bit(a: nat, i: nat): nat {
    a / Pow2(i) % 2
  }

  lemma BitOfHalf(a: nat, i: nat)
    requires i > 0
    ensures Bit(a, i) == Bit(a / 2, i - 1)
  {
    DivideTwice(a, 2, Pow2(i - 1));
  }

  /** Exclusive or works bit by bit. */
  lemma {:induction false} XorBitsAt(a: nat, b: nat, bits: nat, i: nat)
    requires i < bits
    ensures Bit(XorBits(a, b, bits), i) == (Bit(a, i) + Bit(b, i)) % 2
  {
    var half := XorBits(a / 2, b / 2, bits - 1);
    assert XorBits(a, b, bits) == 2 * half + (a + b) % 2;
    assert XorBits(a, b, bits) / 2 == half;
    if i == 0 {
      assert Pow2(0) == 1;
    } else {
      XorBitsAt(a / 2, b / 2, bits - 1, i - 1);
      BitOfHalf(a, i);
      BitOfHalf(b, i);
      BitOfHalf(XorBits(a, b, bits), i);
    }
  }

  lemma XorAt(a: u32, b: u32, i: nat)
    requires i < 32
    ensures Bit(Xor(a, b), i) == (Bit(a, i) + Bit(b, i)) % 2
  {
    hide XorBits, Bit;
    XorBitsAt(a, b, 32, i);
  }

  // ----- the generator

  datatype Kiss99 = Kiss99(z: u32, w: u32, jsr: u32, jcong: u32)

  function Fnv1a(a: u32, b: u32): u32 {
    Wrap(Xor(a, b) * 0x01000193)
  }

  function NewKiss99(seedLo: u32, seedHi: u32): Kiss99 {
    var z := Fnv1a(0x811c9dc5, seedLo);
    var w := Fnv1a(z, seedHi);
    var jsr := Fnv1a(w, seedLo);
    Kiss99(z, w, jsr, Fnv1a(jsr, seedHi))
  }

  /** Shifts by 17 and 5 to the left and by 13 to the right are written as products and a quotient. */
  function Advance(r: Kiss99): Kiss99 {
    var j1 := Xor(r.jsr, Wrap(r.jsr * 131072));
    var j2 := Xor(j1, j1 / 8192);
    Kiss99(Wrap(36969 * (r.z % 65536) + r.z / 65536),
           Wrap(18000 * (r.w % 65536) + r.w / 65536),
           Xor(j2, Wrap(j2 * 32)),
           Wrap(69069 * r.jcong + 1234567))
  }

  function Output(r: Kiss99): u32 {
    Wrap(Xor(Wrap(Wrap(r.z * 65536) + r.w), r.jcong) + r.jsr)
  }

  /** The generator object, whose fields change with every number drawn. */
  class Generator {
    var z: u32
    var w: u32
    var jsr: u32
    var jcong: u32

    function View(): Kiss99
      reads this
    {
      Kiss99(z, w, jsr, jcong)
    }

    constructor (seedLo: u32, seedHi: u32)
      ensures View() == NewKiss99(seedLo, seedHi)
    {
      var first: u32 := Xor(2166136261, seedLo) * 16777619 % 4294967296;
      var second: u32 := Xor(first, seedHi) * 16777619 % 4294967296;
      var third: u32 := Xor(second, seedLo) * 16777619 % 4294967296;
      var fourth: u32 := Xor(third, seedHi) * 16777619 % 4294967296;
      z, w, jsr, jcong := first, second, third, fourth;
      new;
      hide Xor;
    }

    method Next() returns (r: u32)
      modifies this
      ensures View() == Advance(old(View())) && r == Output(View())
    {
      hide Xor;
      z := (36969 * (z % 65536) + z / 65536) % 4294967296;
      w := (18000 * (w % 65536) + w / 65536) % 4294967296;
      jcong := (69069 * jcong + 1234567) % 4294967296;
      jsr := Xor(jsr, jsr * 131072 % 4294967296);
      jsr := Xor(jsr, jsr / 8192);
      jsr := Xor(jsr, jsr * 32 % 4294967296);
      r := (Xor((z * 65536 % 4294967296 + w) % 4294967296, jcong) + jsr) % 4294967296;
    }
  }

  // ----- the schedules

  function Swapped(s: seq<nat>, i: nat, j: nat): (r: seq<nat>)
    requires i < |s| && j < |s|
    ensures |r| == |s|
  {
    s[i := s[j]][j := s[i]]
  }

  lemma SwapPermutes(s: seq<nat>, i: nat, j: nat)
    requires i < |s| && j < |s|
    ensures multiset(Swapped(s, i, j)) == multiset(s)
  {
  }

  /** The interleaved Fisher-Yates steps from index i down to 1. */
  function Shuffle(rng: Kiss99, dst: seq<nat>, src: seq<nat>, i: nat): (seq<nat>, seq<nat>)
    requires i < |dst| == |src|
    decreases i
  {
    if i == 0 then (dst, src)
    else
      var first := Advance(rng);
      var second := Advance(first);
      Shuffle(second, Swapped(dst, i, Output(first) % (i + 1)), Swapped(src, i, Output(second) % (i + 1)), i - 1)
  }

  function Identity(n: nat): seq<nat> {
    seq(n, i => i)
  }

  /** Whatever the generator yields, shuffling permutes both lists. */
  lemma {:induction false} ShufflePermutes(rng: Kiss99, dst: seq<nat>, src: seq<nat>, i: nat)
    requires i < |dst| == |src|
    ensures multiset(Shuffle(rng, dst, src, i).0) == multiset(dst)
    ensures multiset(Shuffle(rng, dst, src, i).1) == multiset(src)
    decreases i
  {
    hide Output, Advance, Swapped;
    if i > 0 {
      var first := Advance(rng);
      var second := Advance(first);
      var j, k := Output(first) % (i + 1), Output(second) % (i + 1);
      SwapPermutes(dst, i, j);
      SwapPermutes(src, i, k);
      ShufflePermutes(second, Swapped(dst, i, j), Swapped(src, i, k), i - 1);
    }
  }

  /** A rearrangement of 0..n-1 holds every index exactly once. */
  lemma PermutationOfIndices(s: seq<nat>, n: nat)
    requires multiset(s) == multiset(Identity(n))
    ensures |s| == n && forall v :: 0 <= v < n ==> v in s
  {
    assert |multiset(s)| == |multiset(Identity(n))|;
    forall v | 0 <= v < n ensures v in s {
      assert Identity(n)[v] == v;
      assert v in multiset(Identity(n));
      assert v in multiset(s);
    }
  }

  method SwapAt(a: array<nat>, i: nat, j: nat)
    requires i < a.Length && j < a.Length
    modifies a
    ensures a[..] == Swapped(old(a[..]), i, j)
  {
    a[i], a[j] := a[j], a[i];
  }

  lemma ShuffleStep(rng: Kiss99, dst: seq<nat>, src: seq<nat>, i: nat)
    requires 0 < i < |dst| == |src|
    ensures var first := Advance(rng);
            var second := Advance(first);
            var d, s := Swapped(dst, i, Output(first) % (i + 1)), Swapped(src, i, Output(second) % (i + 1));
            Shuffle(rng, dst, src, i) == Shuffle(second, d, s, i - 1)
  {
    hide Output, Advance;
  }

  lemma ShuffleEnds(rng: Kiss99, dst: seq<nat>, src: seq<nat>)
    requires 0 < |dst| == |src|
    ensures Shuffle(rng, dst, src, 0) == (dst, src)
  {
  }

  /** The in-place shuffles compute `Shuffle`, so for every seed both schedules hold each of 0..31 exactly once. */
  method RegisterPermutations(seedLo: u32, seedHi: u32) returns (dst: array<nat>, src: array<nat>)
    ensures fresh(dst) && fresh(src) && dst.Length == src.Length == 32
    ensures (dst[..], src[..]) == Shuffle(NewKiss99(seedLo, seedHi), Identity(32), Identity(32), 31)
    ensures forall v :: 0 <= v < 32 ==> v in dst[..] && v in src[..]
  {
    hide Output, Advance, NewKiss99, Shuffle, Swapped;
    var rng := new Generator(seedLo, seedHi);
    ghost var expected := Shuffle(rng.View(), Identity(32), Identity(32), 31);
    ShufflePermutes(rng.View(), Identity(32), Identity(32), 31);
    PermutationOfIndices(expected.0, 32);
    PermutationOfIndices(expected.1, 32);
    dst := new nat[32](i => i);
    src := new nat[32](i => i);
    assert dst[..] == Identity(32) && src[..] == Identity(32);
    var i := 31;
    while i > 0
      invariant 0 <= i <= 31 && fresh(rng) && fresh(dst) && fresh(src) && dst != src
      invariant Shuffle(rng.View(), dst[..], src[..], i) == expected
    {
      ShuffleStep(rng.View(), dst[..], src[..], i);
      var j := rng.Next();
      SwapAt(dst, i, j % (i + 1));
      j := rng.Next();
      SwapAt(src, i, j % (i + 1));
      i := i - 1;
    }
    ShuffleEnds(rng.View(), dst[..], src[..]);
  }

  // ----- the merge

  /** Rotation to the left by x bits: the low 32 - x bits move up and the high x bits come in below. */
  function RotateLeft(a: u32, x: nat): int
    requires 1 <= x <= 31
  {
    Wrap(a * Pow2(x)) + a / Pow2(32 - x)
  }

  function Rotated(a: u32, x: nat): u32
    requires 1 <= x <= 31
  {
    RotationFits(a, x);
    RotateLeft(a, x)
  }

  function Distance(selector: u32): (x: nat)
    ensures 1 <= x <= 31
  {
    selector / 65536 % 31 + 1
  }

  /** A rotation to the right by x is one to the left by 32 - x. */
  function Merge(a: u32, b: u32, selector: u32): u32 {
    match selector % 4
    case 0 => Wrap(a * 33 + b)
    case 1 => Wrap(Xor(a, b) * 33)
    case 2 => Xor(Rotated(a, Distance(selector)), b)
    case _ => Xor(Rotated(a, 32 - Distance(selector)), b)
  }

  /** The inverse of the merge in its first operand; 1041204193 is the inverse of 33 modulo 2^32. */
  function Unmerge(c: u32, b: u32, selector: u32): u32 {
    match selector % 4
    case 0 => Wrap(Wrap(c - b) * 1041204193)
    case 1 => Xor(Wrap(c * 1041204193), b)
    case 2 => Rotated(Xor(c, b), 32 - Distance(selector))
    case _ => Rotated(Xor(c, b), Distance(selector))
  }

  lemma WrapUnique(n: int, k: int, a: u32)
    requires n == 0x1_0000_0000 * k + a
    ensures Wrap(n) == a
  {
  }

  lemma ScaleRoundTrip(a: u32)
    ensures Wrap(Wrap(a * 33) * 1041204193) == a
    ensures Wrap(Wrap(a * 1041204193) * 33) == a
  {
    var q := a * 33 / 0x1_0000_0000;
    WrapUnique(Wrap(a * 33) * 1041204193, 8 * a - 1041204193 * q, a);
    var p := a * 1041204193 / 0x1_0000_0000;
    WrapUnique(Wrap(a * 1041204193) * 33, 8 * a - 33 * p, a);
  }

  lemma SumRoundTrip(a: u32, b: u32)
    ensures Wrap(Wrap(a * 33 + b) - b) == Wrap(a * 33)
    ensures Wrap(Wrap(a - b) + b) == a
  {
  }

  lemma {:induction false} XorBitsTwice(a: nat, b: nat, bits: nat)
    requires a < Pow2(bits)
    ensures XorBits(XorBits(a, b, bits), b, bits) == a
  {
    if bits > 0 {
      XorBitsTwice(a / 2, b / 2, bits - 1);
      HalfAndParity(XorBits(a / 2, b / 2, bits - 1), a, b);
    }
  }

  lemma HalfAndParity(half: nat, a: nat, b: nat)
    ensures (2 * half + (a + b) % 2) / 2 == half
    ensures (2 * half + (a + b) % 2 + b) % 2 == a % 2
  {
  }

  lemma XorTwice(a: u32, b: u32)
    ensures Xor(Xor(a, b), b) == a
  {
    WordIsPow2();
    XorBitsTwice(a, b, 32);
  }

  lemma {:induction false} Pow2Splits(x: nat, y: nat)
    ensures Pow2(x + y) == Pow2(x) * Pow2(y)
  {
    if x > 0 {
      Pow2Splits(x - 1, y);
      assert 2 * (Pow2(x - 1) * Pow2(y)) == (2 * Pow2(x - 1)) * Pow2(y);
    }
  }

  /** With p * q = 2^32 and a = high * q + low, a * p wraps to low * p. */
  lemma RotationParts(a: u32, p: nat, q: nat)
    requires p >= 1 && q >= 1 && p * q == 0x1_0000_0000
    ensures Wrap(a * p) == (a % q) * p && a / q < p && (a % q) * p + p <= 0x1_0000_0000
  {
    var high, low := a / q, a % q;
    assert a == high * q + low;
    assert a * p == high * (p * q) + low * p by {
      assert a * p == (high * q + low) * p == high * q * p + low * p;
      assert high * q * p == high * (p * q);
    }
    assert low * p + p == (low + 1) * p;
    MulMonotone(low + 1, q, p);
    assert q * p == p * q;
    WrapUnique(a * p, high, low * p);
    LessCancels(high, p, q);
  }

  lemma RotationFits(a: u32, x: nat)
    requires 1 <= x <= 31
    ensures 0 <= RotateLeft(a, x) <= MAX_U32
    ensures RotateLeft(a, x) == (a % Pow2(32 - x)) * Pow2(x) + a / Pow2(32 - x)
  {
    hide Pow2, Wrap;
    var p, q := Pow2(x), Pow2(32 - x);
    Pow2Splits(x, 32 - x);
    WordIsPow2();
    RotationParts(a, p, q);
  }

  /** Rotating on by the complementary distance comes back to the start. */
  lemma RotationRoundTrip(a: u32, x: nat)
    requires 1 <= x <= 31
    ensures Rotated(Rotated(a, x), 32 - x) == a
  {
    hide RotateLeft, Pow2;
    RotationFits(a, x);
    var c := Rotated(a, x);
    RotationFits(c, 32 - x);
    Pow2Splits(x, 32 - x);
    WordIsPow2();
    var p, q := Pow2(x), Pow2(32 - x);
    RotationParts(a, p, q);
    RotationDigits(a, p, q, a / q, a % q, c);
  }

  lemma RotationDigits(a: u32, p: nat, q: nat, high: nat, low: nat, c: u32)
    requires p >= 1 && q >= 1 && c == low * p + high && high == a / q && low == a % q
    requires high < p
    ensures (c % p) * q + c / p == a
  {
    DivideUnique(c, p, low);
    assert c == p * (c / p) + c % p;
    assert c % p == high;
    assert a == q * (a / q) + a % q;
  }

  /** Below 2^n the bits of h * 2^n + l are those of l, and from there on those of h if l is below 2^n. */
  lemma JoinedBits(h: nat, l: nat, n: nat, j: nat)
    ensures j < n ==> Bit(h * Pow2(n) + l, j) == Bit(l, j)
    ensures l < Pow2(n) ==> Bit(h * Pow2(n) + l, n + j) == Bit(h, j)
  {
    hide Pow2;
    if j < n {
      LowBits(h, l, n, j);
    }
    if l < Pow2(n) {
      Pow2Splits(n, j);
      DivideUnique(h * Pow2(n) + l, Pow2(n), h);
      DivideTwice(h * Pow2(n) + l, Pow2(n), Pow2(j));
    }
  }

  lemma LowBits(h: nat, l: nat, n: nat, j: nat)
    requires j < n
    ensures (h * Pow2(n) + l) / Pow2(j) % 2 == l / Pow2(j) % 2
  {
    hide Pow2;
    var p, r := Pow2(j), Pow2(n - j - 1);
    Pow2Splits(j, n - j);
    Pow2Splits(1, n - j - 1);
    Pow2OfOne();
    Regroup(h, p, r);
    EvenMultiple(h * r, p, l);
  }

  lemma Regroup(h: nat, p: nat, r: nat)
    ensures h * (p * (2 * r)) == 2 * (h * r) * p
  {
    assert p * (2 * r) == 2 * r * p;
    assert h * (2 * r * p) == h * (2 * r) * p;
    assert h * (2 * r) == 2 * (h * r);
  }

  lemma EvenMultiple(k: nat, p: nat, l: nat)
    requires p > 0
    ensures (2 * k * p + l) / p % 2 == l / p % 2
  {
    var q := l / p;
    assert l == q * p + l % p;
    assert (2 * k + q) * p == 2 * k * p + q * p;
    DivideUnique(2 * k * p + l, p, 2 * k + q);
    assert (2 * k + q) % 2 == q % 2;
  }

  lemma Pow2OfOne()
    ensures Pow2(1) == 2
  {
  }

  /** Rotation to the left by x moves bit i to bit i + x, around the word. */
  lemma RotatedAt(a: u32, x: nat, i: nat)
    requires 1 <= x <= 31 && i < 32
    ensures Bit(Rotated(a, x), (i + x) % 32) == Bit(a, i)
  {
    hide RotateLeft, Pow2, Bit;
    RotationFits(a, x);
    Pow2Splits(x, 32 - x);
    WordIsPow2();
    var p, q := Pow2(x), Pow2(32 - x);
    RotationParts(a, p, q);
    var high, low := a / q, a % q;
    assert a == high * q + low;
    if i < 32 - x {
      JoinedBits(low, high, x, i);
      JoinedBits(high, low, 32 - x, i);
    } else {
      JoinedBits(low, high, x, i + x - 32);
      JoinedBits(high, low, 32 - x, i + x - 32);
      assert (i + x) % 32 == i + x - 32;
    }
  }

  /** The rotating merges bit by bit: by 1 to 31 places, chosen by the upper half of the selector, to the left or to the
      right. */
  lemma MergeAt(a: u32, b: u32, selector: u32, i: nat)
    requires i < 32
    ensures var x := selector / 65536 % 31 + 1;
            && (selector % 4 == 2 ==> Bit(Merge(a, b, selector), (i + x) % 32) == (Bit(a, i) + Bit(b, (i + x) % 32)) % 2)
            && (selector % 4 == 3 ==> Bit(Merge(a, b, selector), i) == (Bit(a, (i + x) % 32) + Bit(b, i)) % 2)
  {
    hide Bit, Xor, Rotated;
    var x := selector / 65536 % 31 + 1;
    if selector % 4 == 2 {
      RotatedAt(a, x, i);
      XorAt(Rotated(a, x), b, (i + x) % 32);
    } else if selector % 4 == 3 {
      var k := (i + x) % 32;
      RotatedAt(a, 32 - x, k);
      assert (k + (32 - x)) % 32 == i;
      XorAt(Rotated(a, 32 - x), b, i);
    }
  }

  /** For every operand and selector the merge loses nothing of its first operand: it is a bijection on words. */
  lemma MergeIsBijective(a: u32, b: u32, selector: u32)
    ensures Unmerge(Merge(a, b, selector), b, selector) == a
    ensures Merge(Unmerge(a, b, selector), b, selector) == a
  {
    hide Wrap, Xor, Rotated, Distance;
    var x := Distance(selector);
    match selector % 4
    case 0 => AddMergeRoundTrip(a, b);
    case 1 =>
      ScaleRoundTrip(Xor(a, b));
      XorTwice(a, b);
      XorTwice(Wrap(a * 1041204193), b);
      ScaleRoundTrip(a);
    case 2 => RotateMergeRoundTrip(a, b, x);
    case _ => RotateMergeRoundTrip(a, b, 32 - x);
  }

  lemma AddMergeRoundTrip(a: u32, b: u32)
    ensures Wrap(Wrap(Wrap(a * 33 + b) - b) * 1041204193) == a
    ensures Wrap(Wrap(Wrap(a - b) * 1041204193) * 33 + b) == a
  {
    hide Wrap;
    SumRoundTrip(a, b);
    ScaleRoundTrip(a);
    var d: int := Wrap(a - b);
    ScaleRoundTrip(d);
    var e: int := Wrap(d * 1041204193);
    WrapAdds(e * 33, b, d);
  }

  lemma WrapAdds(e: int, b: u32, d: u32)
    requires Wrap(e) == d
    ensures Wrap(e + b) == Wrap(d + b)
  {
  }

  lemma RotateMergeRoundTrip(a: u32, b: u32, x: nat)
    requires 1 <= x <= 31
    ensures Rotated(Xor(Xor(Rotated(a, x), b), b), 32 - x) == a
    ensures Xor(Rotated(Rotated(Xor(a, b), 32 - x), x), b) == a
  {
    hide Xor, Rotated;
    XorTwice(Rotated(a, x), b);
    RotationRoundTrip(a, x);
    RotationRoundTrip(Xor(a, b), 32 - x);
    XorTwice(a, b);
  }
}
