/** Machine integers, result types, and sums over finite maps. */
module Prelude {

  const MAX_U64: int := 0xFFFF_FFFF_FFFF_FFFF
  const MAX_U32: int := 0xFFFF_FFFF

  type u64 = x: int | 0 <= x <= 0xFFFF_FFFF_FFFF_FFFF
  type u32 = x: int | 0 <= x <= 0xFFFF_FFFF

  datatype Option<+T> = None | Some(value: T)

  datatype Result<+T, +E> = Ok(value: T) | Err(error: E) {
    predicate IsFailure() {
      Err?
    }

    function PropagateFailure<U>(): Result<U, E>
      requires Err?
    {
      Err(error)
    }

    function Extract(): T
      requires Ok?
    {
      value
    }
  }

  /** A Go byte string: one character per byte. */
  predicate Bytes(s: string) {
    forall i :: 0 <= i < |s| ==> s[i] as int < 256
  }

  /** A Go map read: a missing key reads as zero. */
  function Lookup(m: map<string, u64>, key: string): u64 {
    if key in m then m[key] else 0
  }

  /** The sum of all values of a map. */
  ghost function Total(m: map<string, nat>): nat {
    if m == map[] then 0
    else
      var k :| k in m;
      m[k] + Total(m - {k})
  }

  /** The order in which `Total` visits the keys does not matter. */
  lemma {:induction false} TotalRemove(m: map<string, nat>, key: string)
    requires key in m
    ensures Total(m) == m[key] + Total(m - {key})
    decreases |m|
  {
    var k :| k in m && Total(m) == m[k] + Total(m - {k});
    if k != key {
      TotalRemove(m - {k}, key);
      TotalRemove(m - {key}, k);
      assert m - {k} - {key} == m - {key} - {k};
    }
  }

  lemma TotalUpdate(m: map<string, nat>, key: string, v: nat)
    ensures Total(m[key := v]) == Total(m) - (if key in m then m[key] else 0) + v
  {
    TotalRemove(m[key := v], key);
    if key in m {
      TotalRemove(m, key);
      assert m[key := v] - {key} == m - {key};
    } else {
      assert m[key := v] - {key} == m;
    }
  }

  lemma TotalAtLeast(m: map<string, nat>, key: string)
    requires key in m
    ensures m[key] <= Total(m)
  {
    TotalRemove(m, key);
  }

  lemma MapGrowsByOne<K, V>(m: map<K, V>, key: K, v: V)
    ensures |m| <= |m[key := v]| <= |m| + 1
  {
    assert m[key := v].Keys == m.Keys + {key};
  }

  lemma MulMonotone(a: nat, b: nat, c: nat)
    requires a <= b
    ensures a * c <= b * c
  {
  }

  lemma LessCancels(a: nat, b: nat, c: nat)
    requires a * c < b * c
    ensures a < b
  {
    if b <= a {
      MulMonotone(b, a, c);
    }
  }

  lemma DivideTwice(n: nat, a: nat, b: nat)
    requires a > 0 && b > 0
    ensures a * b > 0 && n / a / b == n / (a * b)
  {
    var q := n / a / b;
    assert n == n / a * a + n % a;
    assert n / a == q * b + n / a % b;
    assert q * b * a == q * (a * b);
    assert (n / a % b) * a + a <= a * b by {
      assert (n / a % b + 1) * a == (n / a % b) * a + a;
      MulMonotone(n / a % b + 1, b, a);
      assert b * a == a * b;
    }
    assert n / a * a == q * (a * b) + (n / a % b) * a by {
      assert (q * b + n / a % b) * a == q * b * a + (n / a % b) * a;
    }
    MulMonotone(1, a, b);
    DivideUnique(n, a * b, q);
  }

  lemma DivideUnique(n: nat, d: nat, q: nat)
    requires d > 0 && q * d <= n < q * d + d
    ensures n / d == q
  {
    var p := n / d;
    assert n == p * d + n % d;
    assert (p + 1) * d == p * d + d && (q + 1) * d == q * d + d;
    LessCancels(q, p + 1, d);
    LessCancels(p, q + 1, d);
  }
}
