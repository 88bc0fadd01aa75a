/** The sorting that the node delegates to the Go library, as insertion sort over an ordering. */
module Sorting {

  ghost predicate TotalPreorder<T(!new)>(leq: (T, T) -> bool) {
    && (forall x, y :: leq(x, y) || leq(y, x))
    && (forall x, y, z :: leq(x, y) && leq(y, z) ==> leq(x, z))
  }

  ghost predicate Sorted<T>(s: seq<T>, leq: (T, T) -> bool) {
    forall i, j :: 0 <= i < j < |s| ==> leq(s[i], s[j])
  }

  function InsertInOrder<T>(x: T, s: seq<T>, leq: (T, T) -> bool): seq<T> {
    if s == [] || leq(x, s[0]) then [x] + s
    else [s[0]] + InsertInOrder(x, s[1..], leq)
  }

  function Sort<T>(s: seq<T>, leq: (T, T) -> bool): seq<T> {
    if s == [] then [] else InsertInOrder(s[0], Sort(s[1..], leq), leq)
  }

  lemma {:induction false} InsertContents<T>(x: T, s: seq<T>, leq: (T, T) -> bool)
    ensures multiset(InsertInOrder(x, s, leq)) == multiset{x} + multiset(s)
  {
    if s == [] || leq(x, s[0]) {
    } else {
      InsertContents(x, s[1..], leq);
      assert s == [s[0]] + s[1..];
    }
  }

  lemma InsertMember<T>(x: T, s: seq<T>, leq: (T, T) -> bool, y: T)
    ensures y in InsertInOrder(x, s, leq) <==> y == x || y in s
  {
    InsertContents(x, s, leq);
    assert y in InsertInOrder(x, s, leq) <==> y in multiset(InsertInOrder(x, s, leq));
    assert y in s <==> y in multiset(s);
  }

  lemma {:induction false} InsertSorted<T(!new)>(x: T, s: seq<T>, leq: (T, T) -> bool)
    requires TotalPreorder(leq) && Sorted(s, leq)
    ensures Sorted(InsertInOrder(x, s, leq), leq)
  {
    if s == [] || leq(x, s[0]) {
    } else {
      InsertSorted(x, s[1..], leq);
      var r := InsertInOrder(x, s[1..], leq);
      forall j | 0 <= j < |r| ensures leq(s[0], r[j]) {
        InsertMember(x, s[1..], leq, r[j]);
      }
    }
  }

  /** Sorting permutes its input and, for a total preorder, orders it. */
  lemma {:induction false} SortPermutes<T>(s: seq<T>, leq: (T, T) -> bool)
    ensures multiset(Sort(s, leq)) == multiset(s)
    ensures |Sort(s, leq)| == |s|
  {
    if s != [] {
      SortPermutes(s[1..], leq);
      InsertContents(s[0], Sort(s[1..], leq), leq);
      assert s == [s[0]] + s[1..];
      assert |multiset(Sort(s, leq))| == |multiset(s)|;
    }
  }

  lemma {:induction false} SortSorts<T(!new)>(s: seq<T>, leq: (T, T) -> bool)
    requires TotalPreorder(leq)
    ensures Sorted(Sort(s, leq), leq)
  {
    if s != [] {
      SortSorts(s[1..], leq);
      InsertSorted(s[0], Sort(s[1..], leq), leq);
    }
  }

  lemma SortMember<T>(s: seq<T>, leq: (T, T) -> bool, y: T)
    ensures y in Sort(s, leq) <==> y in s
  {
    SortPermutes(s, leq);
    assert y in s <==> y in multiset(s);
    assert y in Sort(s, leq) <==> y in multiset(Sort(s, leq));
  }

  /** An already sorted list is left as it is. */
  lemma {:induction false} SortFixesSorted<T>(s: seq<T>, leq: (T, T) -> bool)
    requires Sorted(s, leq)
    ensures Sort(s, leq) == s
  {
    if s != [] {
      SortFixesSorted(s[1..], leq);
      if |s| > 1 {
        assert leq(s[0], s[1]);
      }
    }
  }

  /** Byte-wise string order. */
  predicate LexLeq(a: string, b: string) {
    a == [] || (b != [] && (a[0] < b[0] || (a[0] == b[0] && LexLeq(a[1..], b[1..]))))
  }

  /** Up to i the strings agree, and there the first one has the smaller byte. */
  predicate LessAt(a: string, b: string, i: nat) {
    i < |a| && i < |b| && a[i] < b[i] && a[..i] == b[..i]
  }

  lemma LessAtTail(a: string, b: string, i: nat)
    requires a != [] && b != []
    ensures LessAt(a, b, 0) <==> a[0] < b[0]
    ensures LessAt(a, b, i + 1) <==> a[0] == b[0] && LessAt(a[1..], b[1..], i)
  {
    if i < |a| - 1 && i < |b| - 1 {
      assert a[..i + 1] == [a[0]] + a[1..][..i] && b[..i + 1] == [b[0]] + b[1..][..i];
      assert a[..i + 1][0] == a[0] && b[..i + 1][0] == b[0];
      assert a[..i + 1][1..] == a[1..][..i] && b[..i + 1][1..] == b[1..][..i];
    }
  }

  lemma PrefixOfTail(a: string, b: string)
    requires a != [] && b != []
    ensures a <= b <==> a[0] == b[0] && a[1..] <= b[1..]
  {
    assert a == [a[0]] + a[1..] && b == [b[0]] + b[1..];
    if a <= b {
      assert b[..|a|] == a && b[1..][..|a| - 1] == a[1..];
    }
  }

  /** The order of bytes: a prefix comes first, otherwise the first difference decides. */
  lemma {:induction false} LexExactly(a: string, b: string)
    ensures LexLeq(a, b) <==> a <= b || exists i: nat :: LessAt(a, b, i)
  {
    if a == [] {
      assert a <= b;
    } else if b != [] {
      var x, y := a[1..], b[1..];
      LexExactly(x, y);
      PrefixOfTail(a, b);
      LessAtTail(a, b, 0);
      hide LessAt;
      if i: nat :| LessAt(x, y, i) {
        LessAtTail(a, b, i);
        assert a[0] == b[0] ==> LessAt(a, b, i + 1);
      }
      if i: nat :| LessAt(a, b, i) {
        if i > 0 {
          LessAtTail(a, b, i - 1);
        }
      }
    }
  }

  lemma {:induction false} LexAntisymmetric(a: string, b: string)
    requires LexLeq(a, b) && LexLeq(b, a)
    ensures a == b
  {
    if a != [] {
      LexAntisymmetric(a[1..], b[1..]);
      assert a == [a[0]] + a[1..] && b == [b[0]] + b[1..];
    }
  }

  lemma {:induction false} LexTotal(a: string, b: string)
    ensures LexLeq(a, b) || LexLeq(b, a)
    ensures LexLeq(a, b) && LexLeq(b, a) ==> a == b
  {
    if a != [] && b != [] {
      LexTotal(a[1..], b[1..]);
      assert a == [a[0]] + a[1..] && b == [b[0]] + b[1..];
    }
  }

  lemma {:induction false} LexTransitive(a: string, b: string, c: string)
    requires LexLeq(a, b) && LexLeq(b, c)
    ensures LexLeq(a, c)
  {
    if a != [] && b != [] && c != [] && a[0] == b[0] == c[0] {
      LexTransitive(a[1..], b[1..], c[1..]);
    }
  }
}
