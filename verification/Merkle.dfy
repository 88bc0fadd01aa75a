/** The Merkle root of a block's transaction identifiers (CalculateMerkleRoot in blockchain/block.go). */
module Merkle {
  import opened Prelude
  import opened Transactions
  import opened Blocks

  const EMPTY_SET_LABEL := "Sudharma Network Empty Transaction Set"

  function HexValue(c: char): Option<nat> {
    if '0' <= c <= '9' then Some(c as int - '0' as int)
    else if 'a' <= c <= 'f' then Some(c as int - 'a' as int + 10)
    else if 'A' <= c <= 'F' then Some(c as int - 'A' as int + 10)
    else None
  }

  /** hex.DecodeString; None is its error. */
  function HexDecode(s: string): Option<string> {
    if s == "" then Some("")
    else if |s| == 1 then None
    else
      var hi, lo := HexValue(s[0]), HexValue(s[1]);
      var rest := HexDecode(s[2..]);
      if hi.None? || lo.None? || rest.None? then None
      else Some([(16 * hi.value + lo.value) as char] + rest.value)
  }

  function Leaf(sha: Sha, id: string): string {
    match HexDecode(id)
    case Some(bytes) => bytes
    case None => sha(id)
  }

  function Leaves(sha: Sha, txs: seq<Tx>): (nodes: seq<string>)
    ensures |nodes| == |txs|
  {
    if txs == [] then [] else Leaves(sha, txs[..|txs| - 1]) + [Leaf(sha, txs[|txs| - 1].id)]
  }

  /** The bytes hashed for the i-th node of the next level: a pair, or the last node with itself. */
  function Paired(nodes: seq<string>, i: nat): string
    requires 2 * i < |nodes|
  {
    nodes[2 * i] + nodes[if 2 * i + 1 < |nodes| then 2 * i + 1 else 2 * i]
  }

  function NextLevel(sha: Sha, nodes: seq<string>): (next: seq<string>)
    ensures |next| == (|nodes| + 1) / 2
  {
    seq((|nodes| + 1) / 2, i requires 0 <= i < (|nodes| + 1) / 2 => sha(Paired(nodes, i)))
  }

  /** The recursive definition: a single node is the root, otherwise the root of the next level. */
  function Root(sha: Sha, nodes: seq<string>): string
    requires nodes != []
    decreases |nodes|
  {
    if |nodes| == 1 then nodes[0] else Root(sha, NextLevel(sha, nodes))
  }

  function MerkleRoot(sha: Sha, txs: seq<Tx>): string {
    if txs == [] then Hex(sha(EMPTY_SET_LABEL)) else Hex(Root(sha, Leaves(sha, txs)))
  }

  /** The level-by-level loop computes the recursive definition. */
  method CalculateMerkleRoot(sha: Sha, txs: seq<Tx>) returns (root: string)
    ensures root == MerkleRoot(sha, txs)
  {
    if |txs| == 0 {
      return Hex(sha("Sudharma Network Empty Transaction Set"));
    }
    var hashes: seq<string> := [];
    for k := 0 to |txs|
      invariant hashes == Leaves(sha, txs[..k])
    {
      assert txs[..k + 1][..k] == txs[..k];
      hashes := hashes + [Leaf(sha, txs[k].id)];
    }
    assert txs[..|txs|] == txs;
    while |hashes| > 1
      invariant hashes != []
      invariant Root(sha, hashes) == Root(sha, Leaves(sha, txs))
      decreases |hashes|
    {
      var nextLevel: seq<string> := [];
      var i := 0;
      while i < |hashes|
        invariant 0 <= i <= |hashes| + 1 && i % 2 == 0 && |nextLevel| == i / 2
        invariant nextLevel == NextLevel(sha, hashes)[..i / 2]
      {
        var left := hashes[i];
        var right := left;
        if i + 1 < |hashes| {
          right := hashes[i + 1];
        }
        assert Paired(hashes, i / 2) == left + right;
        nextLevel := nextLevel + [sha(left + right)];
        i := i + 2;
      }
      assert i / 2 == |NextLevel(sha, hashes)|;
      assert nextLevel == NextLevel(sha, hashes);
      hashes := nextLevel;
    }
    root := Hex(hashes[0]);
  }

  // ----- what the root determines

  /** No two different byte strings, one hashed for each list's next level, have the same digest. */
  ghost predicate LevelFree(sha: Sha, s: seq<string>, t: seq<string>) {
    forall i, j :: 0 <= 2 * i < |s| && 0 <= 2 * j < |t| ==>
      (sha(Paired(s, i)) == sha(Paired(t, j)) ==> Paired(s, i) == Paired(t, j))
  }

  /** No such clash within or between the two lists, at this level or above. */
  ghost predicate NoClash(sha: Sha, s: seq<string>, t: seq<string>)
    decreases |s|
  {
    |s| > 1 && |t| > 1 ==>
      && LevelFree(sha, s, t) && LevelFree(sha, s, s) && LevelFree(sha, t, t)
      && NoClash(sha, NextLevel(sha, s), NextLevel(sha, t))
  }

  ghost predicate DigestSized(nodes: seq<string>) {
    forall i :: 0 <= i < |nodes| ==> |nodes[i]| == 32
  }

  ghost predicate IsDigest(s: string) {
    |s| == 32 && Bytes(s)
  }

  ghost predicate AllDigests(nodes: seq<string>) {
    forall i :: 0 <= i < |nodes| ==> IsDigest(nodes[i])
  }

  ghost predicate Distinct(nodes: seq<string>) {
    forall i, j :: 0 <= i < j < |nodes| ==> nodes[i] != nodes[j]
  }

  /** The number of levels above the leaves. */
  function Levels(n: nat): nat {
    if n <= 1 then 0 else 1 + Levels((n + 1) / 2)
  }

  lemma PairedParts(s: seq<string>, i: nat, t: seq<string>, j: nat)
    requires DigestSized(s) && DigestSized(t) && 2 * i < |s| && 2 * j < |t|
    requires Paired(s, i) == Paired(t, j)
    ensures s[2 * i] == t[2 * j]
    ensures s[if 2 * i + 1 < |s| then 2 * i + 1 else 2 * i] == t[if 2 * j + 1 < |t| then 2 * j + 1 else 2 * j]
  {
    var x, y := Paired(s, i), Paired(t, j);
    assert x[..32] == s[2 * i] && y[..32] == t[2 * j];
    assert x[32..] == s[if 2 * i + 1 < |s| then 2 * i + 1 else 2 * i];
    assert y[32..] == t[if 2 * j + 1 < |t| then 2 * j + 1 else 2 * j];
  }

  lemma NextLevelDistinct(sha: Sha, s: seq<string>)
    requires DigestSized(s) && Distinct(s) && LevelFree(sha, s, s)
    ensures Distinct(NextLevel(sha, s)) && DigestSized(NextLevel(sha, s))
  {
    var next := NextLevel(sha, s);
    forall i, j | 0 <= i < j < |next| ensures next[i] != next[j] {
      if next[i] == next[j] {
        PairedParts(s, i, s, j);
      }
    }
  }

  /** Equal levels come from equal lists when the lists repeat no node. */
  lemma LevelDetermines(sha: Sha, s: seq<string>, t: seq<string>)
    requires DigestSized(s) && DigestSized(t)
    requires (Distinct(s) && Distinct(t)) || |s| == |t|
    requires NextLevel(sha, s) == NextLevel(sha, t)
    requires forall i :: 0 <= i < |NextLevel(sha, s)| ==> Paired(s, i) == Paired(t, i)
    ensures s == t
  {
    var n := |NextLevel(sha, s)|;
    assert n == (|s| + 1) / 2 == (|t| + 1) / 2;
    if n > 0 {
      PairedParts(s, n - 1, t, n - 1);
      forall k | 0 <= k < |s| ensures k < |t| && s[k] == t[k] {
        assert Paired(s, k / 2) == Paired(t, k / 2);
        PairedParts(s, k / 2, t, k / 2);
      }
    }
  }

  /** With no clash on the way, lists of digests of equal length, or of distinct digests and equal depth, are equal
      when their roots are. */
  lemma {:induction false} RootDetermines(sha: Sha, s: seq<string>, t: seq<string>)
    requires s != [] && t != [] && DigestSized(s) && DigestSized(t)
    requires (Distinct(s) && Distinct(t) && Levels(|s|) == Levels(|t|)) || |s| == |t|
    requires NoClash(sha, s, t)
    requires Root(sha, s) == Root(sha, t)
    ensures s == t
    decreases |s|
  {
    if |s| > 1 && |t| > 1 {
      var s', t' := NextLevel(sha, s), NextLevel(sha, t);
      if Distinct(s) && Distinct(t) {
        NextLevelDistinct(sha, s);
        NextLevelDistinct(sha, t);
      }
      RootDetermines(sha, s', t');
      forall i | 0 <= i < |s'| ensures Paired(s, i) == Paired(t, i) {
        assert s'[i] == t'[i];
      }
      LevelDetermines(sha, s, t);
    }
  }

  /** Which leaf each slot of the completed binary tree holds when every level repeats its last node if it is odd. */
  function Slots(n: nat): (slots: seq<nat>)
    requires n >= 1
    ensures slots != [] && forall i :: 0 <= i < |slots| ==> slots[i] < n
  {
    if n == 1 then [0] else Spread(Slots((n + 1) / 2), n)
  }

  /** The two nodes under each node of the next level, in a level of n nodes. */
  function Spread(up: seq<nat>, n: nat): (slots: seq<nat>)
    requires forall i :: 0 <= i < |up| ==> 2 * up[i] < n
    ensures |slots| == 2 * |up| && forall i :: 0 <= i < |slots| ==> slots[i] < n
    ensures forall i {:trigger up[i]} :: 0 <= i < |up| ==>
              slots[2 * i] == 2 * up[i] && slots[2 * i + 1] == if 2 * up[i] + 1 < n then 2 * up[i] + 1 else 2 * up[i]
  {
    if up == [] then []
    else
      var u := up[|up| - 1];
      Spread(up[..|up| - 1], n) + [2 * u, if 2 * u + 1 < n then 2 * u + 1 else 2 * u]
  }

  /** The leaves of the completed tree. */
  function Completed<T>(s: seq<T>): (c: seq<T>)
    requires s != []
  {
    seq(|Slots(|s|)|, i requires 0 <= i < |Slots(|s|)| => s[Slots(|s|)[i]])
  }

  /** Two neighbouring slots are what one slot of the next level hashes. */
  lemma CompletedPairs(sha: Sha, s: seq<string>, i: nat)
    requires |s| > 1 && i < |Completed(NextLevel(sha, s))|
    ensures |Completed(s)| == 2 * |Completed(NextLevel(sha, s))|
    ensures var u := Slots(|NextLevel(sha, s)|)[i];
            && Completed(NextLevel(sha, s))[i] == sha(Paired(s, u))
            && Paired(s, u) == Completed(s)[2 * i] + Completed(s)[2 * i + 1]
  {
    hide Slots, NextLevel;
    SlotPair(|s|, i);
    NextLevelAt(sha, s, Slots(|NextLevel(sha, s)|)[i]);
  }

  lemma NextLevelAt(sha: Sha, s: seq<string>, u: nat)
    requires 2 * u < |s|
    ensures u < |NextLevel(sha, s)| && NextLevel(sha, s)[u] == sha(Paired(s, u))
  {
  }

  lemma SlotPair(n: nat, i: nat)
    requires n > 1 && i < |Slots((n + 1) / 2)|
    ensures |Slots(n)| == 2 * |Slots((n + 1) / 2)|
    ensures var u := Slots((n + 1) / 2)[i];
            && 2 * u < n && Slots(n)[2 * i] == 2 * u
            && Slots(n)[2 * i + 1] == if 2 * u + 1 < n then 2 * u + 1 else 2 * u
  {
    var up := Slots((n + 1) / 2);
    assert Slots(n) == Spread(up, n);
    hide Slots;
    assert up[i] < (n + 1) / 2;
  }

  /** With no clash on the way, two lists of digests of equal depth have the same root exactly when their completed
      leaf lists are the same. */
  lemma {:induction false} RootExactly(sha: Sha, s: seq<string>, t: seq<string>)
    requires s != [] && t != [] && DigestSized(s) && DigestSized(t)
    requires Levels(|s|) == Levels(|t|) && NoClash(sha, s, t)
    ensures Root(sha, s) == Root(sha, t) <==> Completed(s) == Completed(t)
    decreases |s|
  {
    hide Slots, LevelFree;
    if |s| == 1 {
      assert |t| == 1;
      CompletedSingle(s);
      CompletedSingle(t);
    } else {
      var s', t' := NextLevel(sha, s), NextLevel(sha, t);
      NextLevelDigests(sha, s);
      NextLevelDigests(sha, t);
      hide NextLevel;
      RootExactly(sha, s', t');
      LevelExactly(sha, s, t);
    }
  }

  lemma NextLevelDigests(sha: Sha, s: seq<string>)
    ensures AllDigests(NextLevel(sha, s)) && DigestSized(NextLevel(sha, s))
  {
    forall i | 0 <= i < |NextLevel(sha, s)| ensures IsDigest(NextLevel(sha, s)[i]) {
      assert NextLevel(sha, s)[i] == sha(Paired(s, i));
    }
  }

  lemma CompletedSingle(s: seq<string>)
    requires |s| == 1
    ensures Completed(s) == [s[0]]
  {
  }

  lemma LevelExactly(sha: Sha, s: seq<string>, t: seq<string>)
    requires |s| > 1 && |t| > 1 && DigestSized(s) && DigestSized(t) && LevelFree(sha, s, t)
    ensures Completed(NextLevel(sha, s)) == Completed(NextLevel(sha, t)) <==> Completed(s) == Completed(t)
  {
    hide Slots, NextLevel, Completed, LevelFree, DigestSized;
    CompletedNotEmpty(NextLevel(sha, s));
    CompletedNotEmpty(NextLevel(sha, t));
    var cs, ct := Completed(NextLevel(sha, s)), Completed(NextLevel(sha, t));
    CompletedPairs(sha, s, 0);
    CompletedPairs(sha, t, 0);
    if cs == ct {
      forall k | 0 <= k < |Completed(s)| ensures Completed(s)[k] == Completed(t)[k] {
        SlotsAgree(sha, s, t, k / 2);
        assert k == 2 * (k / 2) || k == 2 * (k / 2) + 1;
      }
    }
    if Completed(s) == Completed(t) {
      forall i | 0 <= i < |cs| ensures cs[i] == ct[i] {
        CompletedPairs(sha, s, i);
        CompletedPairs(sha, t, i);
      }
    }
  }

  lemma CompletedNotEmpty(s: seq<string>)
    requires s != []
    ensures Completed(s) != []
  {
  }

  lemma SlotsAgree(sha: Sha, s: seq<string>, t: seq<string>, i: nat)
    requires |s| > 1 && |t| > 1 && DigestSized(s) && DigestSized(t) && LevelFree(sha, s, t)
    requires i < |Completed(NextLevel(sha, s))| == |Completed(NextLevel(sha, t))|
    requires Completed(NextLevel(sha, s))[i] == Completed(NextLevel(sha, t))[i]
    ensures |Completed(s)| == |Completed(t)| == 2 * |Completed(NextLevel(sha, s))|
    ensures Completed(s)[2 * i] == Completed(t)[2 * i] && Completed(s)[2 * i + 1] == Completed(t)[2 * i + 1]
  {
    CompletedPairs(sha, s, i);
    CompletedPairs(sha, t, i);
    var u, v := Slots(|NextLevel(sha, s)|)[i], Slots(|NextLevel(sha, t)|)[i];
    assert Paired(s, u) == Paired(t, v);
    var x, y := Paired(s, u), Paired(t, v);
    assert x[..32] == Completed(s)[2 * i] && y[..32] == Completed(t)[2 * i];
    assert x[32..] == Completed(s)[2 * i + 1] && y[32..] == Completed(t)[2 * i + 1];
  }

  // ----- what the root of a transaction list determines

  /** An identifier in the form that calculateID gives it. */
  predicate Canonical(id: string) {
    |id| == 64 && LowerHex(id)
  }

  ghost predicate CanonicalIds(txs: seq<Tx>) {
    forall i :: 0 <= i < |txs| ==> Canonical(txs[i].id)
  }

  function IdList(txs: seq<Tx>): (ids: seq<string>)
    ensures |ids| == |txs|
  {
    seq(|txs|, i requires 0 <= i < |txs| => txs[i].id)
  }

  /** Decoding undoes encoding of bytes. */
  lemma {:induction false} HexRoundTrip(s: string)
    requires Bytes(s)
    ensures HexDecode(Hex(s)) == Some(s)
  {
    if s != "" {
      HexRoundTrip(s[1..]);
      var h := Hex(s);
      assert h[2..] == Hex(s[1..]);
      HexPair(s[0]);
      assert s == [s[0]] + s[1..];
    }
  }

  lemma HexPair(c: char)
    requires c as int < 256
    ensures HexValue(HexDigit(c as int / 16 % 16)) == Some(c as int / 16)
    ensures HexValue(HexDigit(c as int % 16)) == Some(c as int % 16)
  {
    hide HexValue, HexDigit;
    HexDigitValue(c as int / 16);
    HexDigitValue(c as int % 16);
  }

  lemma HexDigitValue(d: nat)
    requires d < 16
    ensures HexValue(HexDigit(d)) == Some(d)
  {
  }

  /** Encoding undoes decoding of lower-case text. */
  lemma {:induction false} UnhexRoundTrip(id: string)
    requires LowerHex(id) && |id| % 2 == 0
    ensures HexDecode(id).Some?
    ensures var d := HexDecode(id).value; |d| == |id| / 2 && Bytes(d) && Hex(d) == id
  {
    if id != "" {
      UnhexRoundTrip(id[2..]);
      UnhexPair(id[0], id[1]);
      hide HexValue, HexDigit;
      var d := HexDecode(id).value;
      assert d[1..] == HexDecode(id[2..]).value;
      assert id == [id[0], id[1]] + id[2..];
    }
  }

  lemma UnhexPair(a: char, b: char)
    requires LowerHex([a, b])
    ensures HexValue(a).Some? && HexValue(a).value < 16 && HexValue(b).Some? && HexValue(b).value < 16
    ensures var c := (16 * HexValue(a).value + HexValue(b).value) as char;
            c as int < 256 && HexDigit(c as int / 16 % 16) == a && HexDigit(c as int % 16) == b
  {
    hide HexValue, HexDigit;
    assert [a, b][0] == a && [a, b][1] == b;
    DigitOfValue(a);
    DigitOfValue(b);
    var hi, lo := HexValue(a).value, HexValue(b).value;
    var c := (16 * hi + lo) as char;
    assert c as int == 16 * hi + lo;
    assert (16 * hi + lo) / 16 == hi && (16 * hi + lo) % 16 == lo;
  }

  lemma DigitOfValue(c: char)
    requires '0' <= c <= '9' || 'a' <= c <= 'f'
    ensures HexValue(c).Some? && HexValue(c).value < 16 && HexDigit(HexValue(c).value) == c
  {
  }

  /** The leaf of a canonical identifier is the digest it encodes. */
  lemma {:induction false} LeavesOfCanonical(sha: Sha, txs: seq<Tx>)
    requires CanonicalIds(txs)
    ensures AllDigests(Leaves(sha, txs)) && DigestSized(Leaves(sha, txs))
    ensures forall i :: 0 <= i < |txs| ==> Hex(Leaves(sha, txs)[i]) == txs[i].id
  {
    hide Hex, HexDecode, LowerHex, Bytes;
    if txs != [] {
      LeavesOfCanonical(sha, txs[..|txs| - 1]);
      UnhexRoundTrip(txs[|txs| - 1].id);
    }
  }

  lemma {:induction false} RootIsDigest(sha: Sha, nodes: seq<string>)
    requires nodes != [] && AllDigests(nodes)
    ensures IsDigest(Root(sha, nodes))
    decreases |nodes|
  {
    if |nodes| > 1 {
      NextLevelDigests(sha, nodes);
      RootIsDigest(sha, NextLevel(sha, nodes));
    }
  }

  /** Two roots of canonical lists agree exactly when the roots of their leaves do. */
  lemma MerkleRootsAgree(sha: Sha, a: seq<Tx>, b: seq<Tx>)
    requires a != [] && b != [] && CanonicalIds(a) && CanonicalIds(b)
    ensures MerkleRoot(sha, a) == MerkleRoot(sha, b) <==> Root(sha, Leaves(sha, a)) == Root(sha, Leaves(sha, b))
    ensures DigestSized(Leaves(sha, a)) && DigestSized(Leaves(sha, b))
    ensures |MerkleRoot(sha, a)| == 64
  {
    hide Root, Leaves, HexDecode, Hex;
    LeavesOfCanonical(sha, a);
    LeavesOfCanonical(sha, b);
    RootIsDigest(sha, Leaves(sha, a));
    RootIsDigest(sha, Leaves(sha, b));
    HexRoundTrip(Root(sha, Leaves(sha, a)));
    HexRoundTrip(Root(sha, Leaves(sha, b)));
  }

  /**
   The root of a block determines its identifiers up to completion: with no clash on the way, two non-empty lists of
   canonical identifiers and equal depth have the same Merkle root exactly when their completed lists are the same.
   */
  lemma MerkleRootExactly(sha: Sha, a: seq<Tx>, b: seq<Tx>)
    requires a != [] && b != [] && CanonicalIds(a) && CanonicalIds(b)
    requires Levels(|a|) == Levels(|b|) && NoClash(sha, Leaves(sha, a), Leaves(sha, b))
    ensures MerkleRoot(sha, a) == MerkleRoot(sha, b) <==> Completed(IdList(a)) == Completed(IdList(b))
  {
    hide Root, Leaves, Slots, Hex, MerkleRoot, NoClash;
    MerkleRootsAgree(sha, a, b);
    RootExactly(sha, Leaves(sha, a), Leaves(sha, b));
    CompletedIds(sha, a);
    CompletedIds(sha, b);
    var s, t := Completed(Leaves(sha, a)), Completed(Leaves(sha, b));
    if Completed(IdList(a)) == Completed(IdList(b)) {
      assert forall i :: 0 <= i < |s| ==> HexDecode(Hex(s[i])) == Some(s[i]);
      assert forall i :: 0 <= i < |t| ==> HexDecode(Hex(t[i])) == Some(t[i]);
      forall i | 0 <= i < |s| ensures s[i] == t[i] {
        assert Completed(IdList(a))[i] == Hex(s[i]) && Completed(IdList(b))[i] == Hex(t[i]);
      }
    }
    if s == t {
      forall i | 0 <= i < |s| ensures Completed(IdList(a))[i] == Completed(IdList(b))[i] {
        assert Completed(IdList(a))[i] == Hex(s[i]) && Completed(IdList(b))[i] == Hex(t[i]);
      }
    }
  }

  lemma CompletedIds(sha: Sha, txs: seq<Tx>)
    requires txs != [] && CanonicalIds(txs)
    ensures |Completed(IdList(txs))| == |Completed(Leaves(sha, txs))|
    ensures forall i :: 0 <= i < |Completed(Leaves(sha, txs))| ==>
              && Completed(IdList(txs))[i] == Hex(Completed(Leaves(sha, txs))[i])
              && HexDecode(Hex(Completed(Leaves(sha, txs))[i])) == Some(Completed(Leaves(sha, txs))[i])
  {
    hide Leaves, Slots, Hex, HexDecode;
    LeavesOfCanonical(sha, txs);
    forall k | 0 <= k < |txs| ensures HexDecode(Hex(Leaves(sha, txs)[k])) == Some(Leaves(sha, txs)[k]) {
      HexRoundTrip(Leaves(sha, txs)[k]);
    }
  }

  /** Lists of equal length, or of distinct identifiers and equal depth, are told apart by their root. */
  lemma MerkleRootDetermines(sha: Sha, a: seq<Tx>, b: seq<Tx>)
    requires a != [] && b != [] && CanonicalIds(a) && CanonicalIds(b)
    requires (DistinctIds(a) && DistinctIds(b) && Levels(|a|) == Levels(|b|)) || |a| == |b|
    requires NoClash(sha, Leaves(sha, a), Leaves(sha, b)) && MerkleRoot(sha, a) == MerkleRoot(sha, b)
    ensures IdList(a) == IdList(b)
  {
    hide Root, Leaves, Hex, MerkleRoot, NoClash, HexDecode;
    MerkleRootsAgree(sha, a, b);
    LeavesOfCanonical(sha, a);
    LeavesOfCanonical(sha, b);
    RootDetermines(sha, Leaves(sha, a), Leaves(sha, b));
  }

  // ----- inputs on which the root does not determine the list

  /** Identifiers are decoded without regard to case. */
  lemma UpperCaseKeepsRoot(sha: Sha, t: Tx, u: Tx)
    requires t.id == "ab" && u.id == "AB"
    ensures IdList([t]) != IdList([u]) && MerkleRoot(sha, [t]) == MerkleRoot(sha, [u])
  {
    assert HexDecode("ab"[2..]) == HexDecode("AB"[2..]) == Some("");
    assert Leaf(sha, "ab") == Leaf(sha, "AB");
    assert Leaves(sha, [t]) == [Leaf(sha, t.id)] && Leaves(sha, [u]) == [Leaf(sha, u.id)];
    assert IdList([t])[0] != IdList([u])[0];
  }

  /** An identifier can be the inner node above two others, so lists of unequal depth can share a root. */
  lemma UnequalDepthKeepsRoot(sha: Sha, t: Tx, u: Tx, v: Tx)
    requires Canonical(u.id) && Canonical(v.id)
    requires t.id == Hex(sha(Leaf(sha, u.id) + Leaf(sha, v.id)))
    ensures Canonical(t.id) && MerkleRoot(sha, [t]) == MerkleRoot(sha, [u, v])
  {
    hide Hex, HexDecode;
    var pair := Leaf(sha, u.id) + Leaf(sha, v.id);
    HexRoundTrip(sha(pair));
    assert Leaves(sha, [t]) == [sha(pair)] by {
      assert [t][..0] == [];
    }
    assert [u, v][..1] == [u] && [u][..0] == [];
    var leaves := Leaves(sha, [u, v]);
    assert Leaves(sha, [u]) == [Leaf(sha, u.id)];
    assert leaves == Leaves(sha, [u]) + [Leaf(sha, v.id)];
    assert Paired(leaves, 0) == pair;
    assert NextLevel(sha, leaves) == [sha(pair)];
  }

  /** An identifier that is not hexadecimal shares its leaf with the text of its own digest. */
  lemma TextKeepsRoot(sha: Sha, t: Tx, u: Tx)
    requires HexDecode(t.id).None? && u.id == Hex(sha(t.id))
    ensures t.id != u.id && MerkleRoot(sha, [t]) == MerkleRoot(sha, [u])
  {
    HexRoundTrip(sha(t.id));
    assert Leaves(sha, [t]) == [Leaf(sha, t.id)] && Leaves(sha, [u]) == [Leaf(sha, u.id)];
  }

  /** Without the distinctness the root does not determine the list: repeating the last of three leaves keeps it. */
  lemma RepeatedLastLeafKeepsRoot(sha: Sha, a: string, b: string, c: string)
    ensures Root(sha, [a, b, c]) == Root(sha, [a, b, c, c])
  {
    assert Paired([a, b, c], 0) == Paired([a, b, c, c], 0);
    assert Paired([a, b, c], 1) == Paired([a, b, c, c], 1);
    assert NextLevel(sha, [a, b, c]) == NextLevel(sha, [a, b, c, c]);
  }
}
