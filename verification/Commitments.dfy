/**
 What identifiers, Merkle roots and block hashes commit to, as long as SHA-256 does not collide on the byte strings that
 are hashed for the chains at hand (calculateID in transactions/transaction.go, blockchain/block.go).
 */
module Commitments {
  import opened Prelude
  import opened Params
  import opened Transactions
  import opened Decimals
  import opened Ledgers
  import opened Conservation
  import opened Effects
  import opened Blocks
  import opened Merkle
  import opened Chains
  import opened Replaying

  // ----- identifiers

  /** The text whose digest is a transaction's identifier. */
  function IdText(tx: Tx): string {
    tx.sender + "|" + tx.receiver + "|" + Decimal(tx.amount) + "|" + Decimal(tx.fee) + "|" + Decimal(tx.nonce)
  }

  function IdOf(sha: Sha, tx: Tx): string {
    Hex(sha(IdText(tx)))
  }

  /** The check recomputes the identifier, as VerifyForNetwork does. */
  ghost predicate ChecksIds(sha: Sha, check: SignatureCheck) {
    forall tx, network :: check(tx, network) ==> tx.id == IdOf(sha, tx)
  }

  /** SHA-256 tells these byte strings apart. */
  ghost predicate CollisionFree(sha: Sha, inputs: set<string>) {
    forall x, y :: x in inputs && y in inputs && sha(x) == sha(y) ==> x == y
  }

  /** Texts are split by the first bar. */
  lemma BarSplits(a: string, s: string, b: string, t: string)
    requires '|' !in a && '|' !in b && a + "|" + s == b + "|" + t
    ensures a == b && s == t
  {
    var x := a + "|" + s;
    assert x[|a|] == '|' && x[|b|] == '|';
    assert x[..|a|] == a && x[..|b|] == b;
    assert x[|a| + 1..] == s && x[|b| + 1..] == t;
  }

  lemma DecimalHasNoBar(n: nat)
    ensures '|' !in Decimal(n)
  {
  }

  lemma DecimalDetermines(n: nat, m: nat)
    requires Decimal(n) == Decimal(m)
    ensures n == m
  {
    hide Decimal;
    DecimalRoundTrip(n);
    DecimalRoundTrip(m);
  }

  lemma AddressHasNoBar(a: string)
    requires ValidAddress(a)
    ensures '|' !in a
  {
  }

  ghost predicate ProperParties(tx: Tx) {
    ValidAddress(tx.sender) && ValidAddress(tx.receiver)
  }

  lemma IdTextTail(tx: Tx)
    ensures IdText(tx) == tx.sender + "|" + (tx.receiver + "|" + (Decimal(tx.amount) + "|" + (Decimal(tx.fee) + "|" + Decimal(tx.nonce))))
  {
    hide Decimal;
  }

  /** The text of an identifier determines the payment. */
  lemma IdTextDetermines(t: Tx, u: Tx)
    requires ProperParties(t) && ProperParties(u) && IdText(t) == IdText(u)
    ensures PaymentOf(t) == PaymentOf(u)
  {
    hide Decimal, ValidAddress, IdText;
    IdTextTail(t);
    IdTextTail(u);
    AddressHasNoBar(t.sender);
    AddressHasNoBar(u.sender);
    AddressHasNoBar(t.receiver);
    AddressHasNoBar(u.receiver);
    DecimalHasNoBar(t.amount);
    DecimalHasNoBar(u.amount);
    DecimalHasNoBar(t.fee);
    DecimalHasNoBar(u.fee);
    var t3, u3 := Decimal(t.fee) + "|" + Decimal(t.nonce), Decimal(u.fee) + "|" + Decimal(u.nonce);
    var t2, u2 := Decimal(t.amount) + "|" + t3, Decimal(u.amount) + "|" + u3;
    BarSplits(t.sender, t.receiver + "|" + t2, u.sender, u.receiver + "|" + u2);
    BarSplits(t.receiver, t2, u.receiver, u2);
    BarSplits(Decimal(t.amount), t3, Decimal(u.amount), u3);
    BarSplits(Decimal(t.fee), Decimal(t.nonce), Decimal(u.fee), Decimal(u.nonce));
    DecimalDetermines(t.amount, u.amount);
    DecimalDetermines(t.fee, u.fee);
    DecimalDetermines(t.nonce, u.nonce);
  }

  lemma IdTextIsLong(tx: Tx)
    requires ProperParties(tx)
    ensures |IdText(tx)| > 64
  {
    hide Decimal;
  }

  lemma HexDetermines(s: string, t: string)
    requires Bytes(s) && Bytes(t) && Hex(s) == Hex(t)
    ensures s == t
  {
    hide Hex, HexDecode;
    HexRoundTrip(s);
    HexRoundTrip(t);
  }

  /** Equal identifiers name equal payments. */
  lemma IdDetermines(sha: Sha, t: Tx, u: Tx, inputs: set<string>)
    requires ProperParties(t) && ProperParties(u) && t.id == IdOf(sha, t) && u.id == IdOf(sha, u) && t.id == u.id
    requires CollisionFree(sha, inputs) && IdText(t) in inputs && IdText(u) in inputs
    ensures PaymentOf(t) == PaymentOf(u)
  {
    hide IdText, Hex;
    HexDetermines(sha(IdText(t)), sha(IdText(u)));
    IdTextDetermines(t, u);
  }

  // ----- Merkle roots

  /** The byte strings hashed above the leaves. */
  ghost function TreeInputs(sha: Sha, nodes: seq<string>): set<string>
    decreases |nodes|
  {
    if |nodes| <= 1 then {}
    else (set i | 0 <= 2 * i < |nodes| && 0 <= i < |nodes| :: Paired(nodes, i)) + TreeInputs(sha, NextLevel(sha, nodes))
  }

  lemma PairedIsInput(sha: Sha, nodes: seq<string>, i: nat)
    requires |nodes| > 1 && 2 * i < |nodes|
    ensures Paired(nodes, i) in TreeInputs(sha, nodes)
  {
    hide Paired;
  }

  lemma {:induction false} NoClashInTrees(sha: Sha, s: seq<string>, t: seq<string>, inputs: set<string>)
    requires CollisionFree(sha, inputs) && TreeInputs(sha, s) <= inputs && TreeInputs(sha, t) <= inputs
    ensures NoClash(sha, s, t)
    decreases |s|
  {
    hide Paired;
    if |s| > 1 && |t| > 1 {
      forall i | 0 <= 2 * i < |s| ensures Paired(s, i) in inputs {
        PairedIsInput(sha, s, i);
      }
      forall i | 0 <= 2 * i < |t| ensures Paired(t, i) in inputs {
        PairedIsInput(sha, t, i);
      }
      NoClashInTrees(sha, NextLevel(sha, s), NextLevel(sha, t), inputs);
    }
  }

  /** Trees of equal depth and equal root have the same first node. */
  lemma {:induction false} FirstNodesAgree(sha: Sha, s: seq<string>, t: seq<string>)
    requires s != [] && t != [] && DigestSized(s) && DigestSized(t) && NoClash(sha, s, t)
    requires Levels(|s|) == Levels(|t|) && Root(sha, s) == Root(sha, t)
    ensures s[0] == t[0]
    decreases |s|
  {
    if |s| > 1 {
      var s', t' := NextLevel(sha, s), NextLevel(sha, t);
      NextLevelDigests(sha, s);
      NextLevelDigests(sha, t);
      FirstNodesAgree(sha, s', t');
      assert s'[0] == sha(Paired(s, 0)) && t'[0] == sha(Paired(t, 0));
      PairedParts(s, 0, t, 0);
    }
  }

  /** If the second tree is deeper, the first leaf of the first one is the digest of a 64-byte input of the second. */
  lemma {:induction false} DeeperTree(sha: Sha, s: seq<string>, t: seq<string>, inputs: set<string>) returns (x: string)
    requires s != [] && t != [] && DigestSized(s) && DigestSized(t)
    requires CollisionFree(sha, inputs) && TreeInputs(sha, s) <= inputs && TreeInputs(sha, t) <= inputs
    requires Levels(|s|) < Levels(|t|) && Root(sha, s) == Root(sha, t)
    ensures x in inputs && |x| == 64 && s[0] == sha(x)
    decreases |t|
  {
    hide Paired, CollisionFree;
    var t' := NextLevel(sha, t);
    NextLevelDigests(sha, t);
    if Levels(|t'|) == Levels(|s|) {
      NoClashInTrees(sha, s, t', inputs);
      FirstNodesAgree(sha, s, t');
      x := Paired(t, 0);
      PairedIsInput(sha, t, 0);
      PairedIsLong(t, 0);
    } else {
      x := DeeperTree(sha, s, t', inputs);
    }
  }

  lemma PairedIsLong(s: seq<string>, i: nat)
    requires DigestSized(s) && 2 * i < |s|
    ensures |Paired(s, i)| == 64
  {
  }

  /** Identifiers that are digests of proper texts, no two of them equal. */
  ghost predicate ProperIds(sha: Sha, txs: seq<Tx>) {
    && DistinctIds(txs)
    && forall i :: 0 <= i < |txs| ==> ProperParties(txs[i]) && txs[i].id == IdOf(sha, txs[i])
  }

  ghost function IdTexts(txs: seq<Tx>): set<string> {
    set i | 0 <= i < |txs| :: IdText(txs[i])
  }

  ghost function RootInputs(sha: Sha, txs: seq<Tx>): set<string> {
    {EMPTY_SET_LABEL} + IdTexts(txs) + TreeInputs(sha, Leaves(sha, txs))
  }

  lemma IdIsCanonical(sha: Sha, txs: seq<Tx>)
    requires ProperIds(sha, txs)
    ensures CanonicalIds(txs)
  {
    hide IdText, Hex;
  }

  lemma LeafIsDigest(sha: Sha, txs: seq<Tx>, i: nat)
    requires ProperIds(sha, txs) && i < |txs|
    ensures Leaves(sha, txs)[i] == sha(IdText(txs[i]))
  {
    hide IdText, Hex, HexDecode, Leaves;
    IdIsCanonical(sha, txs);
    LeavesOfCanonical(sha, txs);
    HexDetermines(Leaves(sha, txs)[i], sha(IdText(txs[i])));
  }

  lemma ToldApart(sha: Sha, inputs: set<string>, x: string, y: string)
    requires CollisionFree(sha, inputs) && x in inputs && y in inputs && sha(x) == sha(y)
    ensures x == y
  {
  }

  /** The first leaf of a list is no inner node of another tree. */
  lemma NotDeeper(sha: Sha, a: seq<Tx>, b: seq<Tx>, inputs: set<string>)
    requires a != [] && b != [] && ProperIds(sha, a) && ProperIds(sha, b)
    requires CollisionFree(sha, inputs) && RootInputs(sha, a) <= inputs && RootInputs(sha, b) <= inputs
    requires Root(sha, Leaves(sha, a)) == Root(sha, Leaves(sha, b))
    ensures Levels(|a|) >= Levels(|b|)
  {
    hide IdText, Leaves, TreeInputs, Levels, Root, CollisionFree, DigestSized, ProperIds, RootInputs;
    FirstLeaf(sha, a);
    FirstLeaf(sha, b);
    if Levels(|a|) < Levels(|b|) {
      var x := DeeperTree(sha, Leaves(sha, a), Leaves(sha, b), inputs);
      ToldApart(sha, inputs, x, IdText(a[0]));
    }
  }

  lemma FirstLeaf(sha: Sha, txs: seq<Tx>)
    requires txs != [] && ProperIds(sha, txs)
    ensures Leaves(sha, txs)[0] == sha(IdText(txs[0])) && DigestSized(Leaves(sha, txs))
    ensures IdText(txs[0]) in RootInputs(sha, txs) && |IdText(txs[0])| > 64
    ensures TreeInputs(sha, Leaves(sha, txs)) <= RootInputs(sha, txs)
  {
    hide IdText, Leaves, TreeInputs, AllDigests, DigestSized, CanonicalIds, ProperParties;
    IdIsCanonical(sha, txs);
    LeavesOfCanonical(sha, txs);
    LeafIsDigest(sha, txs, 0);
    IdTextIsLong(txs[0]);
    assert IdText(txs[0]) in IdTexts(txs);
  }

  lemma {:induction false} RootOfTree(sha: Sha, nodes: seq<string>) returns (x: string)
    requires |nodes| > 1 && DigestSized(nodes)
    ensures x in TreeInputs(sha, nodes) && |x| == 64 && Root(sha, nodes) == sha(x)
    decreases |nodes|
  {
    var next := NextLevel(sha, nodes);
    NextLevelDigests(sha, nodes);
    if |next| == 1 {
      x := Paired(nodes, 0);
      PairedIsInput(sha, nodes, 0);
    } else {
      x := RootOfTree(sha, next);
    }
  }

  /** No list of transactions has the root of the empty list. */
  lemma RootOfSome(sha: Sha, txs: seq<Tx>, inputs: set<string>)
    requires txs != [] && ProperIds(sha, txs) && CollisionFree(sha, inputs) && RootInputs(sha, txs) <= inputs
    ensures MerkleRoot(sha, txs) != MerkleRoot(sha, [])
  {
    hide IdText, Leaves, TreeInputs, Hex, Root;
    IdIsCanonical(sha, txs);
    LeavesOfCanonical(sha, txs);
    var leaves := Leaves(sha, txs);
    RootIsDigest(sha, leaves);
    var x: string;
    if |txs| == 1 {
      LeafIsDigest(sha, txs, 0);
      IdTextIsLong(txs[0]);
      x := IdText(txs[0]);
      assert x in IdTexts(txs);
      assert Root(sha, leaves) == sha(x) by { SingleRoot(sha, leaves); }
    } else {
      x := RootOfTree(sha, leaves);
    }
    assert |EMPTY_SET_LABEL| == 38;
    if MerkleRoot(sha, txs) == MerkleRoot(sha, []) {
      HexDetermines(Root(sha, leaves), sha(EMPTY_SET_LABEL));
    }
  }

  lemma SingleRoot(sha: Sha, nodes: seq<string>)
    requires |nodes| == 1
    ensures Root(sha, nodes) == nodes[0]
  {
  }

  /** The Merkle root of a processed list determines its payments. */
  lemma RootCommitsToPayments(sha: Sha, a: seq<Tx>, b: seq<Tx>, inputs: set<string>)
    requires ProperIds(sha, a) && ProperIds(sha, b) && MerkleRoot(sha, a) == MerkleRoot(sha, b)
    requires CollisionFree(sha, inputs) && RootInputs(sha, a) <= inputs && RootInputs(sha, b) <= inputs
    ensures SamePayments(a, b)
  {
    hide IdText, Leaves, TreeInputs, Hex, Root, MerkleRoot;
    if a == [] || b == [] {
      if a != [] {
        RootOfSome(sha, a, inputs);
      }
      if b != [] {
        RootOfSome(sha, b, inputs);
      }
    } else {
      IdIsCanonical(sha, a);
      IdIsCanonical(sha, b);
      MerkleRootsAgree(sha, a, b);
      NotDeeper(sha, a, b, inputs);
      NotDeeper(sha, b, a, inputs);
      NoClashInTrees(sha, Leaves(sha, a), Leaves(sha, b), inputs);
      MerkleRootDetermines(sha, a, b);
      SameIdsSamePayments(sha, a, b, inputs);
    }
  }

  lemma SameIdsSamePayments(sha: Sha, a: seq<Tx>, b: seq<Tx>, inputs: set<string>)
    requires ProperIds(sha, a) && ProperIds(sha, b) && IdList(a) == IdList(b)
    requires CollisionFree(sha, inputs) && IdTexts(a) <= inputs && IdTexts(b) <= inputs
    ensures SamePayments(a, b)
  {
    hide IdText, Hex;
    assert |a| == |IdList(a)| == |IdList(b)| == |b|;
    forall i | 0 <= i < |a| ensures a[i].id == b[i].id && PaymentOf(a[i]) == PaymentOf(b[i]) {
      assert IdList(a)[i] == IdList(b)[i];
      assert IdText(a[i]) in IdTexts(a) && IdText(b[i]) in IdTexts(b);
      IdDetermines(sha, a[i], b[i], inputs);
    }
  }

  // ----- blocks

  ghost function BlockInputs(sha: Sha, b: Block): set<string> {
    {Header(b), sha(Header(b))} + RootInputs(sha, b.txs)
  }

  /** Everything hashed for a sequence of blocks. */
  ghost function ChainInputs(sha: Sha, blocks: seq<Block>): set<string> {
    if blocks == [] then {} else ChainInputs(sha, blocks[..|blocks| - 1]) + BlockInputs(sha, blocks[|blocks| - 1])
  }

  lemma {:induction false} BlockInputsIncluded(sha: Sha, blocks: seq<Block>, i: nat)
    requires i < |blocks|
    ensures BlockInputs(sha, blocks[i]) <= ChainInputs(sha, blocks)
  {
    hide BlockInputs;
    if i < |blocks| - 1 {
      BlockInputsIncluded(sha, blocks[..|blocks| - 1], i);
    }
  }

  /** Equal hashes mean equal headers. */
  lemma HashDeterminesHeader(sha: Sha, b: Block, c: Block, inputs: set<string>)
    requires CollisionFree(sha, inputs) && BlockInputs(sha, b) <= inputs && BlockInputs(sha, c) <= inputs
    ensures !Collision(sha, b, c)
  {
    hide Header, Hex, RootInputs;
    if BlockHash(sha, b) == BlockHash(sha, c) {
      HexDetermines(sha(sha(Header(b))), sha(sha(Header(c))));
    }
  }

  /** What validation and processing establish about a block above genesis. */
  ghost predicate Sealed(sha: Sha, b: Block) {
    |b.previousHash| == 64 && b.merkleRoot == MerkleRoot(sha, b.txs) && ProperIds(sha, b.txs)
  }

  /** Two blocks that say the same, up to signatures. */
  ghost predicate SameRecord(b: Block, c: Block) {
    && b.version == c.version && b.height == c.height && b.difficulty == c.difficulty && b.nonce == c.nonce
    && b.timestamp % 0x1_0000_0000_0000_0000 == c.timestamp % 0x1_0000_0000_0000_0000
    && b.previousHash == c.previousHash && b.merkleRoot == c.merkleRoot && b.miner == c.miner
    && SamePayments(b.txs, c.txs)
  }

  lemma RootIsHashSized(sha: Sha, txs: seq<Tx>)
    requires ProperIds(sha, txs)
    ensures |MerkleRoot(sha, txs)| == 64
  {
    hide Leaves, Root, Hex, ProperIds;
    if txs != [] {
      IdIsCanonical(sha, txs);
      MerkleRootsAgree(sha, txs, txs);
    }
  }

  /** The hash of a sealed block commits to all of it but the signatures. */
  lemma HashCommits(sha: Sha, b: Block, c: Block, inputs: set<string>)
    requires Sealed(sha, b) && Sealed(sha, c) && BlockHash(sha, b) == BlockHash(sha, c)
    requires CollisionFree(sha, inputs) && BlockInputs(sha, b) <= inputs && BlockInputs(sha, c) <= inputs
    ensures SameRecord(b, c)
  {
    hide Header, BlockHash, MerkleRoot, ProperIds, CollisionFree, RootInputs, SamePayments;
    HashDeterminesHeader(sha, b, c, inputs);
    RootIsHashSized(sha, b.txs);
    RootIsHashSized(sha, c.txs);
    HeaderDetermines(b, c);
    HeaderDeterminesStrings(b, c);
    RootCommitsToPayments(sha, b.txs, c.txs, inputs);
  }

  /** Without that form of identifiers the header does not tell where the Merkle root ends and the miner begins: these
      two blocks have correct roots, equal headers and different transactions. */
  lemma ShortIdsShareHeader(sha: Sha, b: Block, t: Tx, u: Tx)
    requires t.id == "abcd" && u.id == "ab"
    ensures var x := b.(merkleRoot := "abcd", txs := [t]);
            var y := b.(merkleRoot := "ab", miner := "cd" + b.miner, txs := [u]);
            && x.merkleRoot == MerkleRoot(sha, x.txs) && y.merkleRoot == MerkleRoot(sha, y.txs)
            && Header(x) == Header(y) && IdList(x.txs) != IdList(y.txs)
  {
    hide Header, MerkleRoot;
    RootOfOne(sha, t);
    RootOfOne(sha, u);
    HeaderRegroups(b.(txs := [t]), "ab", "cd");
    HeaderIgnoresTxs(b.(merkleRoot := "ab", miner := "cd" + b.miner, txs := [t]), [u]);
    assert "ab" + "cd" == "abcd";
    assert IdList([t])[0] != IdList([u])[0];
  }

  lemma RootOfOne(sha: Sha, t: Tx)
    requires LowerHex(t.id) && |t.id| % 2 == 0
    ensures MerkleRoot(sha, [t]) == t.id
  {
    hide Hex, HexDecode;
    UnhexRoundTrip(t.id);
    assert Leaves(sha, [t]) == [Leaf(sha, t.id)];
  }

  lemma HeaderRegroups(b: Block, x: string, y: string)
    ensures Header(b.(merkleRoot := x + y)) == Header(b.(merkleRoot := x, miner := y + b.miner))
  {
    hide BigEndian;
  }

  lemma HeaderIgnoresTxs(b: Block, txs: seq<Tx>)
    ensures Header(b.(txs := txs)) == Header(b)
  {
    hide BigEndian;
  }

  // ----- chains

  ghost predicate SealedChain(sha: Sha, blocks: seq<Block>) {
    Linked(sha, blocks) && forall i :: 0 < i < |blocks| ==> Sealed(sha, blocks[i])
  }

  /** Equal hashes at one height: everything at and below it is the same, up to signatures. */
  lemma SameHashSameHistory(sha: Sha, a: seq<Block>, b: seq<Block>, h: nat, i: nat, inputs: set<string>)
    requires SealedChain(sha, a) && SealedChain(sha, b) && i <= h < |a| && h < |b|
    requires CollisionFree(sha, inputs) && ChainInputs(sha, a) <= inputs && ChainInputs(sha, b) <= inputs
    requires BlockHash(sha, a[h]) == BlockHash(sha, b[h])
    ensures BlockHash(sha, a[i]) == BlockHash(sha, b[i]) && Header(a[i]) == Header(b[i])
    ensures i > 0 ==> SameRecord(a[i], b[i])
  {
    hide Header, BlockHash, Sealed, CollisionFree, BlockInputs, SameRecord, Collision;
    forall k | 0 <= k <= h ensures !Collision(sha, a[k], b[k]) {
      BlockInputsIncluded(sha, a, k);
      BlockInputsIncluded(sha, b, k);
      HashDeterminesHeader(sha, a[k], b[k], inputs);
    }
    HashesAgreeBelow(sha, a, b, h, i);
    if i > 0 {
      BlockInputsIncluded(sha, a, i);
      BlockInputsIncluded(sha, b, i);
      HashCommits(sha, a[i], b[i], inputs);
    }
  }

  lemma {:induction false} RunChecks(check: SignatureCheck, l: Ledger, txs: seq<Tx>, network: Network, i: nat)
    requires Run(check, l, txs, network).Ok? && i < |txs|
    ensures check(txs[i], network) && ProperParties(txs[i])
  {
    hide ApplyTx;
    RunFront(check, l, txs, network);
    if i == |txs| - 1 {
      AppliedIsChecked(check, Run(check, l, txs[..i], network).value, txs[i], network);
    } else {
      RunChecks(check, l, txs[..|txs| - 1], network, i);
    }
  }

  lemma AppliedIsChecked(check: SignatureCheck, l: Ledger, tx: Tx, network: Network)
    requires ApplyTx(check, l, tx, network).Ok?
    ensures check(tx, network) && ProperParties(tx)
  {
    hide CalculateFee, DevelopmentFee, MiningFee, ValidAddress, EstimatedSize;
  }

  lemma RunIsProper(sha: Sha, check: SignatureCheck, l: Ledger, txs: seq<Tx>, network: Network)
    requires ChecksIds(sha, check) && Run(check, l, txs, network).Ok?
    ensures ProperIds(sha, txs)
  {
    hide Run, IdOf, ProperParties;
    RunIds(check, l, txs, network);
    forall i | 0 <= i < |txs| ensures ProperParties(txs[i]) && txs[i].id == IdOf(sha, txs[i]) {
      RunChecks(check, l, txs, network, i);
    }
  }

  /** A valid chain that replays is sealed. */
  lemma ReplayedIsSealed(sha: Sha, cfg: Config, check: SignatureCheck, policy: Policy, blocks: seq<Block>)
    requires ValidChain(sha, cfg, blocks) && ChecksIds(sha, check)
    requires !policy.OtherPolicy? && Replay(check, policy, blocks).Ok?
    ensures SealedChain(sha, blocks)
  {
    hide Extends, GenesisFault, Replay, ProcessBlock, ProperIds, ChecksIds, MerkleRoot, BlockHash, Run, Backed;
    ValidIsLinked(sha, cfg, blocks);
    forall i | 0 < i < |blocks| ensures Sealed(sha, blocks[i]) {
      ExtensionShape(sha, cfg, blocks[..i], blocks[i]);
      var upto, b := blocks[..i + 1], blocks[i];
      ReplayPrefix(check, policy, blocks, i + 1);
      ReplayFront(check, policy, upto);
      assert upto[..i] == blocks[..i];
      ReplayIsBacked(check, policy, blocks[..i]);
      var l := Replay(check, policy, blocks[..i]).value;
      BlockKeepsRunMarks(check, l, policy, b.height, b.txs, b.miner);
      RunIsProper(sha, check, l, b.txs, NetworkFor(policy).value);
    }
  }

  // ----- ledgers

  lemma ApplySamePayment(check: SignatureCheck, l: Ledger, t: Tx, u: Tx, network: Network)
    requires t.id == u.id && PaymentOf(t) == PaymentOf(u)
    requires ApplyTx(check, l, t, network).Ok? && ApplyTx(check, l, u, network).Ok?
    ensures ApplyTx(check, l, t, network) == ApplyTx(check, l, u, network)
  {
    hide CalculateFee, DevelopmentFee, MiningFee, WithinResourceBounds, Credit, Debit;
  }

  lemma {:induction false} CollectSamePayments(check: SignatureCheck, l: Ledger, a: seq<Tx>, b: seq<Tx>, network: Network)
    requires SamePayments(a, b)
    requires RunCollecting(check, l, a, network).Ok? && RunCollecting(check, l, b, network).Ok?
    ensures RunCollecting(check, l, a, network) == RunCollecting(check, l, b, network)
  {
    hide ApplyTx, MiningFee;
    if a != [] {
      var a', b', t, u := a[..|a| - 1], b[..|b| - 1], a[|a| - 1], b[|b| - 1];
      CollectSamePayments(check, l, a', b', network);
      ApplySamePayment(check, RunCollecting(check, l, a', network).value.0, t, u, network);
    }
  }

  /** Chains that say the same, up to signatures, replay to the same ledger. */
  lemma {:induction false} ReplaySameRecords(check: SignatureCheck, policy: Policy, a: seq<Block>, b: seq<Block>)
    requires |a| == |b| && forall i :: 0 < i < |a| ==> SameRecord(a[i], b[i])
    requires Replay(check, policy, a).Ok? && Replay(check, policy, b).Ok?
    ensures Replay(check, policy, a) == Replay(check, policy, b)
  {
    if |a| > 1 {
      var x, y := a[|a| - 1], b[|b| - 1];
      ReplayFront(check, policy, a);
      ReplayFront(check, policy, b);
      ReplaySameRecords(check, policy, a[..|a| - 1], b[..|b| - 1]);
      assert SameRecord(x, y);
      hide Replay, RunCollecting, CreditMinerReward, SamePayments;
      var l := Replay(check, policy, a[..|a| - 1]).value;
      CollectSamePayments(check, l, x.txs, y.txs, NetworkFor(policy).value);
    }
  }

  /** Two valid chains that replay and end in the same hash have the same length and the same ledger. */
  lemma SameTipSameLedger(sha: Sha, check: SignatureCheck, policy: Policy, cfg: Config, a: seq<Block>,
                          cfg': Config, b: seq<Block>, inputs: set<string>)
    requires ChecksIds(sha, check) && !policy.OtherPolicy?
    requires ValidChain(sha, cfg, a) && a != [] && HeightsCount(a) && Replay(check, policy, a).Ok?
    requires ValidChain(sha, cfg', b) && b != [] && HeightsCount(b) && Replay(check, policy, b).Ok?
    requires CollisionFree(sha, inputs) && ChainInputs(sha, a) <= inputs && ChainInputs(sha, b) <= inputs
    requires BlockHash(sha, a[|a| - 1]) == BlockHash(sha, b[|b| - 1])
    ensures |a| == |b| && Replay(check, policy, a) == Replay(check, policy, b)
  {
    hide ValidChain, Replay, Header, BlockHash, ChecksIds, CollisionFree, BlockInputs, SameRecord, SealedChain, ChainInputs;
    ReplayedIsSealed(sha, cfg, check, policy, a);
    ReplayedIsSealed(sha, cfg', check, policy, b);
    var x, y := a[|a| - 1], b[|b| - 1];
    BlockInputsIncluded(sha, a, |a| - 1);
    BlockInputsIncluded(sha, b, |b| - 1);
    HashDeterminesHeader(sha, x, y, inputs);
    HeaderDetermines(x, y);
    forall i | 0 < i < |a| ensures SameRecord(a[i], b[i]) {
      SameHashSameHistory(sha, a, b, |a| - 1, i, inputs);
    }
    ReplaySameRecords(check, policy, a, b);
  }
}
