/** Blocks, their header bytes and their hash (blockchain/block.go). */
module Blocks {
  import opened Prelude
  import opened Transactions

  datatype Block = Block(
    version: u32,
    height: u64,
    timestamp: int,
    previousHash: string,
    merkleRoot: string,
    difficulty: u32,
    nonce: u64,
    miner: string,
    txs: seq<Tx>)

  /** SHA-256 is a parameter of the model: any function from bytes to 32-byte digests. */
  type Digest = s: string | |s| == 32 && Bytes(s) witness seq(32, _ => '0')
  type Sha = string -> Digest

  /** The `width` low-order bytes of n, most significant first. */
  function BigEndian(n: nat, width: nat): (s: string)
    ensures |s| == width
  {
    if width == 0 then "" else BigEndian(n / 256, width - 1) + [(n % 256) as char]
  }

  function HexDigit(d: nat): (c: char)
    requires d < 16
    ensures '0' <= c <= '9' || 'a' <= c <= 'f'
  {
    "0123456789abcdef"[d]
  }

  function Hex(s: string): (h: string)
    ensures |h| == 2 * |s| && LowerHex(h)
  {
    if s == "" then ""
    else [HexDigit(s[0] as int / 16 % 16), HexDigit(s[0] as int % 16)] + Hex(s[1..])
  }

  /** Fixed-width fields around three strings of no fixed width. */
  function Header(b: Block): string {
    BigEndian(b.version, 4) + BigEndian(b.height, 8) + BigEndian(b.timestamp % 0x1_0000_0000_0000_0000, 8)
    + b.previousHash + b.merkleRoot + b.miner
    + BigEndian(b.difficulty, 4) + BigEndian(b.nonce, 8)
  }

  function BlockHash(sha: Sha, b: Block): (h: string)
    ensures |h| == 64 && LowerHex(h)
  {
    Hex(sha(sha(Header(b))))
  }

  function Pow256(n: nat): nat {
    if n == 0 then 1 else 256 * Pow256(n - 1)
  }

  lemma {:induction false} BigEndianInjective(n: nat, m: nat, width: nat)
    requires n < Pow256(width) && m < Pow256(width)
    requires BigEndian(n, width) == BigEndian(m, width)
    ensures n == m
  {
    if width > 0 {
      var a, b := BigEndian(n, width), BigEndian(m, width);
      assert a[..width - 1] == BigEndian(n / 256, width - 1);
      assert b[..width - 1] == BigEndian(m / 256, width - 1);
      assert a[width - 1] == (n % 256) as char && b[width - 1] == (m % 256) as char;
      BigEndianInjective(n / 256, m / 256, width - 1);
    }
  }

  /** Byte i is the digit of weight 256^(width - 1 - i): most significant first. */
  lemma {:induction false} BigEndianDigits(n: nat, width: nat, i: nat)
    requires i < width
    ensures Pow256(width - 1 - i) > 0
    ensures BigEndian(n, width)[i] as int == n / Pow256(width - 1 - i) % 256
  {
    Pow256Positive(width - 1 - i);
    if i < width - 1 {
      BigEndianDigits(n / 256, width - 1, i);
      DivideTwice(n, 256, Pow256(width - 2 - i));
    }
  }

  lemma {:induction false} Pow256Positive(n: nat)
    ensures Pow256(n) > 0
  {
    if n > 0 {
      Pow256Positive(n - 1);
    }
  }

  lemma FieldWidths()
    ensures Pow256(4) == 0x1_0000_0000
    ensures Pow256(8) == 0x1_0000_0000_0000_0000
  {
    assert Pow256(2) == 0x1_0000;
    assert Pow256(6) == 0x1_0000 * Pow256(4);
  }

  /** Where the fixed-width fields and the previous hash sit in the header. */
  lemma HeaderLayout(b: Block)
    ensures var h := Header(b);
            && |h| >= 32
            && h[..4] == BigEndian(b.version, 4)
            && h[4..12] == BigEndian(b.height, 8)
            && h[12..20] == BigEndian(b.timestamp % 0x1_0000_0000_0000_0000, 8)
            && h[|h| - 12..|h| - 8] == BigEndian(b.difficulty, 4)
            && h[|h| - 8..] == BigEndian(b.nonce, 8)
            && (|b.previousHash| == 64 ==> |h| >= 96 && h[20..84] == b.previousHash)
  {
  }

  /** Equal headers have the same fixed-width fields, and the same previous hash where it is a hash. */
  lemma HeaderDetermines(b: Block, c: Block)
    requires Header(b) == Header(c)
    ensures b.version == c.version && b.height == c.height
    ensures b.timestamp % 0x1_0000_0000_0000_0000 == c.timestamp % 0x1_0000_0000_0000_0000
    ensures b.difficulty == c.difficulty && b.nonce == c.nonce
    ensures |b.previousHash| == 64 && |c.previousHash| == 64 ==> b.previousHash == c.previousHash
  {
    hide Header, BigEndian;
    HeaderLayout(b);
    HeaderLayout(c);
    FieldWidths();
    BigEndianInjective(b.version, c.version, 4);
    BigEndianInjective(b.height, c.height, 8);
    BigEndianInjective(b.timestamp % 0x1_0000_0000_0000_0000, c.timestamp % 0x1_0000_0000_0000_0000, 8);
    BigEndianInjective(b.difficulty, c.difficulty, 4);
    BigEndianInjective(b.nonce, c.nonce, 8);
  }

  /** With hash-sized previous hash and Merkle root the header determines the Merkle root and the miner too. */
  lemma HeaderDeterminesStrings(b: Block, c: Block)
    requires Header(b) == Header(c)
    requires |b.previousHash| == |c.previousHash| == 64 && |b.merkleRoot| == |c.merkleRoot| == 64
    ensures b.previousHash == c.previousHash && b.merkleRoot == c.merkleRoot && b.miner == c.miner
  {
    hide Header, BigEndian;
    HeaderStrings(b);
    HeaderStrings(c);
  }

  lemma HeaderStrings(b: Block)
    requires |b.previousHash| == 64 && |b.merkleRoot| == 64
    ensures var h := Header(b);
            && |h| >= 160 && h[20..84] == b.previousHash && h[84..148] == b.merkleRoot
            && h[148..|h| - 12] == b.miner
  {
  }

  /** Two different headers with the same block hash. */
  predicate Collision(sha: Sha, b: Block, c: Block) {
    Header(b) != Header(c) && BlockHash(sha, b) == BlockHash(sha, c)
  }

  /** Block i names the hash of the one before it. */
  ghost predicate LinkedAt(sha: Sha, blocks: seq<Block>, i: nat)
    requires i < |blocks|
  {
    i > 0 ==> blocks[i].previousHash == BlockHash(sha, blocks[i - 1])
  }

  ghost predicate Linked(sha: Sha, blocks: seq<Block>) {
    forall i :: 0 <= i < |blocks| ==> LinkedAt(sha, blocks, i)
  }

  /** Hash equality at one height carries down to genesis, unless two headers at the same height collide. */
  lemma {:induction false} HashesAgreeBelow(sha: Sha, a: seq<Block>, b: seq<Block>, height: nat, low: nat)
    requires Linked(sha, a) && Linked(sha, b)
    requires low <= height < |a| && height < |b|
    requires BlockHash(sha, a[height]) == BlockHash(sha, b[height])
    requires forall i :: 0 <= i <= height ==> !Collision(sha, a[i], b[i])
    ensures BlockHash(sha, a[low]) == BlockHash(sha, b[low]) && Header(a[low]) == Header(b[low])
    decreases height
  {
    hide Header, BlockHash;
    assert !Collision(sha, a[height], b[height]);
    if low < height {
      HeaderDetermines(a[height], b[height]);
      assert LinkedAt(sha, a, height) && LinkedAt(sha, b, height);
      assert BlockHash(sha, a[height - 1]) == BlockHash(sha, b[height - 1]);
      HashesAgreeBelow(sha, a, b, height - 1, low);
    }
  }
}
