/**
 Valid block sequences (blockchain/validator_core.go, block_resource_validator.go, pow_policy.go, chain.go).
 Class `Chain` in ChainObject.dfy maintains one.
 */
module Chains {
  import opened Prelude
  import opened Params
  import opened Transactions
  import opened Blocks
  import opened Merkle
  import opened Work
  import opened Difficulty

  /** A proof verifier: the versions it supports and the blocks whose proof it accepts. */
  datatype Verifier = Verifier(supports: u32 -> bool, accepts: Block -> bool)

  /** The immutable part of a chain: its network, proof-version policy and verifier. */
  datatype Config = Config(network: Network, activation: u64, verifier: Verifier)

  datatype ChainError =
    | NoGenesis
    | UnknownNetwork
    | UnsupportedVersion
    | InvalidVersion
    | WrongGenesis
    | InvalidDifficulty
    | InvalidHeight
    | InvalidPreviousHash
    | InvalidTimestamp
    | FutureTimestamp
    | InvalidMerkleRoot
    | InvalidTransactions
    | InvalidProof

  predicate VersionAllowed(activation: u64, version: u32, height: u64) {
    if activation == MAX_U64 || height < activation then version == 1 else version == 2
  }

  function GenesisBlock(network: Network): Option<Block> {
    match network
    case PublicTestnet =>
      Some(Block(1, 0, 1786924800, "0", "Sudharma Network Genesis Block", 1, 0, "", []))
    case Mainnet =>
      Some(Block(1, 0, 0, "0", "Sudharma Network Mainnet Genesis Block v1", 1, 0, "", []))
    case OtherNetwork(_) => None
  }

  function TotalSize(txs: seq<Tx>): nat {
    if txs == [] then 0 else TotalSize(txs[..|txs| - 1]) + EstimatedSize(txs[|txs| - 1])
  }

  predicate ValidTransactions(txs: seq<Tx>) {
    && |txs| <= MAX_BLOCK_TXS
    && (forall i :: 0 <= i < |txs| ==> WithinResourceBounds(txs[i]))
    && TotalSize(txs) <= MAX_BLOCK_BYTES
  }

  /** The checks on a first block, in order. Only its hash is compared with the network's genesis. */
  function GenesisFault(sha: Sha, cfg: Config, genesis: Block): Option<ChainError> {
    if PolicyFor(cfg.network).None? then Some(UnknownNetwork)
    else if !cfg.verifier.supports(1) then Some(UnsupportedVersion)
    else if cfg.activation != MAX_U64 && !cfg.verifier.supports(2) then Some(UnsupportedVersion)
    else if !VersionAllowed(cfg.activation, genesis.version, genesis.height) then Some(InvalidVersion)
    else if BlockHash(sha, genesis) != BlockHash(sha, GenesisBlock(cfg.network).value) then Some(WrongGenesis)
    else None
  }

  /** The checks on a block that extends `blocks`, in order, at clock reading `now`. */
  function BlockFault(sha: Sha, cfg: Config, blocks: seq<Block>, b: Block, now: int): Option<ChainError> {
    if blocks == [] then Some(NoGenesis)
    else
      var previous := blocks[|blocks| - 1];
      if b.difficulty != NextFromHistory(previous.difficulty, RecentIntervals(blocks)) then Some(InvalidDifficulty)
      else if !VersionAllowed(cfg.activation, b.version, b.height) then Some(InvalidVersion)
      else if !cfg.verifier.supports(b.version) then Some(UnsupportedVersion)
      else if b.height != previous.height + 1 then Some(InvalidHeight)
      else if b.previousHash != BlockHash(sha, previous) then Some(InvalidPreviousHash)
      else if b.timestamp <= previous.timestamp then Some(InvalidTimestamp)
      else if b.timestamp > now + MAX_FUTURE_BLOCK_SECONDS then Some(FutureTimestamp)
      else if b.merkleRoot != MerkleRoot(sha, b.txs) then Some(InvalidMerkleRoot)
      else if !ValidTransactions(b.txs) then Some(InvalidTransactions)
      else if !cfg.verifier.accepts(b) then Some(InvalidProof)
      else None
  }

  /** Validity of an extension apart from the clock. */
  predicate Extends(sha: Sha, cfg: Config, blocks: seq<Block>, b: Block) {
    blocks != [] && BlockFault(sha, cfg, blocks, b, b.timestamp).None?
  }

  predicate Timely(b: Block, now: int) {
    b.timestamp <= now + MAX_FUTURE_BLOCK_SECONDS
  }

  /** The clock decides nothing but the future-timestamp check. */
  lemma FaultSplitsClock(sha: Sha, cfg: Config, blocks: seq<Block>, b: Block, now: int)
    ensures BlockFault(sha, cfg, blocks, b, now).None? <==> Extends(sha, cfg, blocks, b) && Timely(b, now)
  {
    hide BlockHash, NextFromHistory, RecentIntervals, MerkleRoot, ValidTransactions, VersionAllowed;
  }

  // ----- what the checks demand, one by one

  /** The only version a height allows: 2 from the activation height on, if there is one, and 1 before. */
  function VersionAt(activation: u64, height: u64): nat {
    if activation != 0xFFFF_FFFF_FFFF_FFFF && activation <= height then 2 else 1
  }

  /** What each check of a block demands. */
  ghost predicate Passes(e: ChainError, sha: Sha, cfg: Config, blocks: seq<Block>, b: Block, now: int) {
    match e
    case NoGenesis => blocks != []
    case InvalidDifficulty =>
      blocks != [] ==> b.difficulty == NextFromHistory(blocks[|blocks| - 1].difficulty, RecentIntervals(blocks))
    case InvalidVersion => b.version == VersionAt(cfg.activation, b.height)
    case UnsupportedVersion => cfg.verifier.supports(b.version)
    case InvalidHeight => blocks != [] ==> b.height == blocks[|blocks| - 1].height + 1
    case InvalidPreviousHash => blocks != [] ==> b.previousHash == BlockHash(sha, blocks[|blocks| - 1])
    case InvalidTimestamp => blocks != [] ==> b.timestamp > blocks[|blocks| - 1].timestamp
    case FutureTimestamp => b.timestamp <= now + 7200
    case InvalidMerkleRoot => b.merkleRoot == MerkleRoot(sha, b.txs)
    case InvalidTransactions =>
      && |b.txs| <= 1000 && TotalSize(b.txs) <= 1_048_576
      && forall i :: 0 <= i < |b.txs| ==> WithinResourceBounds(b.txs[i])
    case InvalidProof => cfg.verifier.accepts(b)
    case _ => true
  }

  /** The order in which the checks are made. */
  function CheckRank(e: ChainError): nat {
    match e
    case NoGenesis => 0
    case InvalidDifficulty => 1
    case InvalidVersion => 2
    case UnsupportedVersion => 3
    case InvalidHeight => 4
    case InvalidPreviousHash => 5
    case InvalidTimestamp => 6
    case FutureTimestamp => 7
    case InvalidMerkleRoot => 8
    case InvalidTransactions => 9
    case InvalidProof => 10
    case _ => 11
  }

  lemma BlockFaultAgainst(sha: Sha, cfg: Config, blocks: seq<Block>, b: Block, now: int, f: ChainError)
    ensures var fault := BlockFault(sha, cfg, blocks, b, now);
            && (fault.None? ==> Passes(f, sha, cfg, blocks, b, now))
            && (fault.Some? ==> !Passes(fault.value, sha, cfg, blocks, b, now))
            && (fault.Some? && CheckRank(f) < CheckRank(fault.value) ==> Passes(f, sha, cfg, blocks, b, now))
            && (CheckRank(f) >= 11 ==> Passes(f, sha, cfg, blocks, b, now))
            && (fault.Some? && CheckRank(f) == CheckRank(fault.value) < 11 ==> f == fault.value)
  {
    hide BlockHash, NextFromHistory, RecentIntervals, MerkleRoot, WithinResourceBounds, TotalSize;
  }

  /** A block is refused with the first check it fails, and accepted exactly when it fails none. */
  lemma FirstBlockFault(sha: Sha, cfg: Config, blocks: seq<Block>, b: Block, now: int, e: ChainError)
    ensures BlockFault(sha, cfg, blocks, b, now) == Some(e) <==>
            && !Passes(e, sha, cfg, blocks, b, now)
            && forall f: ChainError :: CheckRank(f) < CheckRank(e) ==> Passes(f, sha, cfg, blocks, b, now)
    ensures BlockFault(sha, cfg, blocks, b, now).None? <==>
            forall f: ChainError :: Passes(f, sha, cfg, blocks, b, now)
  {
    hide BlockFault, Passes, CheckRank;
    forall f ensures var fault := BlockFault(sha, cfg, blocks, b, now);
                     && (fault.None? ==> Passes(f, sha, cfg, blocks, b, now))
                     && (fault.Some? && CheckRank(f) < CheckRank(fault.value) ==> Passes(f, sha, cfg, blocks, b, now)) {
      BlockFaultAgainst(sha, cfg, blocks, b, now, f);
    }
    BlockFaultAgainst(sha, cfg, blocks, b, now, e);
  }

  /** What an extension carries: the proof and the version of its height, among everything else. */
  lemma ExtendsExactly(sha: Sha, cfg: Config, blocks: seq<Block>, b: Block)
    requires blocks != []
    ensures var previous := blocks[|blocks| - 1];
            Extends(sha, cfg, blocks, b) <==>
            && cfg.verifier.accepts(b) && cfg.verifier.supports(b.version)
            && b.version == VersionAt(cfg.activation, b.height)
            && b.difficulty == NextFromHistory(previous.difficulty, RecentIntervals(blocks))
            && b.height == previous.height + 1 && b.previousHash == BlockHash(sha, previous)
            && b.timestamp > previous.timestamp && b.merkleRoot == MerkleRoot(sha, b.txs)
            && |b.txs| <= 1000 && TotalSize(b.txs) <= 1_048_576
            && forall i :: 0 <= i < |b.txs| ==> WithinResourceBounds(b.txs[i])
  {
    hide BlockHash, NextFromHistory, RecentIntervals, MerkleRoot, WithinResourceBounds, TotalSize;
  }

  /** A block that keeps its transaction count is always far from its byte limit. */
  lemma {:induction false} BlockIsSmall(txs: seq<Tx>)
    requires forall i :: 0 <= i < |txs| ==> WithinResourceBounds(txs[i])
    ensures TotalSize(txs) <= 297 * |txs|
  {
    if txs != [] {
      BlockIsSmall(txs[..|txs| - 1]);
      assert WithinResourceBounds(txs[|txs| - 1]);
    }
  }

  /** The published first blocks: midnight of day 20,682 for the testnet, and the two names in place of a Merkle root. */
  lemma GenesisIsPublished(network: Network)
    ensures var g := GenesisBlock(network);
            match network
            case PublicTestnet => g.Some? && g.value.timestamp == 20_682 * 86_400 && g.value.merkleRoot == "Sudharma Network Genesis Block"
            case Mainnet => g.Some? && g.value.timestamp == 0 && g.value.merkleRoot == "Sudharma Network Mainnet Genesis Block v1"
            case OtherNetwork(_) => g.None?
    ensures GenesisBlock(network).Some? ==>
              var g := GenesisBlock(network).value;
              g.version == 1 && g.height == 0 && g.previousHash == "0" && g.difficulty == 1 && g.nonce == 0 && g.miner == "" && g.txs == []
  {
  }

  /** A first block is accepted exactly when the verifier covers the versions in use and its hash is the genesis hash. */
  lemma GenesisExactly(sha: Sha, cfg: Config, genesis: Block)
    ensures GenesisFault(sha, cfg, genesis).None? <==>
            && GenesisBlock(cfg.network).Some? && cfg.verifier.supports(1)
            && (cfg.activation == 0xFFFF_FFFF_FFFF_FFFF || cfg.verifier.supports(2))
            && genesis.version == VersionAt(cfg.activation, genesis.height)
            && BlockHash(sha, genesis) == BlockHash(sha, GenesisBlock(cfg.network).value)
  {
    hide BlockHash;
  }

  ghost predicate ValidChain(sha: Sha, cfg: Config, blocks: seq<Block>) {
    && blocks != []
    && GenesisFault(sha, cfg, blocks[0]).None?
    && forall i :: 0 < i < |blocks| ==> Extends(sha, cfg, blocks[..i], blocks[i])
  }

  /** Clock readings while blocks 1.. were checked one after the other. */
  ghost predicate TimelyChain(blocks: seq<Block>, clock: nat -> int) {
    forall i :: 0 < i < |blocks| ==> Timely(blocks[i], clock(i))
  }

  function WorkSum(blocks: seq<Block>): nat {
    if blocks == [] then 0 else WorkSum(blocks[..|blocks| - 1]) + BlockWork(blocks[|blocks| - 1].difficulty)
  }

  lemma AppendValid(sha: Sha, cfg: Config, blocks: seq<Block>, b: Block)
    requires ValidChain(sha, cfg, blocks)
    ensures ValidChain(sha, cfg, blocks + [b]) <==> Extends(sha, cfg, blocks, b)
    ensures WorkSum(blocks + [b]) == WorkSum(blocks) + BlockWork(b.difficulty)
  {
    hide Extends, GenesisFault, BlockWork;
    var all := blocks + [b];
    assert all[..|blocks|] == blocks && all[|blocks|] == b;
    assert forall i :: 0 < i < |blocks| ==> all[..i] == blocks[..i];
  }

  /** The first block's header does not collide with that of the network's genesis block. */
  ghost predicate GenuineGenesis(sha: Sha, network: Network, blocks: seq<Block>) {
    blocks != [] && GenesisBlock(network).Some? ==> !Collision(sha, blocks[0], GenesisBlock(network).value)
  }

  lemma GenesisFields(sha: Sha, cfg: Config, g: Block)
    requires GenuineGenesis(sha, cfg.network, [g]) && GenesisFault(sha, cfg, g).None?
    ensures g.height == 0 && g.difficulty == 1
  {
    hide Header, BlockHash, VersionAllowed;
    assert !Collision(sha, g, GenesisBlock(cfg.network).value);
    HeaderDetermines(g, GenesisBlock(cfg.network).value);
  }

  lemma ExtensionShape(sha: Sha, cfg: Config, blocks: seq<Block>, b: Block)
    requires Extends(sha, cfg, blocks, b)
    ensures var previous := blocks[|blocks| - 1];
            && b.height == previous.height + 1
            && b.previousHash == BlockHash(sha, previous)
            && b.timestamp > previous.timestamp
            && b.difficulty >= 1
            && b.merkleRoot == MerkleRoot(sha, b.txs) && ValidTransactions(b.txs)
  {
    hide BlockHash, RecentIntervals, MerkleRoot, ValidTransactions, VersionAllowed, Median;
  }

  /** A valid chain holds block i at height i, hash-linked, with rising timestamps and difficulty at least 1. */
  lemma {:induction false} ChainShape(sha: Sha, cfg: Config, blocks: seq<Block>, i: nat)
    requires ValidChain(sha, cfg, blocks) && GenuineGenesis(sha, cfg.network, blocks) && i < |blocks|
    ensures blocks[i].height == i && blocks[i].difficulty >= 1
    ensures LinkedAt(sha, blocks, i) && RisesAt(blocks, i)
  {
    hide Extends, GenesisFault, BlockHash;
    if i == 0 {
      GenesisFields(sha, cfg, blocks[0]);
    } else {
      ChainShape(sha, cfg, blocks, i - 1);
      ExtensionShape(sha, cfg, blocks[..i], blocks[i]);
    }
  }

  lemma ValidIsLinked(sha: Sha, cfg: Config, blocks: seq<Block>)
    requires ValidChain(sha, cfg, blocks)
    ensures Linked(sha, blocks)
  {
    hide Extends, GenesisFault, BlockHash;
    forall i | 0 <= i < |blocks| ensures LinkedAt(sha, blocks, i) {
      if i > 0 {
        ExtensionShape(sha, cfg, blocks[..i], blocks[i]);
      }
    }
  }

  /** On a valid chain the difficulty rule sees every recent interval. */
  lemma RecentIntervalsComplete(sha: Sha, cfg: Config, blocks: seq<Block>)
    requires ValidChain(sha, cfg, blocks) && GenuineGenesis(sha, cfg.network, blocks)
    ensures |RecentIntervals(blocks)| == if |blocks| - 1 > 11 then 11 else |blocks| - 1
    ensures Positive(RecentIntervals(blocks)) == RecentIntervals(blocks)
  {
    hide Extends, GenesisFault, GenuineGenesis, RisesAt, RecentIntervals, Positive;
    forall i | 0 <= i < |blocks| ensures RisesAt(blocks, i) {
      ChainShape(sha, cfg, blocks, i);
    }
    RecentKeepAll(blocks);
  }

  /** Every block of a valid chain adds at least one unit of work. */
  lemma ExtensionAddsWork(sha: Sha, cfg: Config, blocks: seq<Block>, b: Block)
    requires Extends(sha, cfg, blocks, b)
    ensures BlockWork(b.difficulty) >= 1
  {
    hide Extends, BlockWork;
    ExtensionShape(sha, cfg, blocks, b);
    WorkExactly(b.difficulty);
  }
}
