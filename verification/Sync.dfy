/** Downloading a peer's chain (p2p/sync_handler.go). */
module Sync {
  import opened Prelude
  import opened Params
  import opened Blocks
  import opened Merkle
  import opened Work
  import opened Chains
  import opened ChainObject

  /** A peer answers request number k for (start, limit) with blocks, some possibly nil, or not at all. */
  type Peer = (nat, nat, nat) -> Option<seq<Option<Block>>>

  datatype SyncError =
    | RequestFailed
    | EmptyReply
    | NilBlock
    | UnexpectedHeight
    | BlockRejected(reason: ChainError)
    | WrongTip
    | WrongWork

  function DigestNumber(s: string): nat {
    if s == "" then 0 else 256 * DigestNumber(s[..|s| - 1]) + s[|s| - 1] as int
  }

  /** Reading bytes as a number undoes writing it, most significant byte first. */
  lemma {:induction false} DigestNumberRoundTrip(s: string)
    requires Bytes(s)
    ensures BigEndian(DigestNumber(s), |s|) == s
  {
    if s != "" {
      var front, last := s[..|s| - 1], s[|s| - 1];
      DigestNumberRoundTrip(front);
      assert (256 * DigestNumber(front) + last as int) / 256 == DigestNumber(front);
      assert (256 * DigestNumber(front) + last as int) % 256 == last as int;
      assert s == front + [last];
    }
  }

  /** The configuration of a new public-testnet chain: Version 1 only, double SHA-256 against the target. */
  function LegacyConfig(sha: Sha): Config {
    Config(PublicTestnet, MAX_U64,
           Verifier(v => v == 1,
                    (b: Block) => b.version == 1 && 0 < Target(b.difficulty)
                                  && DigestNumber(sha(sha(Header(b)))) <= Target(b.difficulty)))
  }

  /** The Version 1 proof: the block hash, read as a number, is at most the target of the block's difficulty. */
  lemma LegacyProofExactly(sha: Sha, b: Block)
    ensures LegacyConfig(sha).network == PublicTestnet && LegacyConfig(sha).activation == 0xFFFF_FFFF_FFFF_FFFF
    ensures LegacyConfig(sha).verifier.supports(b.version) <==> b.version == 1
    ensures HexDecode(BlockHash(sha, b)).Some?
    ensures LegacyConfig(sha).verifier.accepts(b) <==>
            && b.version == 1 && b.difficulty >= 1
            && DigestNumber(HexDecode(BlockHash(sha, b)).value) <= (TWO_256 - 1) / b.difficulty
  {
    HexRoundTrip(sha(sha(Header(b))));
    hide Header, Hex, HexDecode, DigestNumber;
    if b.difficulty >= 1 {
      TargetIsPositive(b.difficulty);
    }
  }

  /** Every block above genesis of a valid testnet chain carries that proof. */
  lemma LegacyChainIsProved(sha: Sha, blocks: seq<Block>, h: nat)
    requires ValidChain(sha, LegacyConfig(sha), blocks) && 0 < h < |blocks|
    ensures var b := blocks[h];
            && b.version == 1 && b.difficulty >= 1 && HexDecode(BlockHash(sha, b)).Some?
            && DigestNumber(HexDecode(BlockHash(sha, b)).value) <= (TWO_256 - 1) / b.difficulty
  {
    hide Extends, GenesisFault, BlockHash, LegacyConfig, HexDecode, DigestNumber;
    ExtendsExactly(sha, LegacyConfig(sha), blocks[..h], blocks[h]);
    LegacyProofExactly(sha, blocks[h]);
  }

  /** The requested range as a full reply. */
  function Slice(source: seq<Block>, start: nat, limit: nat): seq<Option<Block>>
    requires start + limit <= |source|
  {
    seq(limit, i requires 0 <= i < limit => Some(source[start + i]))
  }

  /** The peer serves every range of `source` completely. */
  ghost predicate Serves(peer: Peer, source: seq<Block>) {
    forall k: nat, start: nat, limit: nat :: 1 <= limit <= MAX_BLOCKS_PER_MESSAGE && start + limit <= |source| ==>
      peer(k, start, limit) == Some(Slice(source, start, limit))
  }

  /** An honest peer: it serves a valid timely chain and advertises its height, tip and work. */
  ghost predicate Honest(sha: Sha, peer: Peer, source: seq<Block>, clock: nat -> int,
                         remoteHeight: nat, remoteTip: string, remoteWork: nat)
  {
    && ValidChain(sha, LegacyConfig(sha), source) && Some(source[0]) == GenesisBlock(PublicTestnet)
    && TimelyChain(source, clock) && Serves(peer, source)
    && remoteHeight == |source| - 1
    && remoteTip == BlockHash(sha, source[|source| - 1])
    && remoteWork == WorkSum(source)
  }

  lemma GenesisChainValid(sha: Sha, g: Block)
    requires Some(g) == GenesisBlock(PublicTestnet)
    ensures ValidChain(sha, LegacyConfig(sha), [g]) && WorkSum([g]) == BlockWork(g.difficulty)
  {
    hide BlockHash, BlockWork;
    assert WorkSum([g]) == WorkSum([]) + BlockWork(g.difficulty);
  }

  /** On an honest peer's chain the next block in line passes validation. */
  lemma HonestExtends(sha: Sha, source: seq<Block>, clock: nat -> int, n: nat)
    requires ValidChain(sha, LegacyConfig(sha), source) && TimelyChain(source, clock) && 0 < n < |source|
    ensures BlockFault(sha, LegacyConfig(sha), source[..n], source[n], clock(n)).None?
  {
    hide Extends, BlockFault, GenesisFault, LegacyConfig;
    FaultSplitsClock(sha, LegacyConfig(sha), source[..n], source[n], clock(n));
  }

  /**
   Download the peer's post-genesis chain into an independent candidate. Whatever the peer answers, the result is an
   error or a fully valid chain with the advertised height, tip and work, after at most remoteHeight requests; from an
   honest peer it is exactly the peer's chain.
   */
  method DownloadCandidateChain(sha: Sha, peer: Peer, clock: nat -> int,
                                remoteHeight: nat, remoteTip: string, remoteWork: nat, ghost source: seq<Block>)
    returns (r: Result<Chain, SyncError>, requests: nat)
    ensures requests <= remoteHeight
    ensures r.Ok? ==>
              && fresh(r.value) && r.value.config == LegacyConfig(sha) && r.value.Valid(sha)
              && r.value.Height() == remoteHeight == |r.value.blocks| - 1
              && Some(r.value.blocks[0]) == GenesisBlock(PublicTestnet)
              && BlockHash(sha, r.value.blocks[remoteHeight]) == remoteTip
              && r.value.totalWork == WorkSum(r.value.blocks) == remoteWork
    ensures Honest(sha, peer, source, clock, remoteHeight, remoteTip, remoteWork) ==>
              r.Ok? && r.value.blocks == source
  {
    hide BlockFault, ValidChain, BlockHash, BlockWork, LegacyConfig, TimelyChain, Serves;
    var genesis := GenesisBlock(PublicTestnet).value;
    GenesisChainValid(sha, genesis);
    var candidate := new Chain(LegacyConfig(sha), [genesis], BlockWork(genesis.difficulty));
    requests := 0;
    var nextHeight := 1;
    ghost var honest := Honest(sha, peer, source, clock, remoteHeight, remoteTip, remoteWork);
    NotEmpty(sha, source);
    while nextHeight <= remoteHeight
      invariant 1 <= nextHeight <= remoteHeight + 1 && requests <= nextHeight - 1
      invariant fresh(candidate) && candidate.config == LegacyConfig(sha) && candidate.Valid(sha)
      invariant |candidate.blocks| == nextHeight && candidate.blocks[0] == genesis
      invariant honest ==> candidate.blocks == source[..nextHeight]
    {
      var limit := remoteHeight - nextHeight + 1;
      if limit > MAX_BLOCKS_PER_MESSAGE {
        limit := MAX_BLOCKS_PER_MESSAGE;
      }
      var reply := peer(requests, nextHeight, limit);
      if honest {
        ServedSlice(peer, source, requests, nextHeight, limit);
      }
      requests := requests + 1;
      if reply.None? {
        return Err(RequestFailed), requests;
      }
      var blocks := reply.value;
      if |blocks| == 0 {
        return Err(EmptyReply), requests;
      }
      ghost var first := nextHeight;
      var k := 0;
      while k < |blocks| && nextHeight <= remoteHeight
        invariant 0 <= k <= |blocks| && nextHeight == first + k && nextHeight <= remoteHeight + 1
        invariant fresh(candidate) && candidate.config == LegacyConfig(sha) && candidate.Valid(sha)
        invariant |candidate.blocks| == nextHeight && candidate.blocks[0] == genesis
        invariant honest ==> candidate.blocks == source[..nextHeight]
        invariant honest ==> blocks == Slice(source, first, limit) && first + limit <= |source|
      {
        if blocks[k].None? {
          return Err(NilBlock), requests;
        }
        var block := blocks[k].value;
        if honest {
          assert block == source[nextHeight];
          SourceHeight(sha, source, nextHeight);
        }
        if block.height != nextHeight {
          return Err(UnexpectedHeight), requests;
        }
        if honest {
          HonestExtends(sha, source, clock, nextHeight);
          assert source[..nextHeight + 1] == source[..nextHeight] + [source[nextHeight]];
        }
        var fault := candidate.AddBlock(sha, block, clock(nextHeight));
        if fault.Some? {
          return Err(BlockRejected(fault.value)), requests;
        }
        nextHeight := nextHeight + 1;
        k := k + 1;
      }
    }
    TipHeight(sha, candidate.blocks);
    assert honest ==> candidate.blocks == source by {
      if honest {
        assert source[..|source|] == source;
      }
    }
    var tip := candidate.blocks[|candidate.blocks| - 1];
    if BlockHash(sha, tip) != remoteTip {
      return Err(WrongTip), requests;
    }
    if candidate.totalWork != remoteWork {
      return Err(WrongWork), requests;
    }
    return Ok(candidate), requests;
  }

  lemma NotEmpty(sha: Sha, source: seq<Block>)
    ensures ValidChain(sha, LegacyConfig(sha), source) ==> source != []
  {
  }

  lemma ServedSlice(peer: Peer, source: seq<Block>, k: nat, start: nat, limit: nat)
    requires Serves(peer, source) && 1 <= limit <= MAX_BLOCKS_PER_MESSAGE && start + limit <= |source|
    ensures peer(k, start, limit) == Some(Slice(source, start, limit))
  {
  }

  lemma SourceHeight(sha: Sha, source: seq<Block>, i: nat)
    requires ValidChain(sha, LegacyConfig(sha), source) && Some(source[0]) == GenesisBlock(PublicTestnet) && i < |source|
    ensures source[i].height == i
  {
    assert GenuineGenesis(sha, PublicTestnet, source);
    hide ValidChain, GenuineGenesis;
    ChainShape(sha, LegacyConfig(sha), source, i);
  }

  lemma TipHeight(sha: Sha, blocks: seq<Block>)
    requires ValidChain(sha, LegacyConfig(sha), blocks) && blocks != [] && Some(blocks[0]) == GenesisBlock(PublicTestnet)
    ensures blocks[|blocks| - 1].height == |blocks| - 1
  {
    SourceHeight(sha, blocks, |blocks| - 1);
  }

  /** Serving blocks from a chain: a full slice, cut at the tip; None is a refused request or a missing block. */
  method BlocksFromHeight(chain: Chain, start: nat, limit: nat) returns (r: Option<seq<Block>>)
    ensures r.Some? ==> 1 <= limit <= 128 && |r.value| <= limit
    ensures r.Some? && r.value != [] ==>
              start + |r.value| <= |chain.blocks| && r.value == chain.blocks[start..start + |r.value|]
    ensures r.Some? && start <= chain.Height() ==> r.value != [] && (|r.value| == limit || start + |r.value| > chain.Height())
    ensures r.Some? && start > chain.Height() ==> r.value == []
    ensures r.None? && 1 <= limit <= 128 ==>
              exists h :: start <= h <= chain.Height() && chain.BlockByHeight(h).None?
  {
    if limit == 0 || limit > MAX_BLOCKS_PER_MESSAGE {
      return None;
    }
    var chainHeight: nat := chain.Height();
    if start > chainHeight {
      return Some([]);
    }
    var blocks: seq<Block> := [];
    var height := start;
    while height <= chainHeight && |blocks| < limit
      invariant start <= height <= chainHeight + 1 && |blocks| == height - start <= limit
      invariant blocks != [] ==> height <= |chain.blocks| && blocks == chain.blocks[start..height]
    {
      var block := chain.BlockByHeight(height);
      if block.None? {
        return None;
      }
      blocks := blocks + [block.value];
      height := height + 1;
      assert height - 1 < |chain.blocks|;
    }
    return Some(blocks);
  }

  datatype SyncDecision = AlreadySynced | KeepLocal | Download

  /** The comparison of advertised values that decides whether a download is worth it. */
  function Decide(localHeight: nat, localTip: string, localWork: nat,
                  remoteHeight: nat, remoteTip: string, remoteWork: nat): SyncDecision
  {
    if localHeight == remoteHeight && localTip == remoteTip then AlreadySynced
    else if remoteWork < localWork then KeepLocal
    else if remoteWork == localWork && remoteHeight <= localHeight then KeepLocal
    else Download
  }

  /** A download is started exactly for a different tip whose advertised values would win the fork choice, so a
      candidate that matches its advertisement is never turned away by the fork choice afterwards. */
  lemma DownloadsExactlyWhatWouldWin(localHeight: nat, localTip: string, localWork: nat,
                                     remoteHeight: nat, remoteTip: string, remoteWork: nat)
    ensures Decide(localHeight, localTip, localWork, remoteHeight, remoteTip, remoteWork) == Download <==>
              Beats(remoteWork, remoteHeight, localWork, localHeight)
              && !(localHeight == remoteHeight && localTip == remoteTip)
  {
  }
}
