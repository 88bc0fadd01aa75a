/** The chain object (blockchain/chain.go, validated_chain.go and the chain part of reorg.go). */
module ChainObject {
  import opened Prelude
  import opened Blocks
  import opened Work
  import opened Chains

  /** The position of this height holds a block of this height. */
  predicate Found(blocks: seq<Block>, height: nat) {
    height < |blocks| && blocks[height].height == height
  }

  /** The error that rebuilding a chain meets first: no block, a bad first block, or the first block that does not extend
      the ones before it. */
  ghost predicate IsFirstFault(sha: Sha, config: Config, source: seq<Block>, clock: nat -> int, e: ChainError) {
    if source == [] then e == NoGenesis
    else if GenesisFault(sha, config, source[0]).Some? then Some(e) == GenesisFault(sha, config, source[0])
    else exists i :: 0 < i < |source| && ValidChain(sha, config, source[..i]) && TimelyChain(source[..i], clock)
                     && BlockFault(sha, config, source[..i], source[i], clock(i)) == Some(e)
  }

  class Chain {
    const config: Config
    var blocks: seq<Block>
    var totalWork: nat

    /** What every chain built by the public operations satisfies. */
    ghost predicate Valid(sha: Sha)
      reads this
    {
      ValidChain(sha, config, blocks) && totalWork == WorkSum(blocks)
    }

    /** An object with any fields: candidates are not trusted. */
    constructor (config: Config, blocks: seq<Block>, totalWork: nat)
      ensures this.config == config && this.blocks == blocks && this.totalWork == totalWork
    {
      this.config := config;
      this.blocks := blocks;
      this.totalWork := totalWork;
    }

    function Height(): u64
      reads this
    {
      if blocks == [] then 0 else blocks[|blocks| - 1].height
    }

    function BlockByHeight(height: nat): (r: Option<Block>)
      reads this
      ensures r.Some? <==> height < |blocks| && blocks[height].height == height
      ensures r.Some? ==> r.value == blocks[height]
    {
      if Found(blocks, height) then Some(blocks[height]) else None
    }

    /** Validate and append; a refused block changes nothing. */
    method AddBlock(sha: Sha, b: Block, now: int) returns (fault: Option<ChainError>)
      modifies this
      ensures fault == BlockFault(sha, config, old(blocks), b, now)
      ensures fault.None? ==> blocks == old(blocks) + [b] && totalWork == old(totalWork) + BlockWork(b.difficulty)
      ensures fault.Some? ==> unchanged(this)
      ensures old(Valid(sha)) ==> Valid(sha)
      ensures old(Valid(sha)) && fault.None? ==> totalWork > old(totalWork)
    {
      hide BlockFault, Extends, ValidChain, BlockWork;
      fault := BlockFault(sha, config, blocks, b, now);
      if fault.None? {
        FaultSplitsClock(sha, config, blocks, b, now);
        ExtensionAddsWork(sha, config, blocks, b);
        if ValidChain(sha, config, blocks) {
          AppendValid(sha, config, blocks, b);
        }
        blocks := blocks + [b];
        totalWork := totalWork + BlockWork(b.difficulty);
      }
    }

    /** newChainFromGenesisForNetworkWithConsensus followed by AddBlock of every further block. */
    static method Revalidate(sha: Sha, config: Config, source: seq<Block>, clock: nat -> int)
      returns (r: Result<Chain, ChainError>)
      ensures r.Ok? <==> ValidChain(sha, config, source) && TimelyChain(source, clock)
      ensures r.Ok? ==> fresh(r.value) && r.value.config == config && r.value.blocks == source && r.value.Valid(sha)
      ensures r.Err? ==> IsFirstFault(sha, config, source, clock, r.error)
    {
      hide BlockFault, Extends, BlockWork, GenesisFault;
      if source == [] {
        return Err(NoGenesis);
      }
      var fault := GenesisFault(sha, config, source[0]);
      if fault.Some? {
        return Err(fault.value);
      }
      var validated := new Chain(config, [source[0]], BlockWork(source[0].difficulty));
      assert validated.blocks == source[..1];
      assert WorkSum([source[0]]) == BlockWork(source[0].difficulty);
      for i := 1 to |source|
        invariant fresh(validated) && validated.config == config && validated.blocks == source[..i]
        invariant validated.Valid(sha)
        invariant TimelyChain(source[..i], clock)
      {
        FaultSplitsClock(sha, config, source[..i], source[i], clock(i));
        fault := validated.AddBlock(sha, source[i], clock(i));
        if fault.Some? {
          return Err(fault.value);
        }
        assert source[..i + 1] == source[..i] + [source[i]];
      }
      assert source[..|source|] == source;
      return Ok(validated);
    }

    /** Replace this chain by a candidate's blocks after validating them under this chain's own configuration. */
    method ReplaceWith(sha: Sha, candidate: Chain, clock: nat -> int) returns (replaced: bool)
      modifies this
      ensures candidate == this ==> replaced
      ensures candidate != this ==>
                (replaced <==>
                   && config.network == candidate.config.network
                   && config.activation == candidate.config.activation
                   && ValidChain(sha, config, old(candidate.blocks)) && TimelyChain(old(candidate.blocks), clock))
      ensures replaced ==> blocks == old(candidate.blocks)
      ensures replaced && candidate != this ==> Valid(sha)
      ensures !replaced || candidate == this ==> unchanged(this)
    {
      if this == candidate {
        return true;
      }
      if config.network != candidate.config.network || config.activation != candidate.config.activation {
        return false;
      }
      var newBlocks := candidate.blocks;
      var validated := Revalidate(sha, config, newBlocks, clock);
      if validated.Err? {
        return false;
      }
      blocks := newBlocks;
      totalWork := validated.value.totalWork;
      return true;
    }
  }

  /** BetterChain: more work wins, then more height, and the current chain is kept on a tie. */
  predicate Beats(candidateWork: nat, candidateHeight: nat, currentWork: nat, currentHeight: nat) {
    candidateWork > currentWork || (candidateWork == currentWork && candidateHeight > currentHeight)
  }

  /** The preferred chain of the two; None is the error of comparing different networks. */
  function BetterChain(current: Chain, candidate: Chain): (best: Option<Chain>)
    reads current, candidate
    ensures best.None? <==> current.config.network != candidate.config.network
    ensures best.Some? ==>
              (best.value == candidate &&
               Beats(candidate.totalWork, candidate.Height(), current.totalWork, current.Height()))
              || (best.value == current &&
                  !Beats(candidate.totalWork, candidate.Height(), current.totalWork, current.Height()))
  {
    if current.config.network != candidate.config.network then None
    else if candidate.totalWork > current.totalWork then Some(candidate)
    else if candidate.totalWork < current.totalWork then Some(current)
    else if candidate.Height() > current.Height() then Some(candidate)
    else Some(current)
  }
}
