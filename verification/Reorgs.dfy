/** Fork choice, finality and reorganization (blockchain/reorg.go, reorg_depth.go, finality.go, finality_reorg.go). */
module Reorgs {
  import opened Prelude
  import opened Params
  import opened Transactions
  import opened Ledgers
  import opened Blocks
  import opened Chains
  import opened ChainObject
  import opened StateObject
  import opened Replaying

  datatype ReorgError =
    | NetworkUnknown
    | StatePolicyMismatch
    | CandidateInvalid(reason: ChainError)
    | CrossNetwork
    | NoCommonGenesis
    | FinalizedHistory
    | TooDeep
    | RebuildFailed
    | ReplaceFailed

  // ----- the common part of two chains

  /** Both sequences have a block of this height, and the two blocks have the same hash. */
  predicate Match(sha: Sha, a: seq<Block>, b: seq<Block>, height: nat) {
    && height < |a| && a[height].height == height
    && height < |b| && b[height].height == height
    && BlockHash(sha, a[height]) == BlockHash(sha, b[height])
  }

  /** The highest matching height not above `top`. */
  ghost predicate HighestMatch(sha: Sha, a: seq<Block>, b: seq<Block>, top: nat, height: nat) {
    && height <= top && Match(sha, a, b, height)
    && forall h :: height < h <= top ==> !Match(sha, a, b, h)
  }

  function Lower(a: nat, b: nat): nat {
    if b < a then b else a
  }

  /** Scan down from the lower tip for a common block: (depth, common height), or None without one. */
  method ReorgDepth(sha: Sha, current: Chain, candidate: Chain) returns (r: Option<(nat, nat)>)
    ensures var top := Lower(current.Height(), candidate.Height());
            match r
            case None => forall h :: 0 <= h <= top ==> !Match(sha, current.blocks, candidate.blocks, h)
            case Some((depth, common)) =>
              && HighestMatch(sha, current.blocks, candidate.blocks, top, common)
              && depth == current.Height() - common
  {
    hide BlockHash, HighestMatch;
    var currentHeight: nat := current.Height();
    var candidateHeight: nat := candidate.Height();
    var maxCommon := currentHeight;
    if candidateHeight < maxCommon {
      maxCommon := candidateHeight;
    }
    ghost var a, b := current.blocks, candidate.blocks;
    var height := maxCommon;
    while true
      invariant 0 <= height <= maxCommon
      invariant NoMatchAbove(sha, a, b, height, maxCommon)
      decreases height
    {
      var x, y := current.BlockByHeight(height), candidate.BlockByHeight(height);
      var same := x.Some? && y.Some? && BlockHash(sha, x.value) == BlockHash(sha, y.value);
      assert same == Match(sha, a, b, height);
      if same {
        FoundHighest(sha, a, b, maxCommon, height);
        if currentHeight <= height {
          return Some((0, height));
        }
        return Some((currentHeight - height, height));
      }
      if height == 0 {
        return None;
      }
      height := height - 1;
    }
  }

  ghost predicate NoMatchAbove(sha: Sha, a: seq<Block>, b: seq<Block>, height: nat, top: nat) {
    forall h :: height < h <= top ==> !Match(sha, a, b, h)
  }

  lemma FoundHighest(sha: Sha, a: seq<Block>, b: seq<Block>, top: nat, height: nat)
    requires height <= top && NoMatchAbove(sha, a, b, height, top) && Match(sha, a, b, height)
    ensures HighestMatch(sha, a, b, top, height)
  {
  }

  /**
   For two valid chains the scan finds the end of the longest common prefix: hashes agree at every height up to it
   and differ at every shared height above, unless two headers at the same height collide.
   */
  lemma HighestMatchIsCommonPrefix(sha: Sha, cfg: Config, a: seq<Block>, cfg': Config, b: seq<Block>, common: nat, h: nat)
    requires ValidChain(sha, cfg, a) && ValidChain(sha, cfg', b) && cfg.network == cfg'.network
    requires GenuineGenesis(sha, cfg.network, a) && GenuineGenesis(sha, cfg.network, b)
    requires HighestMatch(sha, a, b, Lower(|a| - 1, |b| - 1), common)
    requires forall i :: 0 <= i <= common ==> !Collision(sha, a[i], b[i])
    requires h < |a| && h < |b|
    ensures BlockHash(sha, a[h]) == BlockHash(sha, b[h]) <==> h <= common
  {
    hide ValidChain, GenuineGenesis, BlockHash, Collision;
    if h <= common {
      ValidIsLinked(sha, cfg, a);
      ValidIsLinked(sha, cfg', b);
      HashesAgreeBelow(sha, a, b, common, h);
    } else {
      ChainShape(sha, cfg, a, h);
      ChainShape(sha, cfg', b, h);
      assert !Match(sha, a, b, h);
    }
  }

  /** No two different headers at the same height have the same hash. */
  ghost predicate NoCollisions(sha: Sha, a: seq<Block>, b: seq<Block>) {
    forall i :: 0 <= i < |a| && i < |b| ==> !Collision(sha, a[i], b[i])
  }

  /** Two valid chains of one network always share their genesis hash. */
  lemma GenesisMatches(sha: Sha, cfg: Config, a: seq<Block>, cfg': Config, b: seq<Block>)
    requires ValidChain(sha, cfg, a) && ValidChain(sha, cfg', b) && cfg.network == cfg'.network
    requires GenuineGenesis(sha, cfg.network, a) && GenuineGenesis(sha, cfg.network, b)
    ensures Match(sha, a, b, 0)
  {
    hide Extends, BlockHash, GenuineGenesis, VersionAllowed;
    ChainShape(sha, cfg, a, 0);
    ChainShape(sha, cfg', b, 0);
  }

  // ----- finality

  function FinalizedHeight(tip: nat): nat {
    if tip <= MAX_REORG_DEPTH then 0 else tip - MAX_REORG_DEPTH
  }

  /** The finalized height falls exactly when a chain that had finalized something is replaced by a shorter one. */
  lemma FinalizedHeightFalls(tip: nat, tip': nat)
    ensures FinalizedHeight(tip') < FinalizedHeight(tip) <==> tip' < tip && tip > MAX_REORG_DEPTH
  {
  }

  /** The finality test and the depth test accept exactly the same candidates. */
  lemma FinalityTestIsDepthTest(tip: nat, common: nat)
    requires common <= tip
    ensures common < FinalizedHeight(tip) <==> tip - common > MAX_REORG_DEPTH
  {
  }

  /** Confirmations of a block and its finality: finalized means more than 120 confirmations, or genesis. */
  function Confirmations(tip: nat, height: nat): Option<nat> {
    if height > tip then None else Some(tip - height + 1)
  }

  lemma FinalizedByConfirmations(tip: nat, height: nat)
    requires height <= tip
    ensures height <= FinalizedHeight(tip) <==> height == 0 || Confirmations(tip, height).value > MAX_REORG_DEPTH
  {
  }

  method ValidateFinalizedReorg(sha: Sha, current: Chain, candidate: Chain) returns (error: Option<ReorgError>)
    ensures var top := Lower(current.Height(), candidate.Height());
            error.None? <==>
              exists h :: HighestMatch(sha, current.blocks, candidate.blocks, top, h)
                          && FinalizedHeight(current.Height()) <= h
    ensures var top := Lower(current.Height(), candidate.Height());
            error == Some(NoCommonGenesis) <==>
              forall h :: 0 <= h <= top ==> !Match(sha, current.blocks, candidate.blocks, h)
    ensures error.None? || error == Some(NoCommonGenesis) || error == Some(FinalizedHistory)
  {
    var finalizedHeight := FinalizedHeight(current.Height());
    var r := ReorgDepth(sha, current, candidate);
    if r.None? {
      return Some(NoCommonGenesis);
    }
    HighestMatchUnique(sha, current.blocks, candidate.blocks, Lower(current.Height(), candidate.Height()), r.value.1);
    if r.value.1 < finalizedHeight {
      return Some(FinalizedHistory);
    }
    return None;
  }

  lemma HighestMatchUnique(sha: Sha, a: seq<Block>, b: seq<Block>, top: nat, h: nat)
    requires HighestMatch(sha, a, b, top, h)
    ensures forall k :: HighestMatch(sha, a, b, top, k) ==> k == h
  {
    hide Match;
  }

  // ----- rebuilding state

  ghost predicate AllFound(blocks: seq<Block>, height: nat) {
    forall n :: 1 <= n <= height ==> Found(blocks, n)
  }

  /** The blocks up to the height that the last block claims. */
  function UpTo(blocks: seq<Block>, height: nat): seq<Block> {
    blocks[..if height < |blocks| then height + 1 else |blocks|]
  }

  /** Replay the blocks at heights 1 up to the chain's height into a fresh state; None is any failure: an unknown network,
      a height without its block, or a block that is not processed. */
  method BuildStateFromChain(check: SignatureCheck, chain: Chain) returns (r: Option<State>)
    ensures r.Some? ==> fresh(r.value)
    ensures var policy := PolicyFor(chain.config.network);
            if policy.None? || !AllFound(chain.blocks, chain.Height()) then r.None?
            else match Replay(check, policy.value, UpTo(chain.blocks, chain.Height()))
                 case Ok(l) => r.Some? && r.value.View() == l
                 case Err(_) => r.None?
    ensures chain.blocks != [] && HeightsCount(chain.blocks) ==>
              AllFound(chain.blocks, chain.Height()) && UpTo(chain.blocks, chain.Height()) == chain.blocks
  {
    hide ProcessBlock, Replay;
    var policy := PolicyFor(chain.config.network);
    if policy.None? {
      return None;
    }
    var state := new State(policy.value);
    var height: nat := chain.Height();
    ghost var all := UpTo(chain.blocks, height);
    ReplayNothing(check, policy.value, all[..if all == [] then 0 else 1]);
    var next := 1;
    while next <= height
      invariant 1 <= next <= height + 1 && fresh(state)
      invariant forall n :: 1 <= n < next ==> Found(chain.blocks, n)
      invariant next > 1 ==> next <= |chain.blocks|
      invariant Replay(check, policy.value, all[..if next <= |all| then next else |all|]) == Ok(state.View())
    {
      var block := chain.BlockByHeight(next);
      if block.None? {
        return None;
      }
      assert next < |all| && all[next] == block.value;
      assert all[..next + 1][..next] == all[..next];
      if block.value.miner == "" {
        NoMinerFails(check, state.View(), policy.value, block.value.height, block.value.txs);
        ReplayFails(check, policy.value, all, next);
        return None;
      }
      ReplayNext(check, policy.value, all[..next + 1]);
      var processed := state.ProcessBlockFor(check, policy.value, block.value, block.value.miner);
      if processed.Err? {
        ReplayFails(check, policy.value, all, next);
        return None;
      }
      next := next + 1;
    }
    assert all[..if next <= |all| then next else |all|] == all;
    return Some(state);
  }

  lemma ReplayNothing(check: SignatureCheck, policy: Policy, blocks: seq<Block>)
    requires |blocks| <= 1
    ensures Replay(check, policy, blocks) == Ok(EmptyLedger(policy))
  {
  }

  lemma ReplayNext(check: SignatureCheck, policy: Policy, blocks: seq<Block>)
    requires |blocks| > 1 && Replay(check, policy, blocks[..|blocks| - 1]).Ok?
    ensures var b, l := blocks[|blocks| - 1], Replay(check, policy, blocks[..|blocks| - 1]).value;
            match ProcessBlock(check, l, policy, b.height, b.txs, b.miner)
            case Ok((next, _)) => Replay(check, policy, blocks) == Ok(next)
            case Err(e) => Replay(check, policy, blocks) == Err(e)
  {
    hide ProcessBlock;
  }

  /** A block that is not processed ends the replay. */
  lemma ReplayFails(check: SignatureCheck, policy: Policy, blocks: seq<Block>, k: nat)
    requires 0 < k < |blocks| && Replay(check, policy, blocks[..k]).Ok?
    requires ProcessBlock(check, Replay(check, policy, blocks[..k]).value, policy, blocks[k].height, blocks[k].txs,
                          blocks[k].miner).Err?
    ensures Replay(check, policy, blocks).Err?
  {
    hide ProcessBlock, Replay;
    assert blocks[..k + 1][..k] == blocks[..k];
    ReplayNext(check, policy, blocks[..k + 1]);
    ReplayStops(check, policy, blocks, k + 1);
  }

  lemma NoMinerFails(check: SignatureCheck, l: Ledger, policy: Policy, height: nat, txs: seq<Tx>)
    ensures ProcessBlock(check, l, policy, height, txs, "").Err?
  {
  }

  lemma ReplayStops(check: SignatureCheck, policy: Policy, blocks: seq<Block>, k: nat)
    requires k <= |blocks| && Replay(check, policy, blocks[..k]).Err?
    ensures Replay(check, policy, blocks).Err?
  {
    if Replay(check, policy, blocks).Ok? {
      ReplayPrefix(check, policy, blocks, k);
    }
  }

  // ----- reorganization

  /** The two sequences part at most 120 blocks below the first one's tip. */
  ghost predicate WithinDepth(sha: Sha, blocks: seq<Block>, candidate: seq<Block>)
    requires blocks != [] && candidate != []
  {
    var top := Lower(|blocks| - 1, |candidate| - 1);
    exists h :: HighestMatch(sha, blocks, candidate, top, h) && |blocks| - 1 - h <= MAX_REORG_DEPTH
  }

  /** Exactly when a candidate replaces the current blocks: valid, better, not too deep, replayable, and still valid
      under the current chain's own configuration at the second set of clock readings. */
  ghost predicate Adopts(sha: Sha, check: SignatureCheck, cfg: Config, blocks: seq<Block>,
                         candidateCfg: Config, candidate: seq<Block>, clock: nat -> int, clock': nat -> int)
    requires blocks != []
  {
    && ValidChain(sha, candidateCfg, candidate) && TimelyChain(candidate, clock)
    && candidateCfg.network == cfg.network && PolicyFor(cfg.network).Some?
    && Beats(WorkSum(candidate), |candidate| - 1, WorkSum(blocks), |blocks| - 1)
    && WithinDepth(sha, blocks, candidate)
    && Replay(check, PolicyFor(cfg.network).value, candidate).Ok?
    && candidateCfg.activation == cfg.activation
    && ValidChain(sha, cfg, candidate) && TimelyChain(candidate, clock')
  }

  lemma ValidHeights(sha: Sha, cfg: Config, blocks: seq<Block>)
    requires ValidChain(sha, cfg, blocks) && GenuineGenesis(sha, cfg.network, blocks)
    ensures blocks != [] && HeightsCount(blocks) && blocks[|blocks| - 1].height == |blocks| - 1
  {
    hide Extends, GenesisFault, GenuineGenesis;
    forall i | 0 <= i < |blocks| ensures blocks[i].height == i {
      ChainShape(sha, cfg, blocks, i);
    }
  }

  lemma DepthDecides(sha: Sha, blocks: seq<Block>, candidate: seq<Block>, common: nat)
    requires blocks != [] && candidate != []
    requires HighestMatch(sha, blocks, candidate, Lower(|blocks| - 1, |candidate| - 1), common)
    ensures WithinDepth(sha, blocks, candidate) <==> |blocks| - 1 - common <= MAX_REORG_DEPTH
  {
    hide HighestMatch;
    HighestMatchUnique(sha, blocks, candidate, Lower(|blocks| - 1, |candidate| - 1), common);
  }

  /** The outcome of a reorganization attempt: the first thing that stands in its way, or adoption. */
  ghost predicate IsVerdict(r: Result<bool, ReorgError>, sha: Sha, check: SignatureCheck, cfg: Config, blocks: seq<Block>,
                            policy: Policy, candidateCfg: Config, candidate: seq<Block>, clock: nat -> int, clock': nat -> int)
    requires blocks != []
  {
    var known := PolicyFor(cfg.network);
    if known.None? then r == Err(NetworkUnknown)
    else if policy != known.value then r == Err(StatePolicyMismatch)
    else if !(ValidChain(sha, candidateCfg, candidate) && TimelyChain(candidate, clock)) then
      r.Err? && r.error.CandidateInvalid?
    else if candidateCfg.network != cfg.network then r == Err(CrossNetwork)
    else if !Beats(WorkSum(candidate), |candidate| - 1, WorkSum(blocks), |blocks| - 1) then r == Ok(false)
    else if !WithinDepth(sha, blocks, candidate) then r == Err(FinalizedHistory)
    else if Replay(check, known.value, candidate).Err? then r == Err(RebuildFailed)
    else if candidateCfg.activation != cfg.activation
            || !(ValidChain(sha, cfg, candidate) && TimelyChain(candidate, clock')) then r == Err(ReplaceFailed)
    else r == Ok(true)
  }

  /** Install a better chain together with the state it produces, or change nothing. */
  method ReorganizeToCandidate(sha: Sha, check: SignatureCheck, current: Chain, state: State, candidate: Chain,
                               clock: nat -> int, clock': nat -> int)
    returns (r: Result<bool, ReorgError>)
    requires current.Valid(sha) && GenuineGenesis(sha, current.config.network, current.blocks)
    requires GenuineGenesis(sha, current.config.network, candidate.blocks)
    modifies current, state
    ensures r == Ok(true) <==>
              && Some(old(state.monetaryPolicy)) == PolicyFor(current.config.network)
              && old(Adopts(sha, check, current.config, current.blocks, candidate.config, candidate.blocks, clock, clock'))
    ensures r == Ok(true) ==>
              && current.blocks == old(candidate.blocks) && current.Valid(sha)
              && Replay(check, PolicyFor(current.config.network).value, current.blocks) == Ok(state.View())
    ensures r != Ok(true) ==> unchanged(current) && unchanged(state)
    ensures old(current.blocks) != [] &&
            IsVerdict(r, sha, check, current.config, old(current.blocks), old(state.monetaryPolicy),
                      candidate.config, old(candidate.blocks), clock, clock')
  {
    hide ValidChain, TimelyChain, GenuineGenesis, Replay, HighestMatch, WithinDepth, Match, WorkSum;
    CurrentNotEmpty(sha, current.config, current.blocks);
    var policy := PolicyFor(current.config.network);
    if policy.None? {
      return Err(NetworkUnknown);
    }
    if state.monetaryPolicy != policy.value {
      return Err(StatePolicyMismatch);
    }
    var validated := Chain.Revalidate(sha, candidate.config, candidate.blocks, clock);
    if validated.Err? {
      return Err(CandidateInvalid(validated.error));
    }
    var fork := validated.value;
    var best := BetterChain(current, fork);
    if best.None? {
      return Err(CrossNetwork);
    }
    ValidHeights(sha, current.config, current.blocks);
    ValidHeights(sha, fork.config, fork.blocks);
    if best.value == current {
      return Ok(false);
    }
    var reorgDepth := ReorgDepth(sha, current, fork);
    GenesisMatches(sha, current.config, current.blocks, fork.config, fork.blocks);
    assert reorgDepth.Some?;
    var (depth, common) := reorgDepth.value;
    DepthDecides(sha, current.blocks, fork.blocks, common);
    FinalityTestIsDepthTest(current.Height(), common);
    HighestMatchUnique(sha, current.blocks, fork.blocks, Lower(current.Height(), fork.Height()), common);
    var refused := ValidateFinalizedReorg(sha, current, fork);
    if refused.Some? {
      return Err(refused.value);
    }
    if depth > MAX_REORG_DEPTH {
      return Err(TooDeep);
    }
    var candidateState := BuildStateFromChain(check, fork);
    if candidateState.None? {
      return Err(RebuildFailed);
    }
    var replaced := current.ReplaceWith(sha, fork, clock');
    if !replaced {
      return Err(ReplaceFailed);
    }
    state.ReplaceWith(candidateState.value);
    return Ok(true);
  }

  lemma CurrentNotEmpty(sha: Sha, cfg: Config, blocks: seq<Block>)
    requires ValidChain(sha, cfg, blocks)
    ensures blocks != []
  {
  }

  /** An adopted candidate keeps the hash of every block at or below the finalized height, and of every block but the
      last 120, unless two headers at the same height collide. */
  lemma AdoptionKeepsFinalized(sha: Sha, check: SignatureCheck, cfg: Config, blocks: seq<Block>,
                               candidateCfg: Config, candidate: seq<Block>, clock: nat -> int, clock': nat -> int, h: nat)
    requires ValidChain(sha, cfg, blocks) && GenuineGenesis(sha, cfg.network, blocks)
    requires GenuineGenesis(sha, cfg.network, candidate)
    requires Adopts(sha, check, cfg, blocks, candidateCfg, candidate, clock, clock')
    requires NoCollisions(sha, blocks, candidate)
    requires h <= FinalizedHeight(|blocks| - 1) || h + MAX_REORG_DEPTH < |blocks|
    ensures h < |candidate| && BlockHash(sha, candidate[h]) == BlockHash(sha, blocks[h])
  {
    hide ValidChain, GenuineGenesis, Replay, BlockHash, Collision, TimelyChain;
    var common :| HighestMatch(sha, blocks, candidate, Lower(|blocks| - 1, |candidate| - 1), common)
                  && |blocks| - 1 - common <= MAX_REORG_DEPTH;
    HighestMatchIsCommonPrefix(sha, cfg, blocks, candidateCfg, candidate, common, h);
  }
}
