/** Synchronizing with a peer (SyncFromPeer in p2p/sync_handler.go): compare, download, choose, reorganize. */
module Syncing {
  import opened Prelude
  import opened Params
  import opened Transactions
  import opened Blocks
  import opened Chains
  import opened ChainObject
  import opened Reorgs
  import opened NodeRuns
  import opened NodeObject
  import opened Sync

  datatype SyncOutcome =
    | NothingToDo
    | DownloadFailed(error: SyncError)
    | OtherNetworkChain
    | CandidateLoses
    | ReorganizationFailed
    | NotAdopted
    | ChainAdopted(recovered: nat)

  /** What the peer advertised is worth a download. */
  ghost predicate Promising(sha: Sha, blocks: seq<Block>, remoteHeight: nat, remoteTip: string, remoteWork: nat)
    requires blocks != []
  {
    var tip := blocks[|blocks| - 1];
    Decide(tip.height, BlockHash(sha, tip), WorkSum(blocks), remoteHeight, remoteTip, remoteWork) == Download
  }

  /**
   A candidate that matches its advertisement never loses the fork choice after the download; it is adopted exactly when
   the reorganization rule adopts it, and otherwise nothing changes. An honest peer's chain is the one considered.
   */
  method SyncFromPeer(node: Node, peer: Peer, clock: nat -> int, clock': nat -> int, clock'': nat -> int,
                      remoteHeight: nat, remoteTip: string, remoteWork: nat, ghost source: seq<Block>)
    returns (outcome: SyncOutcome, ghost candidate: seq<Block>, ghost ordered: seq<Tx>)
    requires node.Valid() && GenuineGenesis(node.c.sha, node.c.config.network, node.chain.blocks)
    modifies node.chain, node.state, node.pool
    ensures node.Valid() && !outcome.CandidateLoses? && !outcome.NotAdopted?
    ensures old(node.chain.blocks) != [] &&
            (outcome.NothingToDo? <==> !Promising(node.c.sha, old(node.chain.blocks), remoteHeight, remoteTip, remoteWork))
    ensures outcome.ChainAdopted? ==>
              Takes(node.c, old(node.View()), Reorganized(LegacyConfig(node.c.sha), candidate, clock', clock'', ordered),
                    node.View())
    ensures !outcome.ChainAdopted? ==> node.View() == old(node.View())
    ensures outcome.ReorganizationFailed? || outcome.NotAdopted? ==>
              !Adopts(node.c.sha, node.c.check, node.c.config, old(node.chain.blocks), LegacyConfig(node.c.sha), candidate,
                      clock', clock'')
    ensures outcome.OtherNetworkChain? ==> node.c.config.network != PublicTestnet
    ensures Honest(node.c.sha, peer, source, clock, remoteHeight, remoteTip, remoteWork)
            && Promising(node.c.sha, old(node.chain.blocks), remoteHeight, remoteTip, remoteWork) ==>
              !outcome.DownloadFailed? &&
              (outcome.ChainAdopted? <==>
                 node.c.config.network == PublicTestnet &&
                 Adopts(node.c.sha, node.c.check, node.c.config, old(node.chain.blocks), LegacyConfig(node.c.sha), source,
                        clock', clock''))
  {
    hide ValidChain, BlockHash, GenuineGenesis, LegacyConfig, Honest, Takes, Adopts, Sound, WorkSum;
    ordered, candidate := [], [];
    var sha := node.c.sha;
    NodeTip(node);
    var localTip := node.chain.blocks[|node.chain.blocks| - 1];
    var decision := Decide(node.chain.Height(), BlockHash(sha, localTip), node.chain.totalWork,
                           remoteHeight, remoteTip, remoteWork);
    if decision != Download {
      return NothingToDo, candidate, ordered;
    }
    var downloaded, _ := DownloadCandidateChain(sha, peer, clock, remoteHeight, remoteTip, remoteWork, source);
    if downloaded.Err? {
      return DownloadFailed(downloaded.error), candidate, ordered;
    }
    var fork := downloaded.value;
    candidate := fork.blocks;
    LegacyNetwork(sha);
    var best := BetterChain(node.chain, fork);
    if best.None? {
      return OtherNetworkChain, candidate, ordered;
    }
    DownloadsExactlyWhatWouldWin(node.chain.Height(), BlockHash(sha, localTip), node.chain.totalWork,
                                 remoteHeight, remoteTip, remoteWork);
    assert best.value == fork;
    LiteralGenesis(sha, fork.blocks);
    ghost var before := node.View();
    var adopted;
    adopted, ordered := node.ReorganizeWithMempoolRecovery(fork, clock', clock'');
    if adopted.Err? {
      RefusalChangesNothing(node.c, before, node.View());
      BetterIsNotKept(node.c, before.blocks, before.ledger.policy, fork.config, fork.blocks, clock', clock'');
      return (if adopted.error.Some? then ReorganizationFailed else NotAdopted), candidate, ordered;
    }
    return ChainAdopted(adopted.value), candidate, ordered;
  }

  lemma RefusalChangesNothing(c: Context, s: NodeView, s': NodeView)
    requires Takes(c, s, Refused, s')
    ensures s' == s
  {
  }

  /** A valid candidate that wins the fork choice is never set aside as no better. */
  lemma BetterIsNotKept(c: Context, blocks: seq<Block>, policy: Policy, candidateConfig: Config, candidate: seq<Block>,
                        clock: nat -> int, clock': nat -> int)
    requires blocks != [] && candidate != []
    requires Beats(WorkSum(candidate), |candidate| - 1, WorkSum(blocks), |blocks| - 1)
    ensures !IsVerdict(Ok(false), c.sha, c.check, c.config, blocks, policy, candidateConfig, candidate, clock, clock')
  {
    hide ValidChain, WithinDepth, WorkSum;
  }

  lemma NodeTip(node: Node)
    requires node.Valid() && GenuineGenesis(node.c.sha, node.c.config.network, node.chain.blocks)
    ensures node.chain.blocks != [] && node.chain.totalWork == WorkSum(node.chain.blocks)
    ensures node.chain.config == node.c.config && node.chain.Height() == |node.chain.blocks| - 1
  {
    hide ValidChain, GenuineGenesis, WorkSum;
    ValidHeights(node.c.sha, node.c.config, node.chain.blocks);
  }

  lemma LegacyNetwork(sha: Sha)
    ensures LegacyConfig(sha).network == PublicTestnet
  {
  }

  lemma LiteralGenesis(sha: Sha, blocks: seq<Block>)
    requires blocks != [] && Some(blocks[0]) == GenesisBlock(PublicTestnet)
    ensures GenuineGenesis(sha, PublicTestnet, blocks)
  {
  }
}
