/** Following cursors on a running node: each page is served from the chain the node has at that moment of its run. */
module Browsing {
  import opened Prelude
  import opened Params
  import opened Transactions
  import opened Effects
  import opened Ledgers
  import opened Blocks
  import opened Chains
  import opened Replaying
  import opened Reorgs
  import opened NodeRuns
  import opened Commitments
  import opened Explorer

  // ----- listings and balances

  /** What listed transactions add up to for an account. */
  function NetOf(es: seq<Confirmed>, account: string, treasury: string): int {
    if es == [] then 0 else Delta(es[0].tx, account, treasury) + NetOf(es[1..], account, treasury)
  }

  lemma {:induction false} NetOfSum(a: seq<Confirmed>, b: seq<Confirmed>, account: string, treasury: string)
    ensures NetOf(a + b, account, treasury) == NetOf(a, account, treasury) + NetOf(b, account, treasury)
  {
    hide Delta;
    if a == [] {
      assert a + b == b;
    } else {
      NetOfSum(a[1..], b, account, treasury);
      assert (a + b)[1..] == a[1..] + b;
    }
  }

  lemma UnconcernedIsUnchanged(tx: Tx, account: string)
    requires account != "" && account != TREASURY && !Concerns(account, tx)
    ensures Delta(tx, account, TREASURY) == 0
  {
  }

  lemma NetOfOne(tx: Tx, account: string)
    ensures Net([tx], account, TREASURY) == Delta(tx, account, TREASURY)
  {
    hide Delta;
    assert [tx][..0] == [];
  }

  lemma {:induction false} BlockListsNet(sha: Sha, b: Block, account: string, height: nat, offset: nat)
    requires account != "" && account != TREASURY && offset <= |b.txs|
    ensures NetOf(BlockEntries(sha, b, account, height, offset), account, TREASURY) == Net(b.txs[offset..], account, TREASURY)
    decreases |b.txs| - offset
  {
    hide Delta, BlockHash, Net, Concerns;
    if offset == |b.txs| {
      assert b.txs[offset..] == [] && Net([], account, TREASURY) == 0 by { NetOfNothing(account); }
    } else {
      var tx, rest := b.txs[offset], BlockEntries(sha, b, account, height, offset + 1);
      BlockListsNet(sha, b, account, height, offset + 1);
      assert b.txs[offset..] == [tx] + b.txs[offset + 1..];
      NetSplit([tx], b.txs[offset + 1..], account, TREASURY);
      NetOfOne(tx, account);
      if Concerns(account, tx) {
        var e := Entry(sha, b, tx, height);
        NetOfSum([e], rest, account, TREASURY);
        assert NetOf([e], account, TREASURY) == Delta(tx, account, TREASURY);
      } else {
        UnconcernedIsUnchanged(tx, account);
        assert [] + rest == rest;
      }
    }
  }

  /** For every account but the treasury the listed transactions add up to what all transactions do to it. */
  lemma {:induction false} ListsNet(sha: Sha, blocks: seq<Block>, account: string, height: nat)
    requires account != "" && account != TREASURY && height < |blocks|
    ensures NetOf(Entries(sha, blocks, account, height, 0), account, TREASURY)
            == Net(blocks[0].txs, account, TREASURY) + Net(AllTxs(blocks[..height + 1]), account, TREASURY)
  {
    hide Delta, BlockHash, Net, Concerns, BlockEntries, NetOf, Entries, AllTxs;
    var b := blocks[height];
    EntriesSplit(sha, blocks, account, height, 0);
    BlockListsNet(sha, b, account, height, 0);
    assert b.txs[0..] == b.txs;
    NetOfSum(BlockEntries(sha, b, account, height, 0), Older(sha, blocks, account, height), account, TREASURY);
    AllTxsUpTo(blocks, height);
    if height == 0 {
      NetOfNothing(account);
      assert NetOf([], account, TREASURY) == 0 by { NetOfNone(account); }
    } else {
      ListsNet(sha, blocks, account, height - 1);
      NetSplit(AllTxs(blocks[..height]), b.txs, account, TREASURY);
    }
  }

  lemma AllTxsUpTo(blocks: seq<Block>, height: nat)
    requires height < |blocks|
    ensures AllTxs(blocks[..height + 1]) == if height == 0 then [] else AllTxs(blocks[..height]) + blocks[height].txs
  {
    assert blocks[..height + 1][..height] == blocks[..height];
  }

  lemma NetOfNone(account: string)
    ensures NetOf([], account, TREASURY) == 0
  {
  }

  /** The history the explorer lists for an account, with what the account earned by mining, explains its balance. */
  lemma ListingExplainsBalance(sha: Sha, check: SignatureCheck, policy: Policy, blocks: seq<Block>, account: string)
    requires !policy.OtherPolicy? && blocks != [] && HeightsCount(blocks) && blocks[0].txs == []
    requires Replay(check, policy, blocks).Ok? && account != "" && account != TREASURY
    ensures Replay(check, policy, blocks).value.Balance(account)
            == NetOf(Listing(sha, blocks, account, "", None), account, TREASURY) + Earned(policy, blocks, account)
  {
    hide Replay, Net, NetOf, Entries, Earned, AllTxs;
    ReplayBalance(check, policy, blocks, account);
    ListsNet(sha, blocks, account, |blocks| - 1);
    NetOfNothing(account);
    assert blocks[..|blocks|] == blocks;
  }

  // ----- pages of a run

  /** A node on the genesis block of its network. */
  ghost predicate Rooted(c: Context, blocks: seq<Block>) {
    c.Known() && blocks != [] && Some(blocks[0]) == GenesisBlock(c.config.network)
  }

  /** Candidates are built on the genesis block, as downloaded ones are. */
  ghost predicate RootedEvent(c: Context, e: Event) {
    e.Reorganized? ==> Rooted(c, e.candidate)
  }

  lemma StepStaysRooted(c: Context, s: NodeView, e: Event, s': NodeView)
    requires Rooted(c, s.blocks) && RootedEvent(c, e) && Takes(c, s, e, s')
    ensures Rooted(c, s'.blocks)
  {
    hide Adopts, Recovers, Replay, Extends;
  }

  lemma {:induction false} EveryRunIsRooted(c: Context, states: seq<NodeView>, events: seq<Event>, i: nat)
    requires IsRun(c, states, events) && Rooted(c, states[0].blocks) && i < |states|
    requires forall k :: 0 <= k < |events| ==> RootedEvent(c, events[k])
    ensures Rooted(c, states[i].blocks)
  {
    hide Takes, Rooted, RootedEvent;
    if i > 0 {
      EveryRunIsRooted(c, states, events, i - 1);
      StepStaysRooted(c, states[i - 1], events[i - 1], states[i]);
    }
  }

  /** A run of a node that starts sound on its genesis block. */
  ghost predicate RootedRun(c: Context, states: seq<NodeView>, events: seq<Event>) {
    && IsRun(c, states, events) && Sound(c, states[0]) && Rooted(c, states[0].blocks)
    && forall k :: 0 <= k < |events| ==> RootedEvent(c, events[k])
  }

  lemma RootedIsGenuine(c: Context, blocks: seq<Block>)
    requires Rooted(c, blocks)
    ensures GenuineGenesis(c.sha, c.config.network, blocks) && blocks[0].txs == []
  {
    hide Header, BlockHash;
  }

  lemma StateIsServed(c: Context, states: seq<NodeView>, events: seq<Event>, i: nat)
    requires RootedRun(c, states, events) && i < |states| && ChecksIds(c.sha, c.check)
    ensures Served(c.sha, states[i].blocks)
  {
    hide Takes, IsRun, Replay, ValidChain, Served, GenuineGenesis, ChecksIds, Rooted, RootedEvent;
    EveryRunIsSound(c, states, events, i);
    EveryRunIsRooted(c, states, events, i);
    RootedIsGenuine(c, states[i].blocks);
    ReplayedIsServed(c.sha, c.config, c.check, c.Policy(), states[i].blocks);
  }

  lemma StateIsSized(c: Context, states: seq<NodeView>, events: seq<Event>, i: nat)
    requires RootedRun(c, states, events) && i < |states|
    ensures var blocks := states[i].blocks;
            && blocks != [] && HeightsCount(blocks)
            && forall n :: 0 <= n < |blocks| ==> |blocks[n].txs| <= MAX_BLOCK_TXS
  {
    hide Takes, IsRun, Replay, GenuineGenesis, Rooted, RootedEvent, Extends, GenesisFault;
    EveryRunIsSound(c, states, events, i);
    EveryRunIsRooted(c, states, events, i);
    var blocks := states[i].blocks;
    RootedIsGenuine(c, blocks);
    ValidHeights(c.sha, c.config, blocks);
    forall n | 0 <= n < |blocks| ensures |blocks[n].txs| <= MAX_BLOCK_TXS {
      if n > 0 {
        ExtensionShape(c.sha, c.config, blocks[..n], blocks[n]);
      }
    }
  }

  /** The chains of the chosen moments of a run. */
  function ChainsAt(states: seq<NodeView>, at: seq<nat>): (histories: seq<seq<Block>>)
    requires forall k :: 0 <= k < |at| ==> at[k] < |states|
    ensures |histories| == |at| && forall k :: 0 <= k < |at| ==> histories[k] == states[at[k]].blocks
  {
    seq(|at|, k requires 0 <= k < |at| => states[at[k]].blocks)
  }

  /**
   Pages fetched from a running node: page k comes from the chain of state at[k], whatever blocks were accepted, mined or
   replaced in between. If every request is answered and the last cursor is empty, the pages show exactly the matching
   transactions of the chain of the first request, in order, without gap or repeat, barring collisions.
   */
  lemma PagesOfARun(c: Context, states: seq<NodeView>, events: seq<Event>, at: seq<nat>, address: string, limit: nat,
                    before: Option<nat>, raws: seq<string>, pages: seq<seq<Confirmed>>, inputs: set<string>)
    requires RootedRun(c, states, events) && ChecksIds(c.sha, c.check) && CollisionFree(c.sha, inputs)
    requires forall k :: 0 <= k < |at| ==> at[k] < |states| && ChainInputs(c.sha, states[at[k]].blocks) <= inputs
    requires Follows(c.sha, address, limit, before, ChainsAt(states, at), raws, pages) && raws[|pages|] == ""
    ensures ShownAll(Concat(pages)) == ShownAll(Listing(c.sha, states[at[0]].blocks, address, raws[0], before))
  {
    hide RootedRun, ChecksIds, CollisionFree, ChainInputs, Served, ShownAll, Listing;
    var histories := ChainsAt(states, at);
    assert |histories| == |pages|;
    forall k | 0 <= k < |histories| ensures ServedAt(c.sha, histories, inputs, k) {
      StateIsServed(c, states, events, at[k]);
    }
    FollowingListsAll(c.sha, address, limit, before, histories, raws, pages, inputs);
  }

  /** Fetching pages from a running node ends, whatever the hash and the run. */
  lemma PagesOfARunEnd(c: Context, states: seq<NodeView>, events: seq<Event>, at: seq<nat>, address: string, limit: nat,
                       before: Option<nat>, raws: seq<string>, pages: seq<seq<Confirmed>>)
    requires RootedRun(c, states, events) && forall k :: 0 <= k < |at| ==> at[k] < |states|
    requires Follows(c.sha, address, limit, before, ChainsAt(states, at), raws, pages)
    ensures |pages| <= 1 + Room(c.sha, states[at[0]].blocks, raws[0], before)
  {
    hide RootedRun, Room;
    var histories := ChainsAt(states, at);
    assert |histories| == |pages|;
    forall k | 0 <= k < |histories| ensures SizedAt(histories, k) {
      StateIsSized(c, states, events, at[k]);
    }
    FollowingEnds(c.sha, address, limit, before, histories, raws, pages);
  }
}
