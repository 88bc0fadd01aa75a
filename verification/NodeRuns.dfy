/**
 The node as a state machine: what accepting, mining, admitting and reorganizing do to chain, ledger and pool together,
 and what every run of these steps keeps. Class `Node` in NodeObject.dfy takes these steps in place.
 */
module NodeRuns {
  import opened Prelude
  import opened Params
  import opened Transactions
  import opened Ledgers
  import opened Conservation
  import opened Blocks
  import opened Work
  import opened Difficulty
  import opened Chains
  import opened ChainObject
  import opened Replaying
  import opened Reorgs
  import opened Pools
  import opened Admission
  import opened PoolBlocks
  import opened Rebuild
  import Emission

  /** The fixed surroundings of a run: hash, signature check and the chain's configuration. */
  datatype Context = Context(sha: Sha, check: SignatureCheck, config: Config) {
    predicate Known() {
      PolicyFor(config.network).Some?
    }

    function Policy(): Policy
      requires Known()
    {
      PolicyFor(config.network).value
    }
  }

  datatype NodeView = NodeView(blocks: seq<Block>, ledger: Ledger, pool: Pool)

  datatype Event =
    | Refused
    | Accepted(block: Block)
    | Mined(block: Block)
    | Admitted(tx: Tx)
    | Reorganized(candidateConfig: Config, candidate: seq<Block>, clock: nat -> int, clock': nat -> int, ordered: seq<Tx>)

  /** A block extends the chain, its transactions and reward are processed, and its transactions leave the pool. */
  ghost predicate Commits(c: Context, s: NodeView, b: Block, s': NodeView) {
    && c.Known()
    && Extends(c.sha, c.config, s.blocks, b)
    && ProcessBlock(c.check, s.ledger, c.Policy(), b.height, b.txs, b.miner).Ok?
    && s'.blocks == s.blocks + [b]
    && s'.ledger == ProcessBlock(c.check, s.ledger, c.Policy(), b.height, b.txs, b.miner).value.0
    && s'.pool == RemoveAll(s.pool, b.txs)
  }

  /** Candidates for the rebuilt pool: the old pool's transactions and the abandoned chain's unprocessed ones, by id. */
  ghost predicate Recovers(blocks: seq<Block>, pool: Pool, ledger: Ledger, ordered: seq<Tx>) {
    && InOrder(ordered) && NoncesRisePerSender(ordered)
    && (forall t :: t in ordered ==> pool.Holds(t) || t in AllTxs(blocks))
    && (forall t :: pool.Holds(t) && t.id != "" ==> t.id in Ids(ordered))
    && (forall t :: t in AllTxs(blocks) && t.id != "" && t.id !in ledger.processed ==> t.id in Ids(ordered))
  }

  ghost predicate Takes(c: Context, s: NodeView, e: Event, s': NodeView) {
    match e
    case Refused => s' == s
    case Accepted(b) => Commits(c, s, b, s')
    case Mined(b) => Commits(c, s, b, s') && forall t :: t in b.txs ==> s.pool.Holds(t)
    case Admitted(tx) =>
      && Agrees(s.pool)
      && Admit(c.check, s.ledger, s.pool, tx, c.config.network) == Ok(s'.pool)
      && s'.blocks == s.blocks && s'.ledger == s.ledger
    case Reorganized(candidateConfig, candidate, clock, clock', ordered) =>
      && s.blocks != []
      && Adopts(c.sha, c.check, c.config, s.blocks, candidateConfig, candidate, clock, clock')
      && s'.blocks == candidate
      && Replay(c.check, c.Policy(), candidate) == Ok(s'.ledger)
      && Recovers(s.blocks, s.pool, s'.ledger, ordered)
      && s'.pool == AdmitAll(c.check, s'.ledger, ordered, c.config.network)
  }

  /** The live ledger is the replay of the chain, the chain is valid, and the pool's maps agree. */
  ghost predicate Sound(c: Context, s: NodeView) {
    && c.Known()
    && ValidChain(c.sha, c.config, s.blocks)
    && Replay(c.check, c.Policy(), s.blocks) == Ok(s.ledger)
    && Agrees(s.pool)
  }

  lemma CommitKeepsSound(c: Context, s: NodeView, b: Block, s': NodeView)
    requires Sound(c, s) && Commits(c, s, b, s')
    ensures Sound(c, s') && WorkSum(s'.blocks) > WorkSum(s.blocks)
  {
    hide Extends, ProcessBlock, GenesisFault, BlockWork, Agrees, RemoveAll;
    AppendValid(c.sha, c.config, s.blocks, b);
    ExtensionAddsWork(c.sha, c.config, s.blocks, b);
    RemoveAllHolds(s.pool, b.txs);
    assert s'.blocks[..|s'.blocks| - 1] == s.blocks;
  }

  /** Every step, successful or refused, keeps the node sound. */
  lemma StepKeepsSound(c: Context, s: NodeView, e: Event, s': NodeView)
    requires Sound(c, s) && Takes(c, s, e, s')
    ensures Sound(c, s')
  {
    hide Commits, ValidChain, Replay, Agrees, Recovers;
    match e
    case Refused =>
    case Accepted(b) => CommitKeepsSound(c, s, b, s');
    case Mined(b) => CommitKeepsSound(c, s, b, s');
    case Admitted(tx) => AdmitKeepsAgreement(c, s, tx, s');
    case Reorganized(_, _, _, _, _) =>
  }

  lemma AdmitKeepsAgreement(c: Context, s: NodeView, tx: Tx, s': NodeView)
    requires Agrees(s.pool) && Admit(c.check, s.ledger, s.pool, tx, c.config.network) == Ok(s'.pool)
    ensures Agrees(s'.pool)
  {
    hide Queue, Validate, Agrees;
    AddAgrees(s.pool, tx);
  }

  /** More total work, or the same work and more blocks. */
  ghost predicate Improves(before: seq<Block>, after: seq<Block>) {
    Beats(WorkSum(after), |after|, WorkSum(before), |before|)
  }

  /** A step that changes the chain moves it up in (total work, height), so the node never returns to a chain it left. */
  lemma ChainOnlyImproves(c: Context, s: NodeView, e: Event, s': NodeView)
    requires Sound(c, s) && Takes(c, s, e, s')
    ensures s'.blocks == s.blocks || Improves(s.blocks, s'.blocks)
  {
    hide Sound, Commits, Replay, Agrees, Recovers;
    match e
    case Refused =>
    case Accepted(b) => CommitKeepsSound(c, s, b, s');
    case Mined(b) => CommitKeepsSound(c, s, b, s');
    case Admitted(tx) =>
    case Reorganized(_, _, _, _, _) =>
  }

  // ----- whole runs

  ghost predicate IsRun(c: Context, states: seq<NodeView>, events: seq<Event>) {
    && |states| == |events| + 1
    && forall i :: 0 <= i < |events| ==> Takes(c, states[i], events[i], states[i + 1])
  }

  /** A freshly started node: the genesis block, the empty ledger and the empty pool. */
  ghost predicate Starts(c: Context, s: NodeView) {
    && c.Known() && s.blocks != [] && |s.blocks| == 1 && GenesisFault(c.sha, c.config, s.blocks[0]).None?
    && s.ledger == EmptyLedger(c.Policy()) && s.pool == EMPTY_POOL
  }

  lemma StartIsSound(c: Context, s: NodeView)
    requires Starts(c, s)
    ensures Sound(c, s)
  {
    EmptyAgrees();
    hide GenesisFault, Agrees;
  }

  /** In every state of every run the ledger equals the replay of the chain, which never fails. */
  lemma {:induction false} EveryRunIsSound(c: Context, states: seq<NodeView>, events: seq<Event>, i: nat)
    requires IsRun(c, states, events) && Sound(c, states[0]) && i < |states|
    ensures Sound(c, states[i])
  {
    hide Sound, Takes;
    if i > 0 {
      EveryRunIsSound(c, states, events, i - 1);
      StepKeepsSound(c, states[i - 1], events[i - 1], states[i]);
    }
  }

  /** In every state of every run each block above genesis has a proof that the verifier accepts, the version of its
      height and the difficulty that its history demands. */
  lemma EveryRunIsProved(c: Context, states: seq<NodeView>, events: seq<Event>, i: nat, h: nat)
    requires IsRun(c, states, events) && Sound(c, states[0]) && i < |states| && 0 < h < |states[i].blocks|
    ensures var blocks, b := states[i].blocks, states[i].blocks[h];
            && c.config.verifier.accepts(b) && b.version == VersionAt(c.config.activation, b.height)
            && b.difficulty == NextFromHistory(blocks[h - 1].difficulty, RecentIntervals(blocks[..h]))
  {
    hide Takes, IsRun, Replay, Agrees, Extends, GenesisFault, NextFromHistory, RecentIntervals;
    EveryRunIsSound(c, states, events, i);
    var blocks := states[i].blocks;
    assert Extends(c.sha, c.config, blocks[..h], blocks[h]);
    ExtendsExactly(c.sha, c.config, blocks[..h], blocks[h]);
  }

  /** Along every run (total work, height) never falls, and stays equal only while the chain stays the same. */
  lemma {:induction false} EveryRunImproves(c: Context, states: seq<NodeView>, events: seq<Event>, i: nat, j: nat)
    requires IsRun(c, states, events) && Sound(c, states[0]) && i <= j < |states|
    ensures states[j].blocks == states[i].blocks || Improves(states[i].blocks, states[j].blocks)
    decreases j
  {
    hide Sound, Takes, WorkSum;
    if i < j {
      EveryRunImproves(c, states, events, i, j - 1);
      EveryRunIsSound(c, states, events, j - 1);
      ChainOnlyImproves(c, states[j - 1], events[j - 1], states[j]);
    }
  }

  /** A node never returns to a chain it left: between two states with the same chain every state has that chain. */
  lemma ChainNeverReturns(c: Context, states: seq<NodeView>, events: seq<Event>, i: nat, k: nat, j: nat)
    requires IsRun(c, states, events) && Sound(c, states[0]) && i <= k <= j < |states|
    requires states[i].blocks == states[j].blocks
    ensures states[k].blocks == states[i].blocks
  {
    hide Sound, IsRun, WorkSum;
    EveryRunImproves(c, states, events, i, k);
    EveryRunImproves(c, states, events, k, j);
  }

  lemma StepKeepsFinalized(c: Context, s: NodeView, e: Event, s': NodeView, h: nat)
    requires Sound(c, s) && Takes(c, s, e, s') && h < |s.blocks| && h <= FinalizedHeight(|s.blocks| - 1)
    requires GenuineGenesis(c.sha, c.config.network, s.blocks) && GenuineGenesis(c.sha, c.config.network, s'.blocks)
    requires NoCollisions(c.sha, s.blocks, s'.blocks)
    ensures h < |s'.blocks| && BlockHash(c.sha, s'.blocks[h]) == BlockHash(c.sha, s.blocks[h])
  {
    hide Replay, Agrees, Recovers, BlockHash, ValidChain, GenuineGenesis, NoCollisions, Extends, Adopts, FinalizedHeight,
         ProcessBlock, RemoveAll, Admit, AdmitAll;
    match e
    case Refused =>
    case Accepted(b) =>
    case Mined(b) =>
    case Admitted(tx) =>
    case Reorganized(candidateConfig, candidate, clock, clock', _) =>
      AdoptionKeepsFinalized(c.sha, c.check, c.config, s.blocks, candidateConfig, candidate, clock, clock', h);
  }

  /** In state k height h is finalized, and the step from there on meets no collision. */
  ghost predicate FinalizedAt(c: Context, states: seq<NodeView>, k: nat, h: nat)
    requires k + 1 < |states|
  {
    var s, s' := states[k], states[k + 1];
    && h < |s.blocks| && h <= FinalizedHeight(|s.blocks| - 1)
    && GenuineGenesis(c.sha, c.config.network, s.blocks) && GenuineGenesis(c.sha, c.config.network, s'.blocks)
    && NoCollisions(c.sha, s.blocks, s'.blocks)
  }

  /** Finality along a run: a block keeps its hash from state i to state j if its height is finalized in every state
      on the way, barring collisions. */
  lemma {:induction false} FinalizedStays(c: Context, states: seq<NodeView>, events: seq<Event>, i: nat, j: nat, h: nat)
    requires IsRun(c, states, events) && Sound(c, states[0]) && i <= j < |states| && h < |states[i].blocks|
    requires forall k :: i <= k < j ==> FinalizedAt(c, states, k, h)
    ensures h < |states[j].blocks| && BlockHash(c.sha, states[j].blocks[h]) == BlockHash(c.sha, states[i].blocks[h])
    decreases j
  {
    hide Sound, Takes, BlockHash, GenuineGenesis, NoCollisions, FinalizedHeight;
    if i < j {
      FinalizedStays(c, states, events, i, j - 1, h);
      EveryRunIsSound(c, states, events, j - 1);
      assert FinalizedAt(c, states, j - 1, h);
      StepKeepsFinalized(c, states[j - 1], events[j - 1], states[j], h);
    }
  }

  /** Every ledger of every run is backed, and its supply is exactly what the schedule paid up to the tip. */
  lemma EveryRunConserves(c: Context, states: seq<NodeView>, events: seq<Event>, i: nat)
    requires IsRun(c, states, events) && Sound(c, states[0]) && i < |states|
    requires GenuineGenesis(c.sha, c.config.network, states[i].blocks)
    ensures Backed(states[i].ledger, 0) && states[i].blocks != []
    ensures !c.Policy().OtherPolicy? &&
            states[i].ledger.issued == Emission.Scheduled(c.Policy(), |states[i].blocks| - 1)
  {
    hide Takes, ValidChain, Replay, Agrees, GenuineGenesis, IsRun;
    EveryRunIsSound(c, states, events, i);
    var s := states[i];
    ReplayIsBacked(c.check, c.Policy(), s.blocks);
    ValidHeights(c.sha, c.config, s.blocks);
    ReplaySupply(c.check, c.Policy(), s.blocks);
  }

  // ----- the pool along a run

  ghost predicate PoolReady(c: Context, s: NodeView) {
    Consistent(c.check, s.ledger, s.pool, c.config.network)
  }

  /** For a pool built by admissions on the ledger of any chain that replays: pooled transactions make a block that is
      processed without error exactly when each sender's part is a prefix of its queue, in any interleaving. */
  lemma AdmittedPoolFillsBlocks(check: SignatureCheck, policy: Policy, blocks: seq<Block>, offered: seq<Tx>,
                                height: nat, txs: seq<Tx>, miner: string)
    requires !policy.OtherPolicy? && Replay(check, policy, blocks).Ok? && miner != ""
    requires var l := Replay(check, policy, blocks).value;
             forall t :: t in txs ==> AdmitAll(check, l, offered, NetworkFor(policy).value).Holds(t)
    ensures var l := Replay(check, policy, blocks).value;
            ProcessBlock(check, l, policy, height, txs, miner).Ok? <==>
              TakesQueuePrefixes(AdmitAll(check, l, offered, NetworkFor(policy).value), txs)
  {
    hide Consistent, ProcessBlock, TakesQueuePrefixes, Replay, AdmitAll, Backed;
    var l := Replay(check, policy, blocks).value;
    ReplayIsBacked(check, policy, blocks);
    AdmissionRunsAreConsistent(check, l, offered, NetworkFor(policy).value);
    BlocksFromPool(check, l, AdmitAll(check, l, offered, NetworkFor(policy).value), policy, height, txs, miner);
  }

  lemma MiningKeepsPoolReady(c: Context, s: NodeView, b: Block, s': NodeView)
    requires Sound(c, s) && PoolReady(c, s) && Takes(c, s, Mined(b), s')
    ensures PoolReady(c, s')
  {
    hide Consistent, ProcessBlock, Extends, RemoveAll, Replay, ValidChain;
    ReplayIsBacked(c.check, c.Policy(), s.blocks);
    assert NetworkFor(c.Policy()).value == c.config.network;
    MinedBlockKeepsPoolConsistent(c.check, s.ledger, s.pool, c.Policy(), b.height, b.txs, b.miner);
  }

  /** An accepted block keeps every queue replayable exactly when it contains each pooled transaction whose nonce it
      spends. */
  lemma AcceptingKeepsPoolReadyExactly(c: Context, s: NodeView, b: Block, s': NodeView)
    requires Sound(c, s) && PoolReady(c, s) && Takes(c, s, Accepted(b), s') && SameIdSamePayment(s.pool, b.txs)
    ensures PoolReady(c, s') <==> SpendsPooled(s.ledger, s.pool, b.txs)
  {
    hide Consistent, ProcessBlock, Extends, RemoveAll, Replay, ValidChain, SpendsPooled, SameIdSamePayment, Agrees, Backed;
    ReplayIsBacked(c.check, c.Policy(), s.blocks);
    assert NetworkFor(c.Policy()).value == c.config.network;
    BlockKeepsPoolExactly(c.check, s.ledger, s.pool, c.Policy(), b.height, b.txs, b.miner);
  }

  /** Admitting, mining and reorganizing keep every queue replayable; only a foreign block can break that. */
  lemma StepKeepsPoolReady(c: Context, s: NodeView, e: Event, s': NodeView)
    requires Sound(c, s) && PoolReady(c, s) && Takes(c, s, e, s') && !e.Accepted?
    ensures PoolReady(c, s')
  {
    hide Consistent, Commits, Replay, ValidChain, Recovers, Adopts, Admit;
    match e
    case Refused =>
    case Mined(b) => MiningKeepsPoolReady(c, s, b, s');
    case Admitted(tx) => AdmitKeepsConsistent(c.check, s.ledger, s.pool, tx, c.config.network);
    case Reorganized(_, _, _, _, ordered) =>
      AdmissionRunsAreConsistent(c.check, s'.ledger, ordered, c.config.network);
  }

  lemma {:induction false} EveryOwnRunKeepsPoolReady(c: Context, states: seq<NodeView>, events: seq<Event>, i: nat)
    requires IsRun(c, states, events) && Sound(c, states[0]) && PoolReady(c, states[0]) && i < |states|
    requires forall k :: 0 <= k < |events| ==> !events[k].Accepted?
    ensures PoolReady(c, states[i])
  {
    hide Sound, Takes, PoolReady;
    if i > 0 {
      EveryOwnRunKeepsPoolReady(c, states, events, i - 1);
      EveryRunIsSound(c, states, events, i - 1);
      StepKeepsPoolReady(c, states[i - 1], events[i - 1], states[i]);
    }
  }

  /** After any reorganization, from any old pool and chain: the pool replays, nothing in it is processed, and every
      candidate left out would still be refused. */
  lemma ReorganizationRebuildsPool(c: Context, s: NodeView, e: Event, s': NodeView, t: Tx)
    requires e.Reorganized? && Takes(c, s, e, s')
    ensures InOrder(e.ordered)
    ensures t.id != "" && (s.pool.Holds(t) || (t in AllTxs(s.blocks) && t.id !in s'.ledger.processed)) ==>
              t.id in Ids(e.ordered)
    ensures PoolReady(c, s') && s'.ledger.processed !! s'.pool.txs.Keys
    ensures t in e.ordered ==>
              s'.pool.Holds(t) || Admit(c.check, s'.ledger, s'.pool, t, c.config.network).Err?
  {
    hide Consistent, Replay, Adopts, Admit;
    AdmissionRunsAreConsistent(c.check, s'.ledger, e.ordered, c.config.network);
    NothingPooledIsProcessed(c.check, s'.ledger, s'.pool, c.config.network);
    if t in e.ordered {
      RebuildIsMaximal(c.check, s'.ledger, e.ordered, c.config.network, t);
    }
  }
}
