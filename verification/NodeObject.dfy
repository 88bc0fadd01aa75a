/** The node object (p2p/transaction_submit.go, p2p/block_handler.go, miner/pipeline.go, p2p/reorg_mempool.go). */
module NodeObject {
  import opened Prelude
  import opened Params
  import opened Transactions
  import opened Ledgers
  import opened Blocks
  import opened Merkle
  import opened Difficulty
  import opened Chains
  import opened ChainObject
  import opened StateObject
  import opened Replaying
  import opened Reorgs
  import opened Sorting
  import opened Pools
  import opened Admission
  import opened MempoolObject
  import opened PoolBlocks
  import opened Rebuild
  import opened BlockOrders
  import opened NodeRuns
  import Work

  /** ValidateMempoolTransactionFor: collect, sort and replay on a clone; confirmed state is never modified. */
  method ValidateMempoolTransactionFor(
    check: SignatureCheck, state: State, pending: seq<Tx>, candidate: Tx, network: Network)
    returns (error: Option<AdmissionError>)
    ensures match Validate(check, state.View(), pending, candidate, network)
            case Ok(_) => error == None
            case Err(e) => error == Some(e)
  {
    hide ApplyTx, WithinResourceBounds, SenderPending, Run, Sort;
    if candidate.id == "" {
      return Some(MissingId);
    }
    if !WithinResourceBounds(candidate) {
      return Some(OutsideBounds);
    }
    var senderPending: seq<Tx> := [];
    NothingYet(check, state.View(), candidate, network);
    for i := 0 to |pending|
      invariant SenderPending(pending[..i], candidate) == Ok(senderPending)
    {
      var tx := pending[i];
      PendingNext(pending, candidate, i);
      if tx.id == candidate.id {
        PendingFails(pending, candidate, i + 1, AlreadyPending);
        return Some(AlreadyPending);
      }
      if tx.sender == candidate.sender {
        senderPending := senderPending + [tx];
        if |senderPending| >= MAX_POOL_PER_SENDER {
          PendingFails(pending, candidate, i + 1, SenderFull);
          return Some(SenderFull);
        }
      }
    }
    assert pending[..|pending|] == pending;
    var ordered := Sort(senderPending, NonceLeq);
    var workingState := state.Clone();
    for i := 0 to |ordered|
      invariant fresh(workingState)
      invariant Run(check, state.View(), ordered[..i], network) == Ok(workingState.View())
    {
      RunNext(check, state.View(), ordered, network, i);
      var applied := workingState.ApplyTransactionFor(check, ordered[i], network);
      if applied.Err? {
        RunFails(check, state.View(), ordered, network, i + 1, applied.error);
        return Some(ReplayFailed(applied.error));
      }
    }
    assert ordered[..|ordered|] == ordered;
    var last := workingState.ApplyTransactionFor(check, candidate, network);
    if last.Err? {
      return Some(ReplayFailed(last.error));
    }
    return None;
  }

  lemma NothingYet(check: SignatureCheck, l: Ledger, candidate: Tx, network: Network)
    ensures SenderPending([], candidate) == Ok([]) && Run(check, l, [], network) == Ok(l)
  {
  }

  /** One turn of the loop that collects the sender's pending transactions. */
  lemma PendingNext(pending: seq<Tx>, candidate: Tx, i: nat)
    requires i < |pending| && SenderPending(pending[..i], candidate).Ok?
    ensures var own, tx := SenderPending(pending[..i], candidate).value, pending[i];
            SenderPending(pending[..i + 1], candidate) ==
              if tx.id == candidate.id then Err(AlreadyPending)
              else if tx.sender != candidate.sender then Ok(own)
              else if |own| + 1 >= MAX_POOL_PER_SENDER then Err(SenderFull)
              else Ok(own + [tx])
  {
    assert pending[..i + 1][..i] == pending[..i];
  }

  /** One turn of the loop that replays them. */
  lemma RunNext(check: SignatureCheck, l: Ledger, txs: seq<Tx>, network: Network, i: nat)
    requires i < |txs| && Run(check, l, txs[..i], network).Ok?
    ensures Run(check, l, txs[..i + 1], network) == ApplyTx(check, Run(check, l, txs[..i], network).value, txs[i], network)
  {
    hide ApplyTx;
    assert txs[..i + 1][..i] == txs[..i];
  }

  lemma {:induction false} PendingFails(pending: seq<Tx>, candidate: Tx, k: nat, e: AdmissionError)
    requires k <= |pending| && SenderPending(pending[..k], candidate) == Err(e)
    ensures SenderPending(pending, candidate) == Err(e)
    decreases |pending|
  {
    if k == |pending| {
      assert pending[..k] == pending;
    } else {
      assert pending[..|pending| - 1][..k] == pending[..k];
      PendingFails(pending[..|pending| - 1], candidate, k, e);
    }
  }

  lemma {:induction false} RunFails(check: SignatureCheck, l: Ledger, txs: seq<Tx>, network: Network, k: nat, e: LedgerError)
    requires k <= |txs| && Run(check, l, txs[..k], network) == Err(e)
    ensures Run(check, l, txs, network) == Err(e)
    decreases |txs|
  {
    hide ApplyTx;
    if k == |txs| {
      assert txs[..k] == txs;
    } else {
      assert txs[..|txs| - 1][..k] == txs[..k];
      RunFails(check, l, txs[..|txs| - 1], network, k, e);
    }
  }

  datatype BlockRefusal =
    | NoMinerAddress
    | NoAttempts
    | BlockInvalid(reason: ChainError)
    | BlockNotProcessed(cause: LedgerError)
    | NoNonceFound

  class Node {
    const c: Context
    const chain: Chain
    const state: State
    const pool: Mempool

    function View(): NodeView
      reads this, chain, state, pool
    {
      NodeView(chain.blocks, state.View(), pool.View())
    }

    /** The objects belong together, cached work is right, and the node is sound. */
    ghost predicate Valid()
      reads this, chain, state, pool
    {
      && chain.config == c.config
      && chain.Valid(c.sha)
      && Sound(c, View())
    }

    /** A node on one genesis block. */
    constructor (c: Context, genesis: Block)
      requires c.Known() && GenesisFault(c.sha, c.config, genesis).None?
      ensures Valid() && Starts(c, View()) && this.c == c
      ensures fresh(chain) && fresh(state) && fresh(pool)
    {
      this.c := c;
      chain := new Chain(c.config, [genesis], Work.BlockWork(genesis.difficulty));
      state := new State(c.Policy());
      pool := new Mempool();
      new;
      hide GenesisFault;
      assert WorkSum([genesis]) == Work.BlockWork(genesis.difficulty);
      StartIsSound(c, View());
    }

    method AdmitVerifiedTransaction(tx: Tx) returns (error: Option<AdmissionError>)
      requires Valid()
      modifies pool
      ensures Valid()
      ensures error.None? ==> Takes(c, old(View()), Admitted(tx), View())
      ensures match old(Admit(c.check, state.View(), pool.View(), tx, c.config.network))
              case Ok(_) => error == None
              case Err(e) => error == Some(e) && View() == old(View())
    {
      hide Agrees, Queue, Validate, WithinResourceBounds, Refusal, Replay, ValidChain;
      ghost var before := View();
      if !WithinResourceBounds(tx) {
        return Some(OutsideBounds);
      }
      if tx.id in state.processedTx {
        return Some(AlreadyConfirmed);
      }
      var refused := pool.CheckAdmission(tx);
      if refused.Some? {
        return Some(PoolRefuses(refused.value));
      }
      var pending := pool.TransactionsForSender(tx.sender);
      error := ValidateMempoolTransactionFor(c.check, state, pending, tx, c.config.network);
      if error.Some? {
        return;
      }
      var added := pool.AddTransaction(tx);
      assert added.None?;
      StepKeepsSound(c, before, Admitted(tx), View());
    }

    /** Process on a clone, append to the chain, then commit the state and drop the block's transactions. */
    method CommitBlock(b: Block, now: int, later: int) returns (refusal: Option<BlockRefusal>)
      requires Valid() && b.miner != ""
      modifies chain, state, pool
      ensures Valid()
      ensures refusal.None? <==> old(Committable(c, View(), b)) && Timely(b, now) && Timely(b, later)
      ensures refusal.None? ==> Commits(c, old(View()), b, View())
      ensures refusal.Some? ==> View() == old(View())
      ensures match refusal
              case Some(BlockInvalid(e)) =>
                Some(e) == BlockFault(c.sha, c.config, old(chain.blocks), b, now)
                || Some(e) == BlockFault(c.sha, c.config, old(chain.blocks), b, later)
              case Some(BlockNotProcessed(e)) =>
                ProcessBlock(c.check, old(state.View()), c.Policy(), b.height, b.txs, b.miner) == Err(e)
              case Some(_) => false
              case None => true
    {
      hide BlockFault, Extends, ProcessBlock, ValidChain, Replay, Agrees;
      ghost var before := View();
      ReplayPolicy(c, before);
      assert state.monetaryPolicy == c.Policy();
      FaultSplitsClock(c.sha, c.config, chain.blocks, b, now);
      FaultSplitsClock(c.sha, c.config, chain.blocks, b, later);
      var fault := BlockFault(c.sha, c.config, chain.blocks, b, now);
      if fault.Some? {
        return Some(BlockInvalid(fault.value));
      }
      var workingState := state.Clone();
      var processed := workingState.ProcessBlockFor(c.check, c.Policy(), b, b.miner);
      if processed.Err? {
        return Some(BlockNotProcessed(processed.error));
      }
      fault := chain.AddBlock(c.sha, b, later);
      if fault.Some? {
        return Some(BlockInvalid(fault.value));
      }
      state.ReplaceWith(workingState);
      DropTransactions(b.txs);
      CommitKeepsSound(c, before, b, View());
      return None;
    }

    method DropTransactions(txs: seq<Tx>)
      modifies pool
      ensures pool.View() == RemoveAll(old(pool.View()), txs)
    {
      hide Remove;
      for i := 0 to |txs|
        invariant pool.View() == RemoveAll(old(pool.View()), txs[..i])
      {
        assert txs[..i + 1][..i] == txs[..i];
        pool.RemoveTransaction(txs[i].id);
      }
      assert txs[..|txs|] == txs;
    }

    /** A block received from a peer. */
    method AcceptBlock(b: Block, now: int, later: int) returns (refusal: Option<BlockRefusal>)
      requires Valid()
      modifies chain, state, pool
      ensures Valid()
      ensures refusal.None? <==>
                b.miner != "" && old(Committable(c, View(), b)) && Timely(b, now) && Timely(b, later)
      ensures Takes(c, old(View()), if refusal.None? then Accepted(b) else Refused, View())
      ensures refusal == Some(NoMinerAddress) <==> b.miner == ""
    {
      hide Commits, Sound, Chain.Valid;
      if b.miner == "" {
        return Some(NoMinerAddress);
      }
      refusal := CommitBlock(b, now, later);
    }

    /**
     Build a block from the pool, search a nonce for it, and commit it like a received block. The block is refused only
     for its version, its proof or the clock, or for taking some sender's pending transactions out of order, which needs
     a sender with more than one.
     */
    method MineNextBlock(minerAddress: string, maxAttempts: u64, hits: Block -> bool, built: int, now: int, later: int)
      returns (r: Result<Block, BlockRefusal>, ghost template: Block)
      requires Valid()
      modifies chain, state, pool
      ensures Valid()
      ensures r.Ok? ==> Takes(c, old(View()), Mined(r.value), View()) && r.value == template.(nonce := r.value.nonce)
      ensures r.Err? ==> Takes(c, old(View()), Refused, View())
      ensures match r
              case Ok(b) => hits(b) && b.nonce < maxAttempts && b.miner == minerAddress
              case Err(NoMinerAddress) => minerAddress == ""
              case Err(NoAttempts) => maxAttempts == 0
              case Err(NoNonceFound) => forall n: u64 :: n < maxAttempts ==> !hits(template.(nonce := n))
              case Err(BlockInvalid(e)) => Blames(c.config, template, hits, now, later, old(chain.Height()), e)
              case Err(BlockNotProcessed(_)) =>
                && (forall t :: t in template.txs ==> old(pool.View()).Holds(t))
                && (old(PoolReady(c, View())) ==>
                      && !TakesQueuePrefixes(old(pool.View()), template.txs)
                      && exists s :: |Queue(old(pool.View()), s)| > 1)
      ensures minerAddress != "" && maxAttempts > 0 ==>
                IsTemplate(c.sha, old(chain.blocks), old(pool.View()), template, minerAddress, built)
      ensures minerAddress != "" && CanMine(c, old(View()), template, maxAttempts, hits, now, later) ==> r.Ok?
    {
      hide Commits, ValidChain, Replay, Agrees, Committable, Consistent, BlockFault, TakesQueuePrefixes, Blames, IsTemplate,
           CanMine;
      template := Block(0, 0, 0, "", "", 0, 0, "", []);
      if minerAddress == "" {
        return Err(NoMinerAddress), template;
      }
      if maxAttempts == 0 {
        CannotMineAtOnce(c, View(), template, hits, now, later);
        return Err(NoAttempts), template;
      }
      ghost var before := View();
      ValidNotEmpty(c.sha, c.config, chain.blocks);
      var block := BuildTemplate(c.sha, chain, pool, minerAddress, built);
      template := block;
      TemplateFromPool(c.sha, chain.blocks, pool.View(), template, minerAddress, built);
      CanMineBlamesNothing(c, before, template, maxAttempts, hits, now, later, minerAddress, built, chain.Height());
      var mined := Mine(block, maxAttempts, hits);
      if mined.None? {
        return Err(NoNonceFound), template;
      }
      BuiltBlockFaults(c.sha, c.config, chain.blocks, pool.View(), template, mined.value, hits, now, later, minerAddress, built);
      UnprocessedIsOutOfOrder(c, before, mined.value);
      var refusal := CommitBlock(mined.value, now, later);
      if refusal.Some? {
        return Err(refusal.value), template;
      }
      return Ok(mined.value), template;
    }

    /** Adopt a better chain and rebuild the pool from the old pool and the abandoned blocks. */
    method ReorganizeWithMempoolRecovery(candidate: Chain, clock: nat -> int, clock': nat -> int)
      returns (r: Result<nat, Option<ReorgError>>, ghost ordered: seq<Tx>)
      requires Valid() && GenuineGenesis(c.sha, c.config.network, chain.blocks)
      requires GenuineGenesis(c.sha, c.config.network, candidate.blocks)
      modifies chain, state, pool
      ensures Valid()
      ensures r.Ok? <==> old(Adopts(c.sha, c.check, c.config, chain.blocks, candidate.config, candidate.blocks, clock, clock'))
      ensures r.Ok? ==>
                Takes(c, old(View()), Reorganized(candidate.config, old(candidate.blocks), clock, clock', ordered), View())
      ensures r.Ok? ==> r.value == |pool.transactions|
      ensures old(chain.blocks) != [] &&
              IsVerdict(match r { case Ok(_) => Ok(true) case Err(None) => Ok(false) case Err(Some(e)) => Err(e) },
                        c.sha, c.check, c.config, old(chain.blocks), old(state.monetaryPolicy),
                        candidate.config, old(candidate.blocks), clock, clock')
      ensures r.Err? ==> Takes(c, old(View()), Refused, View())
    {
      hide ValidChain, Replay, Agrees, Adopts, GenuineGenesis, AllTxs, Recovers, IsVerdict;
      ordered := [];
      ghost var before := View();
      ValidNotEmpty(c.sha, c.config, chain.blocks);
      ReplayPolicy(c, before);
      var oldBlocks := chain.blocks;
      var oldPending := pool.AllTransactions();
      ghost var oldPool, adoptee := pool.View(), candidate.blocks;
      ValidHeights(c.sha, c.config, oldBlocks);
      var adopted := ReorganizeToCandidate(c.sha, c.check, chain, state, candidate, clock, clock');
      if adopted.Err? {
        return Err(Some(adopted.error)), ordered;
      }
      if !adopted.value {
        return Err(None), ordered;
      }
      var candidates := CollectCandidates(oldPending, oldBlocks, state);
      var all := ValuesOf(candidates);
      var sorted := Sort(all, CandidateLeq);
      CandidatesRecover(oldBlocks, oldPool, state.View(), oldPending, candidates, all);
      ordered := sorted;
      pool.Clear();
      var recovered := RecoverTransactions(sorted);
      assert Takes(c, before, Reorganized(candidate.config, adoptee, clock, clock', ordered), View());
      StepKeepsSound(c, before, Reorganized(candidate.config, adoptee, clock, clock', ordered), View());
      return Ok(recovered), ordered;
    }

    /** Re-admit the candidates one by one into the cleared pool. */
    method RecoverTransactions(ordered: seq<Tx>) returns (recovered: nat)
      requires pool.View() == EMPTY_POOL
      modifies pool
      ensures pool.View() == AdmitAll(c.check, state.View(), ordered, c.config.network)
      ensures recovered == |pool.transactions|
    {
      hide Agrees, Queue, Validate, Insert, WithinResourceBounds;
      recovered := 0;
      EmptyAgrees();
      for i := 0 to |ordered|
        invariant pool.View() == AdmitAll(c.check, state.View(), ordered[..i], c.config.network)
        invariant recovered == |pool.transactions|
      {
        var tx := ordered[i];
        assert ordered[..i + 1][..i] == ordered[..i];
        ghost var before := pool.View();
        if tx.id in state.processedTx {
          continue;
        }
        var pending := pool.TransactionsForSender(tx.sender);
        var invalid := ValidateMempoolTransactionFor(c.check, state, pending, tx, c.config.network);
        if invalid.Some? {
          continue;
        }
        ValidatedIsBounded(c.check, state.View(), pending, tx, c.config.network);
        var refused := pool.AddTransaction(tx);
        if refused.Some? {
          continue;
        }
        InsertGrows(before, tx);
        recovered := recovered + 1;
      }
      assert ordered[..|ordered|] == ordered;
    }
  }

  lemma ValidatedIsBounded(check: SignatureCheck, l: Ledger, pending: seq<Tx>, tx: Tx, network: Network)
    requires Validate(check, l, pending, tx, network).Ok?
    ensures WithinResourceBounds(tx)
  {
    hide WithinResourceBounds;
  }

  lemma InsertGrows(p: Pool, tx: Tx)
    requires tx.id !in p.txs
    ensures |Insert(p, tx).txs| == |p.txs| + 1
  {
    hide Index;
    assert p.txs[tx.id := tx].Keys == p.txs.Keys + {tx.id};
  }

  lemma ValidNotEmpty(sha: Sha, config: Config, blocks: seq<Block>)
    requires ValidChain(sha, config, blocks)
    ensures blocks != []
  {
  }

  /** The block that MineNextBlock offers, but for its nonce: Version 1 on the tip, stamped with the clock or one second
      after the tip, at the difficulty that history demands, with a selection from the pool. */
  ghost predicate IsTemplate(sha: Sha, blocks: seq<Block>, pool: Pool, b: Block, miner: string, built: int) {
    && blocks != []
    && var previous := blocks[|blocks| - 1];
       && b.version == 1 && (previous.height < MAX_U64 ==> b.height == previous.height + 1)
       && b.timestamp == (if built > previous.timestamp then built else previous.timestamp + 1)
       && b.previousHash == BlockHash(sha, previous) && b.merkleRoot == MerkleRoot(sha, b.txs)
       && b.difficulty == NextFromHistory(previous.difficulty, RecentIntervals(blocks))
       && b.miner == miner && b.nonce == 0
       && ValidTransactions(b.txs) && exists pending :: IsEnumeration(pool, pending) && b.txs == Selected(pending)
  }

  /** What has to be wrong for a built block to be refused with an error: nothing that the builder fills in. */
  ghost predicate Blames(cfg: Config, template: Block, hits: Block -> bool, now: int, later: int, tip: nat, e: ChainError) {
    match e
    case InvalidVersion => VersionAt(cfg.activation, template.height) != 1
    case UnsupportedVersion => !cfg.verifier.supports(1)
    case InvalidProof =>
      exists n: u64 :: hits(template.(nonce := n)) && !cfg.verifier.accepts(template.(nonce := n))
    case FutureTimestamp => template.timestamp > now + 7200 || template.timestamp > later + 7200
    case InvalidHeight => tip == MAX_U64
    case _ => false
  }

  /** When mining succeeds: Version 1 is allowed next and supported, every hit is a proof, some nonce in reach hits, the
      timestamp is not too far ahead, and the pool is ready with at most one transaction of each sender. */
  ghost predicate CanMine(c: Context, s: NodeView, template: Block, maxAttempts: u64, hits: Block -> bool, now: int, later: int) {
    && s.blocks != [] && s.blocks[|s.blocks| - 1].height < MAX_U64
    && VersionAt(c.config.activation, s.blocks[|s.blocks| - 1].height + 1) == 1 && c.config.verifier.supports(1)
    && (forall b: Block :: hits(b) ==> c.config.verifier.accepts(b))
    && (exists n: u64 :: n < maxAttempts && hits(template.(nonce := n)))
    && template.timestamp <= now + 7200 && template.timestamp <= later + 7200
    && Agrees(s.pool) && PoolReady(c, s) && forall q :: |Queue(s.pool, q)| <= 1
  }

  lemma CannotMineAtOnce(c: Context, s: NodeView, template: Block, hits: Block -> bool, now: int, later: int)
    ensures !CanMine(c, s, template, 0, hits, now, later)
  {
  }

  lemma CanMineBlamesNothing(c: Context, s: NodeView, template: Block, maxAttempts: u64, hits: Block -> bool, now: int,
                             later: int, miner: string, built: int, tip: nat)
    requires IsTemplate(c.sha, s.blocks, s.pool, template, miner, built)
    requires s.blocks != [] && tip == s.blocks[|s.blocks| - 1].height
    ensures CanMine(c, s, template, maxAttempts, hits, now, later) ==>
              && (exists n: u64 :: n < maxAttempts && hits(template.(nonce := n)))
              && (forall e :: !Blames(c.config, template, hits, now, later, tip, e))
              && PoolReady(c, s) && !exists q :: |Queue(s.pool, q)| > 1
  {
    hide BlockHash, MerkleRoot, NextFromHistory, RecentIntervals, ValidTransactions, IsEnumeration, Selected, Agrees, Queue;
  }

  lemma TemplateFromPool(sha: Sha, blocks: seq<Block>, pool: Pool, b: Block, miner: string, built: int)
    requires IsTemplate(sha, blocks, pool, b, miner, built)
    ensures b.miner == miner && DistinctIds(b.txs) && forall t :: t in b.txs ==> pool.Holds(t)
  {
    hide BlockHash, MerkleRoot, NextFromHistory, RecentIntervals, ValidTransactions, IsEnumeration, Selected;
    var pending :| IsEnumeration(pool, pending) && b.txs == Selected(pending);
    SelectedFromPool(pool, pending);
  }

  /** Fill in a block on the tip, up to its nonce. */
  method BuildTemplate(sha: Sha, chain: Chain, pool: Mempool, minerAddress: string, built: int) returns (block: Block)
    requires chain.blocks != [] && Agrees(pool.View())
    ensures IsTemplate(sha, chain.blocks, pool.View(), block, minerAddress, built)
  {
    hide Agrees, MerkleRoot, BlockHash, NextFromHistory, RecentIntervals, ValidTransactions, Selected, IsEnumeration;
    var previous := chain.blocks[|chain.blocks| - 1];
    ghost var pending;
    block, pending := NewBlockFromMempool(sha, previous, pool, built);
    if block.timestamp <= previous.timestamp {
      block := block.(timestamp := previous.timestamp + 1);
    }
    block := block.(difficulty := NextFromHistory(previous.difficulty, RecentIntervals(chain.blocks)),
                    miner := minerAddress, nonce := 0, merkleRoot := MerkleRoot(sha, block.txs));
  }

  lemma BuiltBlockFaults(sha: Sha, config: Config, blocks: seq<Block>, pool: Pool, template: Block, b: Block,
                         hits: Block -> bool, now: int, later: int, miner: string, built: int)
    requires IsTemplate(sha, blocks, pool, template, miner, built) && b == template.(nonce := b.nonce) && hits(b)
    ensures forall clock, e :: clock == now || clock == later ==>
              (BlockFault(sha, config, blocks, b, clock) == Some(e) ==>
                 Blames(config, template, hits, now, later, blocks[|blocks| - 1].height, e))
  {
    hide BlockHash, MerkleRoot, NextFromHistory, RecentIntervals, ValidTransactions, IsEnumeration, Selected;
    assert template.(nonce := b.nonce) == b;
  }

  /** On a consistent pool a list of pooled transactions that takes queue prefixes is always processed. */
  lemma UnprocessedIsOutOfOrder(c: Context, s: NodeView, b: Block)
    requires Sound(c, s) && b.miner != "" && DistinctIds(b.txs) && forall t :: t in b.txs ==> s.pool.Holds(t)
    ensures PoolReady(c, s) && ProcessBlock(c.check, s.ledger, c.Policy(), b.height, b.txs, b.miner).Err? ==>
              !TakesQueuePrefixes(s.pool, b.txs) && exists q :: |Queue(s.pool, q)| > 1
  {
    hide Consistent, ProcessBlock, TakesQueuePrefixes, Replay, ValidChain, Agrees;
    ReplayIsBacked(c.check, c.Policy(), s.blocks);
    if PoolReady(c, s) {
      BlocksFromPool(c.check, s.ledger, s.pool, c.Policy(), b.height, b.txs, b.miner);
      if forall q :: |Queue(s.pool, q)| <= 1 {
        ShortQueuesTakePrefixes(s.pool, b.txs);
      }
    }
  }

  /** A candidate block of pending transactions, in the order the pool enumerates them, within the block limits. */
  method NewBlockFromMempool(sha: Sha, previous: Block, pool: Mempool, now: int)
    returns (b: Block, ghost enumeration: seq<Tx>)
    requires Agrees(pool.View())
    ensures IsEnumeration(pool.View(), enumeration) && b.txs == Selected(enumeration) && ValidTransactions(b.txs)
    ensures b.version == 1 && b.timestamp == now && b.difficulty == previous.difficulty && b.nonce == 0 && b.miner == ""
    ensures b.previousHash == BlockHash(sha, previous) && b.merkleRoot == MerkleRoot(sha, b.txs)
    ensures previous.height < MAX_U64 ==> b.height == previous.height + 1
  {
    hide Agrees, TotalSize, MerkleRoot, BlockHash, Selected, ValidTransactions;
    var pending := pool.AllTransactions();
    enumeration := pending;
    var selected := Select(pending);
    SelectedIsValid(pool.View(), pending);
    var height: u64 := if previous.height == MAX_U64 then 0 else previous.height + 1;
    b := Block(1, height, now, BlockHash(sha, previous), MerkleRoot(sha, selected), previous.difficulty, 0, "", selected);
  }

  /** Try nonces from zero; the result is the block with the first nonce that hits. */
  method Mine(b: Block, maxAttempts: u64, hits: Block -> bool) returns (r: Option<Block>)
    ensures r.None? ==> forall n: u64 :: n < maxAttempts ==> !hits(b.(nonce := n))
    ensures r.Some? ==> r.value.nonce < maxAttempts && r.value == b.(nonce := r.value.nonce) && hits(r.value)
    ensures r.Some? ==> forall n: u64 :: n < r.value.nonce ==> !hits(b.(nonce := n))
  {
    for i := 0 to maxAttempts
      invariant forall n: u64 :: n < i ==> !hits(b.(nonce := n))
    {
      if hits(b.(nonce := i)) {
        return Some(b.(nonce := i));
      }
    }
    return None;
  }

  // ----- candidates for the rebuilt pool

  /** What the candidate map holds after the old pool and some of the abandoned transactions were entered. */
  ghost predicate Gathered(pending: seq<Tx>, abandoned: seq<Tx>, processed: set<string>, candidates: map<string, Tx>) {
    && (forall id :: id in candidates ==>
          candidates[id].id == id && (candidates[id] in pending || candidates[id] in abandoned))
    && (forall t :: t in pending && t.id != "" ==> t.id in candidates)
    && (forall t :: t in abandoned && t.id != "" && t.id !in processed ==> t.id in candidates)
  }

  lemma GatherPending(pending: seq<Tx>, processed: set<string>, candidates: map<string, Tx>, t: Tx)
    requires Gathered(pending, [], processed, candidates)
    ensures Gathered(pending + [t], [], processed, if t.id != "" then candidates[t.id := t] else candidates)
  {
  }

  lemma GatherAbandoned(pending: seq<Tx>, abandoned: seq<Tx>, processed: set<string>, candidates: map<string, Tx>, t: Tx)
    requires Gathered(pending, abandoned, processed, candidates)
    ensures Gathered(pending, abandoned + [t], processed,
                     if t.id != "" && t.id !in processed then candidates[t.id := t] else candidates)
  {
  }

  lemma GatherNothing(processed: set<string>)
    ensures Gathered([], [], processed, map[])
  {
  }

  method CollectCandidates(pending: seq<Tx>, blocks: seq<Block>, state: State) returns (candidates: map<string, Tx>)
    requires blocks != [] && HeightsCount(blocks)
    ensures Gathered(pending, AllTxs(blocks), state.processedTx, candidates)
  {
    hide Gathered;
    candidates := map[];
    GatherNothing(state.processedTx);
    for i := 0 to |pending|
      invariant Gathered(pending[..i], [], state.processedTx, candidates)
    {
      assert pending[..i + 1] == pending[..i] + [pending[i]];
      GatherPending(pending[..i], state.processedTx, candidates, pending[i]);
      if pending[i].id != "" {
        candidates := candidates[pending[i].id := pending[i]];
      }
    }
    assert pending[..|pending|] == pending;
    assert AllTxs(blocks[..1]) == [];
    for height := 1 to |blocks|
      invariant Gathered(pending, AllTxs(blocks[..height]), state.processedTx, candidates)
    {
      assert blocks[..height + 1][..height] == blocks[..height];
      candidates := CollectBlock(pending, AllTxs(blocks[..height]), blocks[height].txs, state, candidates);
    }
    assert blocks[..|blocks|] == blocks;
  }

  /** The loop over one abandoned block. */
  method CollectBlock(ghost pending: seq<Tx>, ghost earlier: seq<Tx>, txs: seq<Tx>, state: State, before: map<string, Tx>)
    returns (candidates: map<string, Tx>)
    requires Gathered(pending, earlier, state.processedTx, before)
    ensures Gathered(pending, earlier + txs, state.processedTx, candidates)
  {
    hide Gathered;
    candidates := before;
    assert earlier + txs[..0] == earlier;
    for k := 0 to |txs|
      invariant Gathered(pending, earlier + txs[..k], state.processedTx, candidates)
    {
      assert earlier + txs[..k + 1] == earlier + txs[..k] + [txs[k]];
      GatherAbandoned(pending, earlier + txs[..k], state.processedTx, candidates, txs[k]);
      if txs[k].id != "" && txs[k].id !in state.processedTx {
        candidates := candidates[txs[k].id := txs[k]];
      }
    }
    assert txs[..|txs|] == txs;
  }

  method ValuesOf(m: map<string, Tx>) returns (values: seq<Tx>)
    requires forall id :: id in m ==> m[id].id == id
    ensures DistinctIds(values)
    ensures forall id :: id in m ==> m[id] in values
    ensures forall t :: t in values ==> exists id :: id in m && m[id] == t
  {
    values := [];
    var remaining := m.Keys;
    while remaining != {}
      invariant remaining <= m.Keys
      invariant forall id :: id in m && id !in remaining ==> m[id] in values
      invariant forall t :: t in values ==> t.id in m && t.id !in remaining && m[t.id] == t
      invariant DistinctIds(values)
      decreases remaining
    {
      var id :| id in remaining;
      values := values + [m[id]];
      remaining := remaining - {id};
    }
  }

  lemma CandidatesRecover(blocks: seq<Block>, pool: Pool, ledger: Ledger, pending: seq<Tx>,
                          candidates: map<string, Tx>, all: seq<Tx>)
    requires forall t :: t in pending <==> pool.Holds(t)
    requires Gathered(pending, AllTxs(blocks), ledger.processed, candidates)
    requires forall id :: id in candidates ==> candidates[id] in all
    requires forall t :: t in all ==> exists id :: id in candidates && candidates[id] == t
    requires DistinctIds(all)
    ensures Recovers(blocks, pool, ledger, Sort(all, CandidateLeq))
  {
    hide AllTxs, Sort;
    var ordered := Sort(all, CandidateLeq);
    SortedCandidatesRise(all);
    SortedIsInOrder(all);
    forall t ensures t in ordered <==> t in all {
      SortMember(all, CandidateLeq, t);
    }
    forall id | id in candidates ensures id in Ids(ordered) {
      var t := candidates[id];
      var i :| 0 <= i < |ordered| && ordered[i] == t;
      assert ordered[i].id in Ids(ordered);
    }
  }

  /** The block extends the chain and the ledger processes it. */
  ghost predicate Committable(c: Context, s: NodeView, b: Block) {
    && c.Known()
    && Extends(c.sha, c.config, s.blocks, b)
    && ProcessBlock(c.check, s.ledger, c.Policy(), b.height, b.txs, b.miner).Ok?
  }

  lemma ReplayPolicy(c: Context, s: NodeView)
    requires Sound(c, s)
    ensures s.ledger.policy == c.Policy()
  {
    hide Replay, ValidChain, Agrees;
    ReplayIsBacked(c.check, c.Policy(), s.blocks);
  }
}
