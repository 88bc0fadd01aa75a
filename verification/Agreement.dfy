/** What two nodes, or a pool and a block, agree on when their identifiers or hashes agree. */
module Agreement {
  import opened Params
  import opened Transactions
  import opened Ledgers
  import opened Blocks
  import opened Chains
  import opened Replaying
  import opened Reorgs
  import opened Pools
  import opened Admission
  import opened PoolBlocks
  import opened NodeRuns
  import opened Commitments

  /** Two nodes under the same hash, signature check and network. */
  ghost predicate Peers(c: Context, d: Context) {
    c.sha == d.sha && c.check == d.check && c.config.network == d.config.network
  }

  ghost function Tip(s: NodeView): Block
    requires s.blocks != []
  {
    s.blocks[|s.blocks| - 1]
  }

  /** A sound node on a genuine genesis block whose hashed byte strings are among `inputs`. */
  ghost predicate Regular(c: Context, s: NodeView, inputs: set<string>) {
    && Sound(c, s) && s.blocks != [] && GenuineGenesis(c.sha, c.config.network, s.blocks)
    && ChainInputs(c.sha, s.blocks) <= inputs
  }

  /** Two sound nodes with the same tip hash have the same ledger. */
  lemma SameTipSameState(c: Context, s: NodeView, d: Context, t: NodeView, inputs: set<string>)
    requires Peers(c, d) && ChecksIds(c.sha, c.check) && CollisionFree(c.sha, inputs)
    requires Regular(c, s, inputs) && Regular(d, t, inputs)
    requires BlockHash(c.sha, Tip(s)) == BlockHash(c.sha, Tip(t))
    ensures |s.blocks| == |t.blocks| && s.ledger == t.ledger
  {
    hide ValidChain, Replay, Agrees, GenuineGenesis, ChainInputs, BlockHash, ChecksIds, CollisionFree;
    ValidHeights(c.sha, c.config, s.blocks);
    ValidHeights(d.sha, d.config, t.blocks);
    SameTipSameLedger(c.sha, c.check, c.Policy(), c.config, s.blocks, d.config, t.blocks, inputs);
  }

  /** Wherever two runs of two nodes reach the same tip hash, they have reached the same ledger. */
  lemma RunsAgree(c: Context, states: seq<NodeView>, events: seq<Event>, i: nat,
                  d: Context, states': seq<NodeView>, events': seq<Event>, j: nat, inputs: set<string>)
    requires IsRun(c, states, events) && Sound(c, states[0]) && i < |states|
    requires IsRun(d, states', events') && Sound(d, states'[0]) && j < |states'|
    requires Peers(c, d) && ChecksIds(c.sha, c.check) && CollisionFree(c.sha, inputs)
    requires states[i].blocks != [] && GenuineGenesis(c.sha, c.config.network, states[i].blocks)
    requires states'[j].blocks != [] && GenuineGenesis(d.sha, d.config.network, states'[j].blocks)
    requires ChainInputs(c.sha, states[i].blocks) + ChainInputs(d.sha, states'[j].blocks) <= inputs
    requires BlockHash(c.sha, Tip(states[i])) == BlockHash(c.sha, Tip(states'[j]))
    ensures states[i].ledger == states'[j].ledger
  {
    hide Sound, IsRun, GenuineGenesis, ChainInputs, BlockHash, ChecksIds, CollisionFree;
    EveryRunIsSound(c, states, events, i);
    EveryRunIsSound(d, states', events', j);
    SameTipSameState(c, states[i], d, states'[j], inputs);
  }

  ghost predicate TextsAmong(p: Pool, txs: seq<Tx>, inputs: set<string>) {
    IdTexts(txs) <= inputs && forall t :: p.Holds(t) ==> IdText(t) in inputs
  }

  /** Where identifiers are checked, a pool and a processed block never use one identifier for two payments. */
  lemma IdsNamePayments(sha: Sha, check: SignatureCheck, l: Ledger, p: Pool, txs: seq<Tx>, network: Network, inputs: set<string>)
    requires ChecksIds(sha, check) && CollisionFree(sha, inputs) && TextsAmong(p, txs, inputs)
    requires Consistent(check, l, p, network) && Run(check, l, txs, network).Ok?
    ensures SameIdSamePayment(p, txs)
  {
    hide Run, Queue, Agrees, IdText, IdOf, CollisionFree;
    forall t, u | p.Holds(t) && u in txs && t.id == u.id ensures PaymentOf(t) == PaymentOf(u) {
      QueueIs(p, t.sender);
      var q := Queue(p, t.sender);
      var i :| 0 <= i < |q| && q[i] == t;
      var k :| 0 <= k < |txs| && txs[k] == u;
      assert Run(check, l, q, network).Ok?;
      RunChecks(check, l, q, network, i);
      RunChecks(check, l, txs, network, k);
      assert IdText(txs[k]) in IdTexts(txs);
      IdDetermines(sha, t, u, inputs);
    }
  }

  /** Accepting a block keeps every queue replayable exactly when the block contains the identifier of each pooled
      transaction whose nonce it spends. */
  lemma AcceptingKeepsPoolReady(c: Context, s: NodeView, b: Block, s': NodeView, inputs: set<string>)
    requires ChecksIds(c.sha, c.check) && CollisionFree(c.sha, inputs) && TextsAmong(s.pool, b.txs, inputs)
    requires Sound(c, s) && PoolReady(c, s) && Takes(c, s, Accepted(b), s')
    ensures PoolReady(c, s') <==> SpendsPooled(s.ledger, s.pool, b.txs)
  {
    hide Consistent, ProcessBlock, Extends, RemoveAll, Replay, ValidChain, SpendsPooled, SameIdSamePayment, TextsAmong,
         ChecksIds, CollisionFree, Agrees;
    ReplayIsBacked(c.check, c.Policy(), s.blocks);
    BlockIsRicher(c.check, s.ledger, c.Policy(), b.height, b.txs, b.miner);
    assert NetworkFor(c.Policy()).value == c.config.network;
    IdsNamePayments(c.sha, c.check, s.ledger, s.pool, b.txs, c.config.network, inputs);
    AcceptingKeepsPoolReadyExactly(c, s, b, s');
  }
}
