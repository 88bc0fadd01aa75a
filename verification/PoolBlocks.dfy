/** What a pool of admitted transactions guarantees: which blocks it can fill, and what mining leaves behind. */
module PoolBlocks {
  import opened Prelude
  import opened Params
  import opened Transactions
  import opened Ledgers
  import opened Conservation
  import opened Effects
  import opened Queues
  import opened Pools
  import opened Admission
  import Emission

  /** Every sender's queue replays on the confirmed ledger. */
  ghost predicate Consistent(check: SignatureCheck, l: Ledger, p: Pool, network: Network) {
    && Agrees(p)
    && forall s :: Run(check, l, Queue(p, s), network).Ok?
  }

  /** In a consistent pool each sender's pending nonces are the consecutive run after its confirmed nonce. */
  lemma QueueIsConsecutive(check: SignatureCheck, l: Ledger, p: Pool, network: Network, sender: string)
    requires Consistent(check, l, p, network)
    ensures forall i :: 0 <= i < |Queue(p, sender)| ==> Queue(p, sender)[i].nonce == l.Nonce(sender) + 1 + i
    ensures l.processed !! Ids(Queue(p, sender))
  {
    hide ApplyTx, Agrees, Queue;
    QueueIs(p, sender);
    var q := Queue(p, sender);
    BySenderAll(q, sender, sender);
    RunNonces(check, l, q, network, sender);
    RunIds(check, l, q, network);
  }

  lemma NothingPooledIsProcessed(check: SignatureCheck, l: Ledger, p: Pool, network: Network)
    requires Consistent(check, l, p, network)
    ensures l.processed !! p.txs.Keys
  {
    hide ApplyTx, Queue;
    forall id | id in p.txs ensures id !in l.processed {
      var t := p.txs[id];
      QueueIs(p, t.sender);
      QueueIsConsecutive(check, l, p, network, t.sender);
      var q := Queue(p, t.sender);
      assert p.Holds(t);
      var i :| 0 <= i < |q| && q[i] == t;
      assert q[i].id in Ids(q);
    }
  }

  // ----- admission

  /** admitVerifiedTransaction: the pool after an attempt to admit one transaction. */
  ghost function Admit(check: SignatureCheck, l: Ledger, p: Pool, tx: Tx, network: Network): Result<Pool, AdmissionError>
    requires Agrees(p)
  {
    if !WithinResourceBounds(tx) then Err(OutsideBounds)
    else if tx.id in l.processed then Err(AlreadyConfirmed)
    else if Refusal(p, tx).Some? then Err(PoolRefuses(Refusal(p, tx).value))
    else
      var valid := Validate(check, l, Queue(p, tx.sender), tx, network);
      if valid.Err? then Err(valid.error) else Ok(Insert(p, tx))
  }

  /** A transaction that validates against its sender's queue and is added keeps every queue replayable. */
  lemma AddKeepsConsistent(check: SignatureCheck, l: Ledger, p: Pool, tx: Tx, network: Network)
    requires Consistent(check, l, p, network)
    requires Validate(check, l, Queue(p, tx.sender), tx, network).Ok? && Add(p, tx).Ok?
    ensures Consistent(check, l, Add(p, tx).value, network)
  {
    hide ApplyTx, Agrees, Queue, Add, Validate;
    AddAgrees(p, tx);
    QueueIs(p, tx.sender);
    var q := Queue(p, tx.sender);
    ValidateExactly(check, l, q, tx, network);
    BySenderAll(q + [tx], tx.sender, tx.sender);
    RunNonces(check, l, q + [tx], network, tx.sender);
    forall t | t in q ensures t.nonce < tx.nonce {
      var i :| 0 <= i < |q| && q[i] == t;
      assert (q + [tx])[i] == t && (q + [tx])[|q|] == tx;
    }
    forall s ensures Run(check, l, Queue(Add(p, tx).value, s), network).Ok? {
      QueueAfterAdd(p, tx, s);
      assert Run(check, l, Queue(p, s), network).Ok?;
    }
  }

  lemma AdmitKeepsConsistent(check: SignatureCheck, l: Ledger, p: Pool, tx: Tx, network: Network)
    requires Consistent(check, l, p, network) && Admit(check, l, p, tx, network).Ok?
    ensures Admit(check, l, p, tx, network) == Ok(Insert(p, tx)) && Add(p, tx) == Ok(Insert(p, tx))
    ensures Consistent(check, l, Insert(p, tx), network)
  {
    hide Queue, Validate, Agrees;
    AddKeepsConsistent(check, l, p, tx, network);
  }

  /** The pool after trying to admit each transaction in turn, starting empty; refused ones change nothing. */
  ghost function AdmitAll(check: SignatureCheck, l: Ledger, txs: seq<Tx>, network: Network): (p: Pool)
    ensures Agrees(p)
  {
    if txs == [] then
      EmptyAgrees();
      EMPTY_POOL
    else
      var tx := txs[|txs| - 1];
      var before := AdmitAll(check, l, txs[..|txs| - 1], network);
      var r := Admit(check, l, before, tx, network);
      if r.Err? then before else
      assert Agrees(r.value) by { AddAgrees(before, tx); }
      r.value
  }

  lemma EmptyConsistent(check: SignatureCheck, l: Ledger, network: Network)
    ensures Consistent(check, l, EMPTY_POOL, network)
  {
    hide Agrees;
    EmptyAgrees();
    forall s ensures Queue(EMPTY_POOL, s) == [] {
      assert IsQueue(EMPTY_POOL, s, []);
      QueueUnique(EMPTY_POOL, s, []);
    }
  }

  /** Every run of admissions against one confirmed ledger builds a consistent pool. */
  lemma {:induction false} AdmissionRunsAreConsistent(check: SignatureCheck, l: Ledger, txs: seq<Tx>, network: Network)
    ensures Consistent(check, l, AdmitAll(check, l, txs, network), network)
  {
    hide Consistent, Agrees, Admit;
    if txs == [] {
      EmptyConsistent(check, l, network);
    } else {
      var front, tx := txs[..|txs| - 1], txs[|txs| - 1];
      AdmissionRunsAreConsistent(check, l, front, network);
      var before := AdmitAll(check, l, front, network);
      if Admit(check, l, before, tx, network).Ok? {
        AdmitKeepsConsistent(check, l, before, tx, network);
      }
    }
  }

  // ----- blocks filled from the pool

  /** Each sender's transactions in the list are the first ones of its queue, in queue order. */
  ghost predicate TakesQueuePrefixes(p: Pool, txs: seq<Tx>)
    requires Agrees(p)
  {
    forall s :: BySender(txs, s) <= Queue(p, s)
  }

  lemma PoolIdsIdentify(p: Pool, txs: seq<Tx>)
    requires forall t :: t in txs ==> p.Holds(t)
    ensures IdsIdentify(txs)
  {
    forall i | 0 <= i < |txs| ensures txs[i].id in p.txs && p.txs[txs[i].id] == txs[i] {
      assert txs[i] in txs;
    }
  }

  lemma PrefixesReplay(check: SignatureCheck, l: Ledger, p: Pool, network: Network, txs: seq<Tx>)
    requires Consistent(check, l, p, network) && TakesQueuePrefixes(p, txs)
    ensures EachSenderReplays(check, l, txs, network)
  {
    hide Agrees, Queue, Run;
    forall s ensures Run(check, l, BySender(txs, s), network).Ok? {
      var q := Queue(p, s);
      assert BySender(txs, s) <= q && Run(check, l, q, network).Ok?;
      RunPrefix(check, l, q, network, |BySender(txs, s)|);
      assert q[..|BySender(txs, s)|] == BySender(txs, s);
    }
  }

  lemma RunTakesPrefixes(check: SignatureCheck, l: Ledger, p: Pool, network: Network, txs: seq<Tx>)
    requires Consistent(check, l, p, network)
    requires forall t :: t in txs ==> p.Holds(t)
    requires Run(check, l, txs, network).Ok?
    ensures TakesQueuePrefixes(p, txs)
  {
    hide Agrees, Queue, Run, BySender;
    forall s ensures BySender(txs, s) <= Queue(p, s) {
      var own, q := BySender(txs, s), Queue(p, s);
      if own != [] {
        RunTakesAt(check, l, p, network, txs, s, |own| - 1);
      }
      forall i | 0 <= i < |own| ensures own[i] == q[i] {
        RunTakesAt(check, l, p, network, txs, s, i);
      }
    }
  }

  /** The i-th applied transaction of a sender is the i-th of its queue. */
  lemma RunTakesAt(check: SignatureCheck, l: Ledger, p: Pool, network: Network, txs: seq<Tx>, s: string, i: nat)
    requires Consistent(check, l, p, network)
    requires forall t :: t in txs ==> p.Holds(t)
    requires Run(check, l, txs, network).Ok? && i < |BySender(txs, s)|
    ensures i < |Queue(p, s)| && BySender(txs, s)[i] == Queue(p, s)[i]
  {
    hide Agrees, Queue, Run, BySender;
    var own, q := BySender(txs, s), Queue(p, s);
    QueueIs(p, s);
    QueueIsConsecutive(check, l, p, network, s);
    RunNonces(check, l, txs, network, s);
    BySenderMembers(txs, s, own[i]);
    assert own[i] in q;
    var j :| 0 <= j < |q| && q[j] == own[i];
  }

  /**
   A list of pooled transactions is processed as a block without error exactly when it takes a prefix of each
   sender's queue in nonce order, however the senders are interleaved, although admission replayed each sender alone.
   */
  lemma BlocksFromPool(check: SignatureCheck, l: Ledger, p: Pool, policy: Policy, height: nat, txs: seq<Tx>, miner: string)
    requires Backed(l, 0) && l.policy == policy && !policy.OtherPolicy? && miner != ""
    requires Consistent(check, l, p, NetworkFor(policy).value)
    requires forall t :: t in txs ==> p.Holds(t)
    ensures ProcessBlock(check, l, policy, height, txs, miner).Ok? <==> TakesQueuePrefixes(p, txs)
  {
    hide Agrees, Run, ProcessBlock, TakesQueuePrefixes;
    var network := NetworkFor(policy).value;
    ProcessBlockConserves(check, l, policy, height, txs, miner);
    if Run(check, l, txs, network).Ok? {
      RunTakesPrefixes(check, l, p, network, txs);
    } else if TakesQueuePrefixes(p, txs) {
      PoolIdsIdentify(p, txs);
      PrefixesReplay(check, l, p, network, txs);
      MergedQueuesRun(check, l, txs, network);
    }
  }

  // ----- what a block leaves behind

  /** The same accounts with no balance lower. */
  ghost predicate Richer(l: Ledger, m: Ledger) {
    && m.nonces == l.nonces && m.processed == l.processed && m.treasury == l.treasury && m.policy == l.policy
    && forall a :: l.Balance(a) <= m.Balance(a)
  }

  lemma RewardIsRicher(l: Ledger, policy: Policy, subsidy: nat, miner: string, fees: u64)
    requires PayReward(l, policy, subsidy, miner, fees).Ok?
    ensures Richer(l, PayReward(l, policy, subsidy, miner, fees).value.0)
  {
    hide MaxSupplyFor;
  }

  /** A processed block leaves a backed ledger that is at least as rich as its transactions alone would. */
  lemma BlockIsRicher(check: SignatureCheck, l: Ledger, policy: Policy, height: nat, txs: seq<Tx>, miner: string)
    requires Backed(l, 0) && ProcessBlock(check, l, policy, height, txs, miner).Ok?
    ensures l.policy == policy && !policy.OtherPolicy?
    ensures Run(check, l, txs, NetworkFor(policy).value).Ok?
    ensures var w := Run(check, l, txs, NetworkFor(policy).value).value;
            && Backed(w, MinerFees(txs))
            && Richer(w, ProcessBlock(check, l, policy, height, txs, miner).value.0)
    ensures Backed(ProcessBlock(check, l, policy, height, txs, miner).value.0, 0)
  {
    hide Run, RunCollecting, PayReward, Richer;
    ProcessBlockConserves(check, l, policy, height, txs, miner);
    var network := NetworkFor(policy).value;
    RunConserves(check, l, txs, network);
    var w := Run(check, l, txs, network).value;
    RewardIsRicher(w, policy, Emission.BlockSubsidy(policy, height).value, miner, MinerFees(txs));
  }

  lemma {:induction false} RemoveAllHolds(p: Pool, txs: seq<Tx>)
    requires Agrees(p)
    ensures Agrees(RemoveAll(p, txs))
    ensures RemoveAll(p, txs).txs == p.txs - Ids(txs)
  {
    hide Agrees, Remove;
    if txs == [] {
      assert p.txs - Ids(txs) == p.txs;
    } else {
      var front, tx := txs[..|txs| - 1], txs[|txs| - 1];
      RemoveAllHolds(p, front);
      RemoveAgrees(RemoveAll(p, front), tx.id);
      assert Ids(txs) == Ids(front) + {tx.id};
    }
  }

  lemma AscendingTail(q: seq<Tx>, k: nat, t: Tx)
    requires Ascending(q) && k <= |q|
    ensures t in q[k..] <==> t in q && t !in q[..k]
  {
    assert q == q[..k] + q[k..];
    if t in q[k..] {
      var i :| k <= i < |q| && q[i] == t;
      assert forall j :: 0 <= j < k ==> q[j].nonce < q[i].nonce;
    }
  }

  /** The block contains the identifier of every pooled transaction whose nonce it spends. */
  ghost predicate SpendsPooled(l: Ledger, p: Pool, txs: seq<Tx>) {
    forall t :: p.Holds(t) && t.nonce <= l.Nonce(t.sender) + |BySender(txs, t.sender)| ==> t.id in Ids(txs)
  }

  /** An identifier names the same payment in the pool and in the block, though perhaps signed again. */
  ghost predicate SameIdSamePayment(p: Pool, txs: seq<Tx>) {
    forall t, u :: p.Holds(t) && u in txs && t.id == u.id ==> PaymentOf(t) == PaymentOf(u)
  }

  /** The ledger `m` can pay whatever sender `s` can pay on `l`, identifiers aside. */
  ghost predicate AsGoodFor(s: string, l: Ledger, m: Ledger) {
    m.Nonce(s) == l.Nonce(s) && l.Balance(s) <= m.Balance(s) && m.treasury == l.treasury
  }

  lemma RunKeepsAsGood(check: SignatureCheck, l: Ledger, m: Ledger, q: seq<Tx>, network: Network, s: string)
    requires AsGoodFor(s, l, m) && Run(check, l, q, network).Ok? && Run(check, m, q, network).Ok?
    ensures AsGoodFor(s, Run(check, l, q, network).value, Run(check, m, q, network).value)
  {
    hide Run, Net, BySender;
    RunBalance(check, l, q, network, s);
    RunBalance(check, m, q, network, s);
    RunNonces(check, l, q, network, s);
    RunNonces(check, m, q, network, s);
  }

  /** One sender's list replays wherever that sender has the same nonce, no lower balance and fresh identifiers. */
  lemma {:induction false} OwnQueueRuns(check: SignatureCheck, l: Ledger, m: Ledger, q: seq<Tx>, network: Network,
                                        s: string, fees: nat, fees': nat)
    requires Backed(l, fees) && Backed(m, fees') && forall t :: t in q ==> t.sender == s
    requires AsGoodFor(s, l, m) && m.processed !! Ids(q)
    requires Run(check, l, q, network).Ok?
    ensures Run(check, m, q, network).Ok?
    ensures Backed(Run(check, l, q, network).value, fees + MinerFees(q))
    ensures Backed(Run(check, m, q, network).value, fees' + MinerFees(q))
  {
    hide ApplyTx, Backed, MiningFee, DistinctIds, AsGoodFor;
    if q != [] {
      var front, tx := q[..|q| - 1], q[|q| - 1];
      RunFront(check, l, q, network);
      assert Ids(q) == Ids(front) + {tx.id} && tx in q;
      OwnQueueRuns(check, l, m, front, network, s, fees, fees');
      var before, before' := Run(check, l, front, network).value, Run(check, m, front, network).value;
      RunKeepsAsGood(check, l, m, front, network, s);
      RunIds(check, l, q, network);
      RunIds(check, m, front, network);
      FreshLast(q);
      OwnStep(check, before, before', tx, network, fees + MinerFees(front), fees' + MinerFees(front));
    }
  }

  lemma OwnStep(check: SignatureCheck, l: Ledger, m: Ledger, tx: Tx, network: Network, fees: nat, fees': nat)
    requires Backed(l, fees) && Backed(m, fees') && AsGoodFor(tx.sender, l, m) && tx.id !in m.processed
    requires ApplyTx(check, l, tx, network).Ok?
    ensures ApplyTx(check, m, tx, network).Ok?
    ensures Backed(ApplyTx(check, l, tx, network).value, fees + MiningFee(tx.amount))
    ensures Backed(ApplyTx(check, m, tx, network).value, fees' + MiningFee(tx.amount))
  {
    hide ApplyTx, WellSigned, Backed, Fault, MiningFee;
    AcceptedExactly(check, l, tx, network, fees);
    AcceptedExactly(check, m, tx, network, fees');
    ApplyTxConserves(check, l, tx, network, fees);
    ApplyTxConserves(check, m, tx, network, fees');
  }

  lemma FreshLast(q: seq<Tx>)
    requires q != [] && DistinctIds(q)
    ensures q[|q| - 1].id !in Ids(q[..|q| - 1])
  {
  }

  /** A processed block that contains what it spends makes the payments of each queue as far as both go. */
  lemma BlockFollowsQueue(check: SignatureCheck, l: Ledger, p: Pool, network: Network, txs: seq<Tx>, s: string, i: nat)
    requires Consistent(check, l, p, network) && Run(check, l, txs, network).Ok?
    requires SpendsPooled(l, p, txs) && SameIdSamePayment(p, txs) && i < |Queue(p, s)|
    ensures Queue(p, s)[i].id in Ids(txs) <==> i < |BySender(txs, s)|
    ensures var own := BySender(txs, s);
            i < |own| ==> own[i].id == Queue(p, s)[i].id && PaymentOf(own[i]) == PaymentOf(Queue(p, s)[i])
  {
    hide Agrees, Queue, Run, BySender;
    QueueIs(p, s);
    QueueIsConsecutive(check, l, p, network, s);
    RunNonces(check, l, txs, network, s);
    var t, own := Queue(p, s)[i], BySender(txs, s);
    assert t in Queue(p, s);
    if t.id in Ids(txs) {
      var k :| 0 <= k < |txs| && txs[k].id == t.id;
      assert txs[k] in txs;
      BySenderMembers(txs, s, txs[k]);
      var j :| 0 <= j < |own| && own[j] == txs[k];
      assert j == i;
    }
  }

  /** What a block leaves of each queue: the part beyond the nonces it spends. */
  lemma QueueAfterBlock(check: SignatureCheck, l: Ledger, p: Pool, network: Network, txs: seq<Tx>, s: string)
    requires Consistent(check, l, p, network) && Run(check, l, txs, network).Ok?
    requires SpendsPooled(l, p, txs) && SameIdSamePayment(p, txs)
    ensures Agrees(RemoveAll(p, txs))
    ensures var q, k := Queue(p, s), |BySender(txs, s)|;
            Queue(RemoveAll(p, txs), s) == if |q| <= k then [] else q[k..]
  {
    hide Agrees, Queue, Run, BySender, RemoveAll, SpendsPooled, Ids, SameIdSamePayment;
    RemoveAllHolds(p, txs);
    QueueIs(p, s);
    var q, k, left := Queue(p, s), |BySender(txs, s)|, RemoveAll(p, txs);
    var rest := if |q| <= k then [] else q[k..];
    forall t ensures t in rest <==> left.Holds(t) && t.sender == s {
      if p.Holds(t) && t.sender == s {
        var i :| 0 <= i < |q| && q[i] == t;
        BlockFollowsQueue(check, l, p, network, txs, s, i);
        AscendingTail(q, if k < |q| then k else |q|, t);
      } else {
        assert t !in q;
      }
    }
    QueueUnique(left, s, rest);
  }

  /** What the block leaves of a queue replays on the ledger it leaves. */
  lemma LeftoverReplays(check: SignatureCheck, l: Ledger, p: Pool, policy: Policy, height: nat, txs: seq<Tx>,
                        miner: string, s: string)
    requires Backed(l, 0) && ProcessBlock(check, l, policy, height, txs, miner).Ok?
    requires !policy.OtherPolicy? && Consistent(check, l, p, NetworkFor(policy).value)
    requires SpendsPooled(l, p, txs) && SameIdSamePayment(p, txs) && |BySender(txs, s)| < |Queue(p, s)|
    ensures Run(check, ProcessBlock(check, l, policy, height, txs, miner).value.0,
                Queue(p, s)[|BySender(txs, s)|..], NetworkFor(policy).value).Ok?
  {
    hide Agrees, Queue, Run, BySender, ProcessBlock, SpendsPooled, SameIdSamePayment, Net, Backed;
    var network := NetworkFor(policy).value;
    var after := ProcessBlock(check, l, policy, height, txs, miner).value.0;
    BlockIsRicher(check, l, policy, height, txs, miner);
    var w, q, k := Run(check, l, txs, network).value, Queue(p, s), |BySender(txs, s)|;
    QueueIs(p, s);
    var own := BySender(txs, s);
    forall i | 0 <= i < k ensures own[i].id == q[i].id && PaymentOf(own[i]) == PaymentOf(q[i]) {
      BlockFollowsQueue(check, l, p, network, txs, s, i);
    }
    assert SamePayments(q[..k], own);
    NetOfSamePayments(q[..k], own, s, l.treasury);
    assert q == q[..k] + q[k..];
    RunPrefix(check, l, q, network, k);
    var alone := Run(check, l, q[..k], network).value;
    RunSplit(check, l, q[..k], q[k..], network);
    RunConserves(check, l, q[..k], network);
    RunBalance(check, l, q[..k], network, s);
    RunBalance(check, l, txs, network, s);
    NetOfOthers(txs, s, l.treasury);
    RunNonces(check, l, q[..k], network, s);
    RunNonces(check, l, txs, network, s);
    BySenderAll(q[..k], s, s);
    RunIds(check, l, txs, network);
    LeftoverIdsFresh(check, l, p, network, txs, s);
    assert AsGoodFor(s, alone, after);
    OwnQueueRuns(check, alone, after, q[k..], network, s, MinerFees(q[..k]), 0);
  }

  lemma LeftoverIdsFresh(check: SignatureCheck, l: Ledger, p: Pool, network: Network, txs: seq<Tx>, s: string)
    requires Consistent(check, l, p, network) && Run(check, l, txs, network).Ok?
    requires SpendsPooled(l, p, txs) && SameIdSamePayment(p, txs) && |BySender(txs, s)| <= |Queue(p, s)|
    ensures l.processed + Ids(txs) !! Ids(Queue(p, s)[|BySender(txs, s)|..])
  {
    hide Agrees, Queue, Run, BySender, SpendsPooled, SameIdSamePayment;
    QueueIs(p, s);
    QueueIsConsecutive(check, l, p, network, s);
    var q, k := Queue(p, s), |BySender(txs, s)|;
    forall i | k <= i < |q| ensures q[i].id !in l.processed + Ids(txs) {
      assert q[i].id in Ids(q);
      BlockFollowsQueue(check, l, p, network, txs, s, i);
    }
  }

  /**
   A processed block, whoever made it, leaves a consistent pool exactly when it contains every pooled transaction whose
   nonce it spends.
   */
  lemma BlockKeepsPoolExactly(
    check: SignatureCheck, l: Ledger, p: Pool, policy: Policy, height: nat, txs: seq<Tx>, miner: string)
    requires Backed(l, 0) && ProcessBlock(check, l, policy, height, txs, miner).Ok?
    requires !policy.OtherPolicy? && Consistent(check, l, p, NetworkFor(policy).value) && SameIdSamePayment(p, txs)
    ensures Consistent(check, ProcessBlock(check, l, policy, height, txs, miner).value.0,
                       RemoveAll(p, txs), NetworkFor(policy).value)
            <==> SpendsPooled(l, p, txs)
  {
    hide Agrees, Queue, Run, RemoveAll, ProcessBlock, Backed, BySender, SameIdSamePayment;
    var network := NetworkFor(policy).value;
    var after, left := ProcessBlock(check, l, policy, height, txs, miner).value.0, RemoveAll(p, txs);
    BlockIsRicher(check, l, policy, height, txs, miner);
    RemoveAllHolds(p, txs);
    if SpendsPooled(l, p, txs) {
      forall s ensures Run(check, after, Queue(left, s), network).Ok? {
        QueueAfterBlock(check, l, p, network, txs, s);
        if |BySender(txs, s)| < |Queue(p, s)| {
          LeftoverReplays(check, l, p, policy, height, txs, miner, s);
        } else {
          RunNothing(check, after, network);
        }
      }
    } else {
      var t :| p.Holds(t) && t.nonce <= l.Nonce(t.sender) + |BySender(txs, t.sender)| && t.id !in Ids(txs);
      RunNonces(check, l, txs, network, t.sender);
      SpentNonceBreaksPool(check, after, left, network, t);
    }
  }

  lemma RunNothing(check: SignatureCheck, l: Ledger, network: Network)
    ensures Run(check, l, [], network) == Ok(l)
  {
  }

  /** A pending transaction whose nonce is spent, as a block from elsewhere can leave behind, breaks consistency. */
  lemma SpentNonceBreaksPool(check: SignatureCheck, l: Ledger, p: Pool, network: Network, t: Tx)
    requires Agrees(p) && p.Holds(t) && t.nonce <= l.Nonce(t.sender)
    ensures !Consistent(check, l, p, network)
  {
    hide Queue, Run;
    QueueIs(p, t.sender);
    var q := Queue(p, t.sender);
    var i :| 0 <= i < |q| && q[i] == t;
    if Consistent(check, l, p, network) {
      QueueIsConsecutive(check, l, p, network, t.sender);
    }
  }

  /** A transaction that the ledger accepts is admitted to the empty pool. */
  lemma FirstAdmitted(check: SignatureCheck, l: Ledger, t: Tx, network: Network)
    requires ApplyTx(check, l, t, network).Ok?
    ensures AdmitAll(check, l, [t], network).Holds(t) && Queue(AdmitAll(check, l, [t], network), t.sender) == [t]
  {
    hide Agrees, Queue, Validate, ApplyTx, AdmitAll;
    EmptyAgrees();
    EmptyConsistent(check, l, network);
    AdmitOne(check, l, t, network);
    EmptyQueue(t.sender);
    assert [t][..0] == [] && Run(check, l, [], network) == Ok(l) && [] + [t] == [t];
    ValidateExactly(check, l, [], t, network);
    AcceptedIsBounded(check, l, t, network);
    QueueAfterAdd(EMPTY_POOL, t, t.sender);
  }

  lemma AdmitOne(check: SignatureCheck, l: Ledger, t: Tx, network: Network)
    ensures Agrees(EMPTY_POOL)
    ensures var r := Admit(check, l, EMPTY_POOL, t, network);
            AdmitAll(check, l, [t], network) == if r.Ok? then r.value else EMPTY_POOL
  {
    hide Agrees, Admit;
    EmptyAgrees();
    assert [t][..0] == [];
  }

  lemma EmptyQueue(s: string)
    ensures Agrees(EMPTY_POOL) && Queue(EMPTY_POOL, s) == []
  {
    EmptyAgrees();
    hide Agrees, Queue;
    assert IsQueue(EMPTY_POOL, s, []);
    QueueUnique(EMPTY_POOL, s, []);
  }

  lemma AcceptedIsBounded(check: SignatureCheck, l: Ledger, t: Tx, network: Network)
    requires ApplyTx(check, l, t, network).Ok?
    ensures t.id != "" && WithinResourceBounds(t) && t.id !in l.processed
  {
    hide WithinResourceBounds, CalculateFee, DevelopmentFee, MiningFee;
  }

  /**
   Where accepting a block goes wrong: of two conflicting payments the ledger would accept, one is admitted to the pool
   and a block with the other is processed. The first stays in the pool with a spent nonce.
   */
  lemma ConflictStrandsPooled(check: SignatureCheck, l: Ledger, policy: Policy, height: nat, t: Tx, u: Tx, miner: string)
    requires Backed(l, 0) && l.policy == policy && !policy.OtherPolicy? && miner != ""
    requires t.sender == u.sender && t.nonce == u.nonce && t.id != u.id
    requires var network := NetworkFor(policy).value;
             ApplyTx(check, l, t, network).Ok? && ApplyTx(check, l, u, network).Ok?
    ensures var network := NetworkFor(policy).value;
            var p := AdmitAll(check, l, [t], network);
            var r := ProcessBlock(check, l, policy, height, [u], miner);
            && Consistent(check, l, p, network) && p.Holds(t)
            && r.Ok? && RemoveAll(p, [u]).Holds(t)
            && !Consistent(check, r.value.0, RemoveAll(p, [u]), network)
  {
    hide Agrees, ApplyTx, ProcessBlock, Consistent, AdmitAll, RemoveAll, Backed;
    var network := NetworkFor(policy).value;
    var p := AdmitAll(check, l, [t], network);
    AdmissionRunsAreConsistent(check, l, [t], network);
    FirstAdmitted(check, l, t, network);
    assert [u][..0] == [] && Run(check, l, [], network) == Ok(l);
    assert Run(check, l, [u], network).Ok?;
    ProcessBlockConserves(check, l, policy, height, [u], miner);
    BlockIsRicher(check, l, policy, height, [u], miner);
    BySenderAll([u], u.sender, u.sender);
    RunNonces(check, l, [u], network, u.sender);
    RemoveAllHolds(p, [u]);
    SpentNonceBreaksPool(check, ProcessBlock(check, l, policy, height, [u], miner).value.0, RemoveAll(p, [u]), network, t);
  }

  /** A block mined from the pool, once processed and removed, leaves a pool consistent with the new ledger. */
  lemma MinedBlockKeepsPoolConsistent(
    check: SignatureCheck, l: Ledger, p: Pool, policy: Policy, height: nat, txs: seq<Tx>, miner: string)
    requires Backed(l, 0) && ProcessBlock(check, l, policy, height, txs, miner).Ok?
    requires !policy.OtherPolicy? && Consistent(check, l, p, NetworkFor(policy).value)
    requires forall t :: t in txs ==> p.Holds(t)
    ensures Consistent(check, ProcessBlock(check, l, policy, height, txs, miner).value.0,
                       RemoveAll(p, txs), NetworkFor(policy).value)
  {
    hide Agrees, Queue, Run, RemoveAll, ProcessBlock, Backed, BySender;
    var network := NetworkFor(policy).value;
    BlockIsRicher(check, l, policy, height, txs, miner);
    RunTakesPrefixes(check, l, p, network, txs);
    forall t | p.Holds(t) && t.nonce <= l.Nonce(t.sender) + |BySender(txs, t.sender)| ensures t.id in Ids(txs) {
      var q, own := Queue(p, t.sender), BySender(txs, t.sender);
      QueueIs(p, t.sender);
      QueueIsConsecutive(check, l, p, network, t.sender);
      var i :| 0 <= i < |q| && q[i] == t;
      assert own <= q && i < |own|;
      BySenderMembers(txs, t.sender, own[i]);
      var k :| 0 <= k < |txs| && txs[k] == t;
      assert txs[k].id in Ids(txs);
    }
    BlockKeepsPoolExactly(check, l, p, policy, height, txs, miner);
  }
}
