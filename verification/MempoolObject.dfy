/** The mempool object (blockchain/mempool/mempool.go), proved against the value model in Pools.dfy. */
module MempoolObject {
  import opened Prelude
  import opened Params
  import opened Transactions
  import opened Sorting
  import opened Pools
  import opened Admission

  class Mempool {
    var transactions: map<string, Tx>
    var metadata: map<string, Meta>
    var totalEstimatedBytes: int
    var senderNonces: map<string, map<u64, string>>

    function View(): Pool
      reads this
    {
      Pool(transactions, metadata, totalEstimatedBytes, senderNonces)
    }

    constructor ()
      ensures View() == EMPTY_POOL
    {
      transactions, metadata, totalEstimatedBytes, senderNonces := map[], map[], 0, map[];
    }

    method CheckAdmission(tx: Tx) returns (error: Option<PoolError>)
      ensures error == Refusal(View(), tx)
    {
      if !WithinResourceBounds(tx) {
        return Some(PoolOutsideBounds);
      }
      if tx.id == "" {
        return Some(PoolEmptyId);
      }
      if tx.id in transactions {
        return Some(PoolDuplicateId);
      }
      if |transactions| >= MAX_POOL_TXS {
        return Some(PoolFull);
      }
      if totalEstimatedBytes + EstimatedSize(tx) > MAX_POOL_BYTES {
        return Some(PoolBytesFull);
      }
      var nonces: map<u64, string> := if tx.sender in senderNonces then senderNonces[tx.sender] else map[];
      if |nonces| >= MAX_POOL_PER_SENDER {
        return Some(PoolSenderFull);
      }
      if tx.nonce in nonces {
        return Some(PoolNonceTaken);
      }
      return None;
    }

    method AddTransaction(tx: Tx) returns (error: Option<PoolError>)
      modifies this
      ensures match Add(old(View()), tx)
              case Ok(p) => error == None && View() == p
              case Err(e) => error == Some(e) && View() == old(View())
      ensures old(Agrees(View())) ==> Agrees(View())
    {
      hide Refusal, Agrees, WithinResourceBounds, EstimatedSize;
      if Agrees(View()) && Add(View(), tx).Ok? {
        AddAgrees(View(), tx);
      }
      error := CheckAdmission(tx);
      if error.Some? {
        return;
      }
      var meta := Meta(tx.sender, tx.nonce, EstimatedSize(tx));
      var nonces: map<u64, string> := if tx.sender in senderNonces then senderNonces[tx.sender] else map[];
      transactions := transactions[tx.id := tx];
      metadata := metadata[tx.id := meta];
      senderNonces := senderNonces[meta.sender := nonces[meta.nonce := tx.id]];
      totalEstimatedBytes := totalEstimatedBytes + meta.size;
    }

    method RemoveTransaction(id: string)
      modifies this
      ensures View() == Remove(old(View()), id)
      ensures old(Agrees(View())) ==> Agrees(View())
    {
      hide Agrees, Unindex;
      if Agrees(View()) {
        RemoveAgrees(View(), id);
      }
      if id !in transactions {
        return;
      }
      transactions := transactions - {id};
      if id !in metadata {
        return;
      }
      var meta := metadata[id];
      metadata := metadata - {id};
      if meta.size >= totalEstimatedBytes {
        totalEstimatedBytes := 0;
      } else {
        totalEstimatedBytes := totalEstimatedBytes - meta.size;
      }
      RemoveFromIndex(meta, id);
    }

    /** The sender/nonce part of a removal. */
    method RemoveFromIndex(meta: Meta, id: string)
      modifies this`senderNonces
      ensures senderNonces == Unindex(old(senderNonces), meta, id)
    {
      if meta.sender in senderNonces {
        var nonces: map<u64, string> := senderNonces[meta.sender];
        if meta.nonce in nonces && nonces[meta.nonce] == id {
          nonces := nonces - {meta.nonce};
        }
        if |nonces| == 0 {
          senderNonces := senderNonces - {meta.sender};
        } else {
          senderNonces := senderNonces[meta.sender := nonces];
        }
      }
    }

    method Clear()
      modifies this
      ensures View() == EMPTY_POOL
    {
      transactions, metadata, senderNonces, totalEstimatedBytes := map[], map[], map[], 0;
    }

    /** Whatever order the index map is enumerated in, the result is the sender's queue. */
    method TransactionsForSender(sender: string) returns (result: seq<Tx>)
      requires Agrees(View())
      ensures result == Queue(View(), sender)
    {
      hide Agrees, Queue, Sort;
      var nonces: map<u64, string> := if sender in senderNonces then senderNonces[sender] else map[];
      var remaining := nonces.Keys;
      result := [];
      ghost var done: set<u64> := {};
      while remaining != {}
        invariant remaining !! done && remaining + done == nonces.Keys
        invariant forall t :: t in result <==> Holds(t) && t.sender == sender && t.nonce in done
        invariant forall i, j :: 0 <= i < j < |result| ==> result[i].nonce != result[j].nonce
        decreases remaining
      {
        var n :| n in remaining;
        IndexedIsHeld(View(), sender, n);
        var tx := transactions[nonces[n]];
        assert forall t :: Holds(t) && t.sender == sender && t.nonce == n ==> t == tx by {
          HeldNonceUnique(View(), tx);
        }
        result := result + [tx];
        remaining, done := remaining - {n}, done + {n};
      }
      HeldIsIndexed(View(), sender);
      SortedByNonce(result);
      forall t ensures t in Sort(result, NonceLeq) <==> View().Holds(t) && t.sender == sender {
        SortMember(result, NonceLeq, t);
      }
      result := Sort(result, NonceLeq);
      QueueUnique(View(), sender, result);
    }

    predicate Holds(tx: Tx)
      reads this
    {
      tx.id in transactions && transactions[tx.id] == tx
    }

    /** All pending transactions, each once, in the order of some enumeration. */
    method AllTransactions() returns (result: seq<Tx>)
      requires Agrees(View())
      ensures forall t :: t in result <==> View().Holds(t)
      ensures forall i, j :: 0 <= i < j < |result| ==> result[i].id != result[j].id
    {
      hide Agrees;
      HeldIds(View());
      var remaining := transactions.Keys;
      result := [];
      ghost var done: set<string> := {};
      while remaining != {}
        invariant remaining !! done && remaining + done == transactions.Keys
        invariant forall t :: t in result <==> Holds(t) && t.id in done
        invariant forall i, j :: 0 <= i < j < |result| ==> result[i].id != result[j].id
        decreases remaining
      {
        var id :| id in remaining;
        assert transactions[id].id == id;
        result := result + [transactions[id]];
        remaining, done := remaining - {id}, done + {id};
      }
    }
  }

  lemma HeldIds(p: Pool)
    requires Agrees(p)
    ensures forall id :: id in p.txs ==> p.txs[id].id == id
  {
  }

  /** An indexed nonce names a held transaction of that sender and nonce. */
  lemma IndexedIsHeld(p: Pool, sender: string, nonce: u64)
    requires Agrees(p) && sender in p.index && nonce in p.index[sender]
    ensures var id := p.index[sender][nonce];
            id in p.txs && p.Holds(p.txs[id]) && p.txs[id].sender == sender && p.txs[id].nonce == nonce
  {
    assert Names(p.index, sender, nonce, p.index[sender][nonce]);
  }

  lemma HeldNonceUnique(p: Pool, tx: Tx)
    requires Agrees(p) && p.Holds(tx)
    ensures forall t :: p.Holds(t) && t.sender == tx.sender && t.nonce == tx.nonce ==> t == tx
  {
    PoolNoncesDiffer(p, tx.sender);
    forall t | p.Holds(t) && t.sender == tx.sender && t.nonce == tx.nonce ensures t == tx {
      assert p.txs[t.id] in Members(p, tx.sender) && p.txs[tx.id] in Members(p, tx.sender);
    }
  }

  lemma HeldIsIndexed(p: Pool, sender: string)
    requires Agrees(p)
    ensures forall t :: p.Holds(t) && t.sender == sender ==> t.nonce in p.NoncesOf(sender)
  {
    forall t | p.Holds(t) && t.sender == sender ensures t.nonce in p.NoncesOf(sender) {
      assert Names(p.index, sender, t.nonce, t.id);
    }
  }

  lemma NonceOrderIsTotal()
    ensures TotalPreorder(NonceLeq)
  {
    forall x: Tx, y: Tx ensures NonceLeq(x, y) || NonceLeq(y, x) {
      LexTotal(x.id, y.id);
    }
    forall x: Tx, y: Tx, z: Tx | NonceLeq(x, y) && NonceLeq(y, z) ensures NonceLeq(x, z) {
      if LexLeq(x.id, y.id) && LexLeq(y.id, z.id) {
        LexTransitive(x.id, y.id, z.id);
      }
    }
  }

  ghost predicate NoncesDistinct(txs: seq<Tx>) {
    forall i, j :: 0 <= i < j < |txs| ==> txs[i].nonce != txs[j].nonce
  }

  lemma {:induction false} InsertKeepsDistinct(x: Tx, s: seq<Tx>)
    requires NoncesDistinct(s) && forall t :: t in s ==> t.nonce != x.nonce
    ensures NoncesDistinct(InsertInOrder(x, s, NonceLeq))
  {
    hide NonceLeq;
    if s != [] && !NonceLeq(x, s[0]) {
      InsertKeepsDistinct(x, s[1..]);
      var rest := InsertInOrder(x, s[1..], NonceLeq);
      forall k | 0 <= k < |rest| ensures rest[k].nonce != s[0].nonce {
        InsertMember(x, s[1..], NonceLeq, rest[k]);
      }
    }
  }

  lemma {:induction false} SortKeepsDistinct(txs: seq<Tx>)
    requires NoncesDistinct(txs)
    ensures NoncesDistinct(Sort(txs, NonceLeq))
  {
    hide NonceLeq;
    if txs != [] {
      SortKeepsDistinct(txs[1..]);
      forall t | t in Sort(txs[1..], NonceLeq) ensures t.nonce != txs[0].nonce {
        SortMember(txs[1..], NonceLeq, t);
      }
      InsertKeepsDistinct(txs[0], Sort(txs[1..], NonceLeq));
    }
  }

  /** Sorting transactions of different nonces gives strictly ascending nonces. */
  lemma SortedByNonce(txs: seq<Tx>)
    requires NoncesDistinct(txs)
    ensures Ascending(Sort(txs, NonceLeq))
  {
    NonceOrderIsTotal();
    SortSorts(txs, NonceLeq);
    SortKeepsDistinct(txs);
    var s := Sort(txs, NonceLeq);
    hide Sort;
    forall i, j | 0 <= i < j < |s| ensures s[i].nonce < s[j].nonce {
      assert NonceLeq(s[i], s[j]);
    }
  }
}
