/** Which blocks the pool's enumeration order can produce (blockchain/block_builder.go), and when all of them are good. */
module BlockOrders {
  import opened Params
  import opened Transactions
  import opened Ledgers
  import opened Conservation
  import opened Effects
  import opened Chains
  import opened Pools
  import opened Admission
  import opened PoolBlocks

  /** Every pooled transaction once, in any order: what ranging over the pool's map can give. */
  ghost predicate IsEnumeration(p: Pool, pending: seq<Tx>) {
    DistinctIds(pending) && forall t :: t in pending <==> p.Holds(t)
  }

  /** The transactions a block takes from an enumeration: those that still fit, up to the limits. */
  function Selected(pending: seq<Tx>): (selected: seq<Tx>)
    ensures |selected| <= MAX_BLOCK_TXS && TotalSize(selected) <= MAX_BLOCK_BYTES
  {
    if pending == [] then []
    else
      var before := Selected(pending[..|pending| - 1]);
      var tx := pending[|pending| - 1];
      if |before| >= MAX_BLOCK_TXS || TotalSize(before) + EstimatedSize(tx) > MAX_BLOCK_BYTES then before
      else
        assert (before + [tx])[..|before|] == before;
        before + [tx]
  }

  /** A full block stays as it is. */
  lemma {:induction false} SelectedStops(pending: seq<Tx>, k: nat)
    requires k <= |pending| && |Selected(pending[..k])| >= MAX_BLOCK_TXS
    ensures Selected(pending) == Selected(pending[..k])
    decreases |pending|
  {
    hide EstimatedSize, TotalSize;
    if k == |pending| {
      assert pending[..k] == pending;
    } else {
      assert pending[..|pending| - 1][..k] == pending[..k];
      SelectedStops(pending[..|pending| - 1], k);
    }
  }

  /** The selection loop of NewBlockFromMempool. */
  method Select(pending: seq<Tx>) returns (selected: seq<Tx>)
    ensures selected == Selected(pending)
  {
    hide EstimatedSize, TotalSize;
    assert Selected([]) == [] && TotalSize([]) == 0 by { NothingSelected(); }
    selected := [];
    var totalBytes := 0;
    for i := 0 to |pending|
      invariant selected == Selected(pending[..i]) && totalBytes == TotalSize(selected)
    {
      assert pending[..i + 1][..i] == pending[..i];
      if |selected| >= MAX_BLOCK_TXS {
        SelectedStops(pending, i);
        return;
      }
      var size := EstimatedSize(pending[i]);
      if totalBytes + size <= MAX_BLOCK_BYTES {
        SizeOfMore(selected, pending[i]);
        selected := selected + [pending[i]];
        totalBytes := totalBytes + size;
      }
    }
    assert pending[..|pending|] == pending;
  }

  lemma NothingSelected()
    ensures Selected([]) == [] && TotalSize([]) == 0
  {
  }

  lemma SizeOfMore(txs: seq<Tx>, tx: Tx)
    ensures TotalSize(txs + [tx]) == TotalSize(txs) + EstimatedSize(tx)
  {
    assert (txs + [tx])[..|txs|] == txs;
  }

  lemma {:induction false} SelectedMembers(pending: seq<Tx>)
    requires DistinctIds(pending)
    ensures DistinctIds(Selected(pending)) && forall t :: t in Selected(pending) ==> t in pending
  {
    hide EstimatedSize, TotalSize;
    if pending != [] {
      var front, tx := pending[..|pending| - 1], pending[|pending| - 1];
      SelectedMembers(front);
      assert forall t :: t in front ==> t.id != tx.id;
    }
  }

  lemma SelectedFromPool(p: Pool, pending: seq<Tx>)
    requires IsEnumeration(p, pending)
    ensures DistinctIds(Selected(pending)) && forall t :: t in Selected(pending) ==> p.Holds(t)
  {
    hide Selected;
    SelectedMembers(pending);
  }

  /** Whatever is selected from the pool passes the resource rules of a block. */
  lemma SelectedIsValid(p: Pool, pending: seq<Tx>)
    requires Agrees(p) && IsEnumeration(p, pending)
    ensures ValidTransactions(Selected(pending))
  {
    hide SameIds, IndexInverse, WithinLimits, WithinResourceBounds, Selected;
    SelectedMembers(pending);
    assert forall i :: 0 <= i < |Selected(pending)| ==> Selected(pending)[i] in Selected(pending);
  }

  lemma {:induction false} SelectedFirst(pending: seq<Tx>)
    requires pending != [] && EstimatedSize(pending[0]) <= MAX_BLOCK_BYTES
    ensures Selected(pending) != [] && Selected(pending)[0] == pending[0]
  {
    hide EstimatedSize;
    if |pending| == 1 {
      assert Selected(pending[..0]) == [];
    } else {
      SelectedFirst(pending[..|pending| - 1]);
    }
  }

  lemma {:induction false} BySenderFirst(txs: seq<Tx>)
    requires txs != []
    ensures var own := BySender(txs, txs[0].sender); own != [] && own[0] == txs[0]
  {
    if |txs| > 1 {
      BySenderFirst(txs[..|txs| - 1]);
    }
  }

  lemma {:induction false} BySenderDistinct(txs: seq<Tx>, s: string)
    requires DistinctIds(txs)
    ensures DistinctIds(BySender(txs, s))
  {
    if txs != [] {
      var front, tx := txs[..|txs| - 1], txs[|txs| - 1];
      BySenderDistinct(front, s);
      forall t | t in BySender(front, s) ensures t.id != tx.id {
        BySenderMembers(front, s, t);
      }
    }
  }

  lemma {:induction false} Enumerate(p: Pool, ids: set<string>) returns (pending: seq<Tx>)
    requires SameIds(p) && ids <= p.txs.Keys
    ensures DistinctIds(pending) && forall t :: t in pending <==> t.id in ids && p.Holds(t)
    decreases ids
  {
    hide MetaOf;
    if ids == {} {
      pending := [];
    } else {
      var id :| id in ids;
      var rest := Enumerate(p, ids - {id});
      pending := rest + [p.txs[id]];
    }
  }

  /** Any pooled transaction comes first in some enumeration. */
  lemma EnumerateFrom(p: Pool, t: Tx) returns (pending: seq<Tx>)
    requires Agrees(p) && p.Holds(t)
    ensures IsEnumeration(p, pending) && pending != [] && pending[0] == t
  {
    hide WithinResourceBounds, MetaOf;
    var rest := Enumerate(p, p.txs.Keys - {t.id});
    pending := [t] + rest;
  }

  /** With at most one transaction pending per sender every list of different pooled transactions takes prefixes. */
  lemma ShortQueuesTakePrefixes(p: Pool, txs: seq<Tx>)
    requires Agrees(p) && DistinctIds(txs) && forall t :: t in txs ==> p.Holds(t)
    requires forall s :: |Queue(p, s)| <= 1
    ensures TakesQueuePrefixes(p, txs)
  {
    hide Agrees, Queue, BySender;
    forall s ensures BySender(txs, s) <= Queue(p, s) {
      var own, q := BySender(txs, s), Queue(p, s);
      QueueIs(p, s);
      BySenderDistinct(txs, s);
      assert |q| <= 1;
      forall t ensures t in own ==> t in q {
        BySenderMembers(txs, s, t);
      }
      assert own != [] ==> own[0] in q;
      if q != [] {
        AtMostOne(own, q[0]);
      }
    }
  }

  lemma AtMostOne(own: seq<Tx>, x: Tx)
    requires DistinctIds(own) && forall t :: t in own ==> t == x
    ensures own == [] || own == [x]
  {
    if own != [] {
      assert own[|own| - 1] in own && own[0] in own;
    }
  }

  /** A sender with two pending transactions can have the second one enumerated first, and then the block is refused. */
  lemma LongQueueRefusesSomeOrder(
    check: SignatureCheck, l: Ledger, p: Pool, policy: Policy, height: nat, miner: string, s: string)
    returns (pending: seq<Tx>)
    requires Backed(l, 0) && l.policy == policy && !policy.OtherPolicy? && miner != ""
    requires Consistent(check, l, p, NetworkFor(policy).value) && |Queue(p, s)| >= 2
    ensures IsEnumeration(p, pending)
    ensures ProcessBlock(check, l, policy, height, Selected(pending), miner).Err?
  {
    hide Queue, ProcessBlock, Run, BySender, Selected, Backed, SameIds, IndexInverse, WithinLimits;
    QueueIs(p, s);
    var q := Queue(p, s);
    var t := q[1];
    assert t in q && q[0] in q;
    pending := EnumerateFrom(p, t);
    SelectedMembers(pending);
    PooledFits(p, t);
    SelectedFirst(pending);
    BySenderFirst(Selected(pending));
    BlocksFromPool(check, l, p, policy, height, Selected(pending), miner);
    assert q[0].nonce < t.nonce && BySender(Selected(pending), s)[0] == t;
    assert !(BySender(Selected(pending), s) <= q);
  }

  lemma PooledFits(p: Pool, t: Tx)
    requires Agrees(p) && p.Holds(t)
    ensures EstimatedSize(t) <= MAX_BLOCK_BYTES
  {
    hide SameIds, IndexInverse, WithinLimits, EstimatedSize, ValidAddress;
  }

  /**
   On a consistent pool every order in which the pool can be enumerated gives a block that is processed, if and only if
   no sender has more than one transaction pending.
   */
  lemma EveryOrderProcessed(check: SignatureCheck, l: Ledger, p: Pool, policy: Policy, height: nat, miner: string)
    requires Backed(l, 0) && l.policy == policy && !policy.OtherPolicy? && miner != ""
    requires Consistent(check, l, p, NetworkFor(policy).value)
    ensures (forall pending :: IsEnumeration(p, pending) ==>
               ProcessBlock(check, l, policy, height, Selected(pending), miner).Ok?)
            <==> (forall s :: |Queue(p, s)| <= 1)
  {
    hide Agrees, Queue, ProcessBlock, Run, Selected, Backed, TakesQueuePrefixes;
    if forall s :: |Queue(p, s)| <= 1 {
      forall pending | IsEnumeration(p, pending)
        ensures ProcessBlock(check, l, policy, height, Selected(pending), miner).Ok?
      {
        SelectedMembers(pending);
        ShortQueuesTakePrefixes(p, Selected(pending));
        BlocksFromPool(check, l, p, policy, height, Selected(pending), miner);
      }
    } else {
      var s :| |Queue(p, s)| > 1;
      var pending := LongQueueRefusesSomeOrder(check, l, p, policy, height, miner, s);
    }
  }
}
