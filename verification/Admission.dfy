/**
 Admission to the mempool (blockchain/mempool_validator.go, p2p/transaction_submit.go):
 per-sender queues, the replay rule, and what an admitted pool guarantees about blocks.
 */
module Admission {
  import opened Prelude
  import opened Params
  import opened Transactions
  import opened Ledgers
  import opened Pools
  import opened Sorting

  // ----- one sender's pending transactions in nonce order

  ghost predicate Ascending(q: seq<Tx>) {
    forall i, j :: 0 <= i < j < |q| ==> q[i].nonce < q[j].nonce
  }

  ghost predicate NoncesDiffer(ts: set<Tx>) {
    forall t, u :: t in ts && u in ts && t.nonce == u.nonce ==> t == u
  }

  /** `q` lists exactly the pooled transactions of the sender, by strictly ascending nonce. */
  ghost predicate IsQueue(p: Pool, sender: string, q: seq<Tx>) {
    && Ascending(q)
    && forall t :: t in q <==> p.Holds(t) && t.sender == sender
  }

  ghost predicate SameMembers(a: seq<Tx>, b: seq<Tx>) {
    forall t :: t in a <==> t in b
  }

  /** The last of an ascending list has the greatest nonce and occurs once. */
  lemma LastIsGreatest(q: seq<Tx>, t: Tx)
    requires Ascending(q) && q != []
    ensures t in q ==> t.nonce <= q[|q| - 1].nonce
    ensures t in q[..|q| - 1] <==> t in q && t != q[|q| - 1]
  {
    assert q == q[..|q| - 1] + [q[|q| - 1]];
  }

  lemma {:induction false} AscendingUnique(a: seq<Tx>, b: seq<Tx>)
    requires Ascending(a) && Ascending(b) && SameMembers(a, b)
    ensures a == b
    decreases |a|
  {
    assert b != [] ==> b[0] in a;
    if a != [] {
      assert a[0] in b;
      var x, y := a[|a| - 1], b[|b| - 1];
      assert x in b && y in a;
      LastIsGreatest(a, y);
      LastIsGreatest(b, x);
      SameNonceSame(a, x, y);
      var fa, fb := a[..|a| - 1], b[..|b| - 1];
      forall t ensures t in fa <==> t in fb {
        LastIsGreatest(a, t);
        LastIsGreatest(b, t);
      }
      AscendingUnique(fa, fb);
    }
  }

  lemma SameNonceSame(q: seq<Tx>, x: Tx, y: Tx)
    requires Ascending(q) && x in q && y in q && x.nonce == y.nonce
    ensures x == y
  {
  }

  lemma {:induction false} GreatestNonce(ts: set<Tx>) returns (t: Tx)
    requires ts != {}
    ensures t in ts && forall u :: u in ts ==> u.nonce <= t.nonce
  {
    t :| t in ts;
    if ts != {t} {
      var r := GreatestNonce(ts - {t});
      if r.nonce > t.nonce {
        t := r;
      }
    }
  }

  ghost function InNonceOrder(ts: set<Tx>): (q: seq<Tx>)
    requires NoncesDiffer(ts)
    ensures Ascending(q) && forall t :: t in q <==> t in ts
  {
    if ts == {} then []
    else
      assert exists t :: t in ts && forall u :: u in ts ==> u.nonce <= t.nonce by {
        var g := GreatestNonce(ts);
      }
      var t :| t in ts && forall u :: u in ts ==> u.nonce <= t.nonce;
      InNonceOrder(ts - {t}) + [t]
  }

  ghost function Members(p: Pool, sender: string): set<Tx> {
    set id | id in p.txs && p.txs[id].sender == sender :: p.txs[id]
  }

  lemma PoolNoncesDiffer(p: Pool, sender: string)
    requires Agrees(p)
    ensures NoncesDiffer(Members(p, sender))
  {
    forall t, u | t in Members(p, sender) && u in Members(p, sender) && t.nonce == u.nonce
      ensures t == u
    {
      assert Names(p.index, sender, t.nonce, t.id) && Names(p.index, sender, u.nonce, u.id);
    }
  }

  /** The pending chain that TransactionsForSender returns. */
  ghost function Queue(p: Pool, sender: string): seq<Tx>
    requires Agrees(p)
  {
    PoolNoncesDiffer(p, sender);
    InNonceOrder(Members(p, sender))
  }

  lemma QueueIs(p: Pool, sender: string)
    requires Agrees(p)
    ensures IsQueue(p, sender, Queue(p, sender))
  {
    PoolNoncesDiffer(p, sender);
    forall t ensures t in Members(p, sender) <==> p.Holds(t) && t.sender == sender {
      if p.Holds(t) && t.sender == sender {
        assert p.txs[t.id] in Members(p, sender);
      }
    }
  }

  lemma QueueUnique(p: Pool, sender: string, q: seq<Tx>)
    requires Agrees(p) && IsQueue(p, sender, q)
    ensures q == Queue(p, sender)
  {
    QueueIs(p, sender);
    AscendingUnique(q, Queue(p, sender));
  }

  lemma {:induction false} NonceSetSize(q: seq<Tx>)
    requires Ascending(q)
    ensures |set i | 0 <= i < |q| :: q[i].nonce| == |q|
  {
    if q != [] {
      var front, last := q[..|q| - 1], q[|q| - 1];
      NonceSetSize(front);
      var earlier := set i | 0 <= i < |front| :: front[i].nonce;
      var all := set i | 0 <= i < |q| :: q[i].nonce;
      assert all == earlier + {last.nonce} && last.nonce !in earlier;
    }
  }

  /** A sender has as many indexed nonces as pending transactions, and they are theirs. */
  lemma QueueLength(p: Pool, sender: string)
    requires Agrees(p)
    ensures |Queue(p, sender)| == |p.NoncesOf(sender)|
  {
    hide Queue, Agrees;
    QueueIs(p, sender);
    var q := Queue(p, sender);
    NonceSetSize(q);
    var all := set i | 0 <= i < |q| :: q[i].nonce;
    forall n: u64 ensures n in p.NoncesOf(sender) <==> n in all {
      IndexedIsPending(p, sender, n);
      assert (exists t :: t in q && t.nonce == n) <==> n in all;
    }
    assert p.NoncesOf(sender).Keys == all;
  }

  lemma IndexedIsPending(p: Pool, sender: string, n: u64)
    requires Agrees(p)
    ensures n in p.NoncesOf(sender) <==> exists t :: t in Queue(p, sender) && t.nonce == n
  {
    hide Queue;
    QueueIs(p, sender);
    if n in p.NoncesOf(sender) {
      var id := p.index[sender][n];
      assert Names(p.index, sender, n, id);
      var t := p.txs[id];
      assert p.Holds(t) && t in Queue(p, sender) && t.nonce == n;
    }
    if t :| t in Queue(p, sender) && t.nonce == n {
      assert p.Holds(t);
      assert Names(p.index, sender, n, t.id);
    }
  }

  /** The pool takes a transaction exactly when it is within bounds and new, its sender has no other one pending with its
      nonce, and afterwards there are at most 4,096 transactions and 64 of the sender. The byte limit never decides. */
  lemma AddedExactly(p: Pool, tx: Tx)
    requires Agrees(p)
    ensures Add(p, tx).Ok? <==>
            && WithinResourceBounds(tx) && tx.id !in p.txs
            && (forall t :: t in Queue(p, tx.sender) ==> t.nonce != tx.nonce)
            && |p.txs| + 1 <= 4096 && |Queue(p, tx.sender)| + 1 <= 64
  {
    hide Agrees, Queue, WithinResourceBounds, EstimatedSize;
    if WithinResourceBounds(tx) {
      BoundedSize(tx);
    }
    PoolIsSmall(p);
    QueueLength(p, tx.sender);
    IndexedIsPending(p, tx.sender, tx.nonce);
    assert WithinResourceBounds(tx) ==> tx.id != "" by { BoundedHasId(tx); }
  }

  /** A transaction within bounds counts 104 bytes and those of its identifier, key and signature: at most 297. */
  lemma BoundedSize(tx: Tx)
    requires WithinResourceBounds(tx)
    ensures EstimatedSize(tx) == |tx.id| + |tx.publicKey| + |tx.signature| + 104 <= 297
  {
  }

  lemma {:induction false} TotalAtMost(m: map<string, nat>)
    requires forall k :: k in m ==> m[k] <= 297
    ensures Total(m) <= 297 * |m|
    decreases |m|
  {
    hide Total;
    if m == map[] {
      TotalOfNone();
    } else {
      var k :| k in m;
      SizeWithout(m, k);
      TotalRemove(m, k);
      TotalAtMost(m - {k});
    }
  }

  lemma TotalOfNone()
    ensures Total(map[]) == 0
  {
  }

  lemma SizeWithout(m: map<string, nat>, k: string)
    requires k in m
    ensures |m - {k}| == |m| - 1
  {
    assert (m - {k}).Keys == m.Keys - {k};
  }

  /** A pool is always far from its byte limit: 297 bytes for each of at most 4,096 transactions. */
  lemma PoolIsSmall(p: Pool)
    requires Agrees(p)
    ensures p.bytes <= 297 * |p.txs| <= 1_216_512
  {
    hide WithinResourceBounds, EstimatedSize, IndexInverse;
    forall id | id in p.meta ensures p.meta[id].size <= 297 {
      BoundedSize(p.txs[id]);
    }
    TotalAtMost(Sizes(p.meta));
    assert Sizes(p.meta).Keys == p.meta.Keys == p.txs.Keys;
    assert |Sizes(p.meta)| == |p.txs|;
  }

  lemma BoundedHasId(tx: Tx)
    ensures WithinResourceBounds(tx) ==> tx.id != ""
  {
  }

  lemma AddHolds(p: Pool, tx: Tx, t: Tx)
    requires Add(p, tx).Ok?
    ensures Add(p, tx).value.Holds(t) <==> t == tx || p.Holds(t)
  {
    hide WithinResourceBounds, EstimatedSize, Index;
  }

  /** Adding a transaction with a higher nonce appends it to its sender's queue and leaves the others alone. */
  lemma QueueAfterAdd(p: Pool, tx: Tx, sender: string)
    requires Agrees(p) && Add(p, tx).Ok?
    requires forall t :: t in Queue(p, tx.sender) ==> t.nonce < tx.nonce
    ensures Agrees(Add(p, tx).value)
    ensures Queue(Add(p, tx).value, sender)
            == if sender == tx.sender then Queue(p, sender) + [tx] else Queue(p, sender)
  {
    hide Agrees, Add, Queue;
    AddAgrees(p, tx);
    QueueIs(p, sender);
    var expected := if sender == tx.sender then Queue(p, sender) + [tx] else Queue(p, sender);
    forall t ensures t in expected <==> Add(p, tx).value.Holds(t) && t.sender == sender {
      AddHolds(p, tx, t);
    }
    QueueUnique(Add(p, tx).value, sender, expected);
  }

  // ----- the replay rule

  datatype AdmissionError =
    | MissingId
    | OutsideBounds
    | AlreadyPending
    | SenderFull
    | AlreadyConfirmed
    | PoolRefuses(pool: PoolError)
    | ReplayFailed(ledger: LedgerError)

  function NonceLeq(x: Tx, y: Tx): bool {
    x.nonce < y.nonce || (x.nonce == y.nonce && LexLeq(x.id, y.id))
  }

  /** The candidate's own sender's transactions among the pending ones. */
  function SenderPending(pending: seq<Tx>, candidate: Tx): Result<seq<Tx>, AdmissionError> {
    if pending == [] then Ok([])
    else
      var tx := pending[|pending| - 1];
      var own :- SenderPending(pending[..|pending| - 1], candidate);
      if tx.id == candidate.id then Err(AlreadyPending)
      else if tx.sender != candidate.sender then Ok(own)
      else if |own| + 1 >= MAX_POOL_PER_SENDER then Err(SenderFull)
      else Ok(own + [tx])
  }

  /** ValidateMempoolTransactionFor: replay the sender's pending transactions, then the candidate. */
  function Validate(check: SignatureCheck, l: Ledger, pending: seq<Tx>, candidate: Tx, network: Network)
    : Result<Ledger, AdmissionError>
  {
    if candidate.id == "" then Err(MissingId)
    else if !WithinResourceBounds(candidate) then Err(OutsideBounds)
    else
      var own :- SenderPending(pending, candidate);
      match Run(check, l, Sort(own, NonceLeq), network)
      case Err(e) => Err(ReplayFailed(e))
      case Ok(w) =>
        match ApplyTx(check, w, candidate, network)
        case Err(e) => Err(ReplayFailed(e))
        case Ok(w') => Ok(w')
  }

  lemma {:induction false} SenderPendingOfOwn(q: seq<Tx>, candidate: Tx)
    requires forall t :: t in q ==> t.sender == candidate.sender
    ensures SenderPending(q, candidate).Ok? <==>
            |q| < MAX_POOL_PER_SENDER && forall i :: 0 <= i < |q| ==> q[i].id != candidate.id
    ensures SenderPending(q, candidate).Ok? ==> SenderPending(q, candidate).value == q
  {
    if q != [] {
      var front, last := q[..|q| - 1], q[|q| - 1];
      assert q == front + [last];
      assert last in q && forall t :: t in front ==> t in q;
      SenderPendingOfOwn(front, candidate);
      assert (forall i :: 0 <= i < |q| ==> q[i].id != candidate.id) <==>
             (forall i :: 0 <= i < |front| ==> front[i].id != candidate.id) && last.id != candidate.id;
    }
  }

  lemma NonceLeqSorted(q: seq<Tx>)
    requires Ascending(q)
    ensures Sort(q, NonceLeq) == q
  {
    SortFixesSorted(q, NonceLeq);
  }

  /** On a queue, validation accepts exactly what replays at the end of the queue, up to 63 pending. */
  lemma ValidateExactly(check: SignatureCheck, l: Ledger, q: seq<Tx>, candidate: Tx, network: Network)
    requires Ascending(q) && forall t :: t in q ==> t.sender == candidate.sender
    ensures Validate(check, l, q, candidate, network).Ok? <==>
            && candidate.id != "" && WithinResourceBounds(candidate)
            && |q| < MAX_POOL_PER_SENDER && (forall i :: 0 <= i < |q| ==> q[i].id != candidate.id)
            && Run(check, l, q + [candidate], network).Ok?
  {
    hide ApplyTx, WithinResourceBounds, SenderPending, Sort;
    SenderPendingOfOwn(q, candidate);
    NonceLeqSorted(q);
    assert (q + [candidate])[..|q|] == q;
    assert Run(check, l, q + [candidate], network).Ok? <==>
           Run(check, l, q, network).Ok? && ApplyTx(check, Run(check, l, q, network).value, candidate, network).Ok?;
  }
}
