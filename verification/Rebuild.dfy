/** The pool rebuilt after a reorganization (p2p/reorg_mempool.go): one sorted pass recovers all it can. */
module Rebuild {
  import opened Prelude
  import opened Params
  import opened Transactions
  import opened Ledgers
  import opened Effects
  import opened Pools
  import opened Admission
  import opened PoolBlocks
  import opened Sorting

  /** The order in which candidates are reconsidered: by sender, then nonce, then identifier. */
  function CandidateLeq(x: Tx, y: Tx): bool {
    if x.sender != y.sender then LexLeq(x.sender, y.sender)
    else NonceLeq(x, y)
  }

  /** Within each sender nonces never fall along the list. */
  ghost predicate NoncesRisePerSender(txs: seq<Tx>) {
    forall i, j :: 0 <= i < j < |txs| && txs[i].sender == txs[j].sender ==> txs[i].nonce <= txs[j].nonce
  }

  lemma CandidateOrderIsTotal()
    ensures TotalPreorder(CandidateLeq)
  {
    forall x, y ensures CandidateLeq(x, y) || CandidateLeq(y, x) {
      LexTotal(x.sender, y.sender);
      LexTotal(x.id, y.id);
    }
    forall x, y, z | CandidateLeq(x, y) && CandidateLeq(y, z) ensures CandidateLeq(x, z) {
      LexTotal(x.sender, y.sender);
      LexTotal(y.sender, z.sender);
      if LexLeq(x.sender, y.sender) && LexLeq(y.sender, z.sender) {
        LexTransitive(x.sender, y.sender, z.sender);
      }
      if LexLeq(x.id, y.id) && LexLeq(y.id, z.id) {
        LexTransitive(x.id, y.id, z.id);
      }
    }
  }

  lemma SortedCandidatesRise(txs: seq<Tx>)
    ensures NoncesRisePerSender(Sort(txs, CandidateLeq))
  {
    CandidateOrderIsTotal();
    SortSorts(txs, CandidateLeq);
  }

  // ----- the order of candidates is determined

  lemma OrderIsAntisymmetric(x: Tx, y: Tx)
    requires CandidateLeq(x, y) && CandidateLeq(y, x)
    ensures x.sender == y.sender && x.nonce == y.nonce && x.id == y.id
  {
    if x.sender != y.sender {
      LexAntisymmetric(x.sender, y.sender);
    } else if x.nonce == y.nonce {
      LexAntisymmetric(x.id, y.id);
    }
  }

  /** Candidates in the order of reconsideration, no identifier twice. */
  ghost predicate InOrder(txs: seq<Tx>) {
    Sorted(txs, CandidateLeq) && DistinctIds(txs)
  }

  /** That order written out: senders by bytes, then nonces, then identifiers by bytes. */
  lemma OrderExactly(txs: seq<Tx>, i: nat, j: nat)
    requires InOrder(txs) && i < j < |txs|
    ensures var x, y := txs[i], txs[j];
            && LexLeq(x.sender, y.sender)
            && (x.sender == y.sender ==> x.nonce <= y.nonce)
            && (x.sender == y.sender && x.nonce == y.nonce ==> LexLeq(x.id, y.id) && x.id != y.id)
  {
    assert CandidateLeq(txs[i], txs[j]);
    LexReflexive(txs[i].sender);
  }

  lemma {:induction false} LexReflexive(a: string)
    ensures LexLeq(a, a)
  {
    if a != [] {
      LexReflexive(a[1..]);
    }
  }

  /** However the candidates were enumerated, there is one such order of them, and so one rebuilt pool. */
  lemma {:induction false} OrderIsDetermined(a: seq<Tx>, b: seq<Tx>)
    requires InOrder(a) && InOrder(b) && SameMembers(a, b)
    ensures a == b
    decreases |a|
  {
    hide CandidateLeq;
    assert b != [] ==> b[0] in a;
    if a != [] {
      assert a[0] in b;
      var i :| 0 <= i < |b| && b[i] == a[0];
      var j :| 0 <= j < |a| && a[j] == b[0];
      if i > 0 && j > 0 {
        assert CandidateLeq(b[0], b[i]) && CandidateLeq(a[0], a[j]);
        OrderIsAntisymmetric(a[0], b[0]);
      }
      var ra, rb := a[1..], b[1..];
      forall t ensures t in ra <==> t in rb {
        FirstOccursOnce(a, t);
        FirstOccursOnce(b, t);
      }
      OrderIsDetermined(ra, rb);
      assert a == [a[0]] + ra && b == [b[0]] + rb;
    }
  }

  lemma FirstOccursOnce(q: seq<Tx>, t: Tx)
    requires DistinctIds(q) && q != []
    ensures t in q[1..] <==> t in q && t != q[0]
  {
    assert q == [q[0]] + q[1..];
  }

  lemma {:induction false} InsertKeepsIds(x: Tx, s: seq<Tx>)
    requires DistinctIds(s) && forall t :: t in s ==> t.id != x.id
    ensures DistinctIds(InsertInOrder(x, s, CandidateLeq))
  {
    hide CandidateLeq;
    if s != [] && !CandidateLeq(x, s[0]) {
      InsertKeepsIds(x, s[1..]);
      var rest := InsertInOrder(x, s[1..], CandidateLeq);
      forall k | 0 <= k < |rest| ensures rest[k].id != s[0].id {
        InsertMember(x, s[1..], CandidateLeq, rest[k]);
      }
    }
  }

  lemma {:induction false} SortKeepsIds(txs: seq<Tx>)
    requires DistinctIds(txs)
    ensures DistinctIds(Sort(txs, CandidateLeq))
  {
    hide CandidateLeq;
    if txs != [] {
      SortKeepsIds(txs[1..]);
      forall t | t in Sort(txs[1..], CandidateLeq) ensures t.id != txs[0].id {
        SortMember(txs[1..], CandidateLeq, t);
      }
      InsertKeepsIds(txs[0], Sort(txs[1..], CandidateLeq));
    }
  }

  lemma SortedIsInOrder(txs: seq<Tx>)
    requires DistinctIds(txs)
    ensures InOrder(Sort(txs, CandidateLeq))
  {
    CandidateOrderIsTotal();
    SortSorts(txs, CandidateLeq);
    SortKeepsIds(txs);
  }

  lemma InsertedNonces(p: Pool, u: Tx, sender: string)
    ensures Insert(p, u).NoncesOf(sender)
            == if sender == u.sender then p.NoncesOf(sender)[u.nonce := u.id] else p.NoncesOf(sender)
  {
  }

  lemma InsertRefusesMore(p: Pool, u: Tx, tx: Tx)
    requires Add(p, u).Ok? && Refusal(Insert(p, u), tx).None?
    ensures Refusal(p, tx).None?
  {
    hide WithinResourceBounds, EstimatedSize;
    MapGrowsByOne(p.txs, u.id, u);
    MapGrowsByOne(p.NoncesOf(u.sender), u.nonce, u.id);
    InsertedNonces(p, u, tx.sender);
    hide Index;
  }

  /** What is refused stays refused while transactions with no lower nonce from the same sender are admitted. */
  lemma RefusalPersists(check: SignatureCheck, l: Ledger, p: Pool, tx: Tx, u: Tx, network: Network)
    requires Consistent(check, l, p, network)
    requires Admit(check, l, p, u, network).Ok?
    requires u.sender == tx.sender ==> tx.nonce <= u.nonce
    requires Admit(check, l, p, tx, network).Err?
    ensures Agrees(Insert(p, u)) && Admit(check, l, Insert(p, u), tx, network).Err?
  {
    hide Agrees, Queue, Validate, Run;
    AdmitKeepsConsistent(check, l, p, u, network);
    if Refusal(Insert(p, u), tx).None? {
      InsertRefusesMore(p, u, tx);
      QueueOf(check, l, p, u, network, tx.sender);
      if u.sender == tx.sender {
        NoTwoInOrder(check, l, Queue(p, tx.sender), u, tx, network);
      }
    }
  }

  lemma QueueOf(check: SignatureCheck, l: Ledger, p: Pool, u: Tx, network: Network, sender: string)
    requires Consistent(check, l, p, network) && Admit(check, l, p, u, network).Ok?
    ensures Agrees(Insert(p, u))
    ensures Queue(Insert(p, u), sender) == if sender == u.sender then Queue(p, sender) + [u] else Queue(p, sender)
    ensures IsQueue(p, sender, Queue(p, sender)) && IsQueue(Insert(p, u), sender, Queue(Insert(p, u), sender))
  {
    hide Agrees, Queue, Validate, ApplyTx;
    AdmitKeepsConsistent(check, l, p, u, network);
    QueueIs(p, u.sender);
    QueueIs(p, sender);
    QueueIs(Insert(p, u), sender);
    var q := Queue(p, u.sender);
    ValidateExactly(check, l, q, u, network);
    BySenderAll(q + [u], u.sender, u.sender);
    RunNonces(check, l, q + [u], network, u.sender);
    forall t | t in q ensures t.nonce < u.nonce {
      var i :| 0 <= i < |q| && q[i] == t;
      assert (q + [u])[i] == t && (q + [u])[|q|] == u;
    }
    QueueAfterAdd(p, u, sender);
  }

  /** After `u` a queue cannot be continued by a transaction whose nonce is not higher. */
  lemma NoTwoInOrder(check: SignatureCheck, l: Ledger, q: seq<Tx>, u: Tx, tx: Tx, network: Network)
    requires Ascending(q + [u]) && forall t :: t in q + [u] ==> t.sender == tx.sender
    requires u.sender == tx.sender && tx.nonce <= u.nonce
    ensures Validate(check, l, q + [u], tx, network).Err?
  {
    hide ApplyTx, Validate;
    var all := q + [u];
    ValidateExactly(check, l, all, tx, network);
    BySenderAll(all + [tx], tx.sender, tx.sender);
    assert (all + [tx])[|q|] == u && (all + [tx])[|q| + 1] == tx;
    if Run(check, l, all + [tx], network).Ok? {
      RunNonces(check, l, all + [tx], network, tx.sender);
    }
  }

  lemma {:induction false} AdmittedStays(check: SignatureCheck, l: Ledger, txs: seq<Tx>, network: Network, k: nat, tx: Tx)
    requires k <= |txs| && AdmitAll(check, l, txs[..k], network).Holds(tx)
    ensures AdmitAll(check, l, txs, network).Holds(tx)
    decreases |txs|
  {
    hide Agrees, Queue, Validate;
    if k == |txs| {
      assert txs[..k] == txs;
    } else {
      assert txs[..|txs| - 1][..k] == txs[..k];
      AdmittedStays(check, l, txs[..|txs| - 1], network, k, tx);
    }
  }

  lemma {:induction false} RefusedStays(check: SignatureCheck, l: Ledger, txs: seq<Tx>, network: Network, k: nat, tx: Tx)
    requires k <= |txs| && Admit(check, l, AdmitAll(check, l, txs[..k], network), tx, network).Err?
    requires forall j :: k <= j < |txs| && txs[j].sender == tx.sender ==> tx.nonce <= txs[j].nonce
    ensures Admit(check, l, AdmitAll(check, l, txs, network), tx, network).Err?
    decreases |txs|
  {
    hide Agrees, Admit;
    if k == |txs| {
      assert txs[..k] == txs;
    } else {
      var front, u := txs[..|txs| - 1], txs[|txs| - 1];
      assert front[..k] == txs[..k];
      RefusedStays(check, l, front, network, k, tx);
      AdmissionRunsAreConsistent(check, l, front, network);
      var before := AdmitAll(check, l, front, network);
      if Admit(check, l, before, u, network).Ok? {
        AdmitKeepsConsistent(check, l, before, u, network);
        RefusalPersists(check, l, before, tx, u, network);
      }
    }
  }

  /**
   One pass over the sorted candidates is complete: every candidate is in the rebuilt pool or would still be
   refused by it. This is what the sort by nonce is for.
   */
  lemma RebuildIsMaximal(check: SignatureCheck, l: Ledger, txs: seq<Tx>, network: Network, tx: Tx)
    requires NoncesRisePerSender(txs) && tx in txs
    ensures var p := AdmitAll(check, l, txs, network);
            p.Holds(tx) || Admit(check, l, p, tx, network).Err?
  {
    hide Agrees, Queue, Validate;
    var k :| 0 <= k < |txs| && txs[k] == tx;
    var before := AdmitAll(check, l, txs[..k], network);
    assert txs[..k + 1][..k] == txs[..k] && txs[..k + 1][k] == tx;
    if Admit(check, l, before, tx, network).Ok? {
      AdmittedStays(check, l, txs, network, k + 1, tx);
    } else {
      RefusedStays(check, l, txs, network, k, tx);
    }
  }
}
