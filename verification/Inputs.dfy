/** Concrete inputs on which the node does less than one might expect. */
module Inputs {
  import opened Prelude
  import opened Params
  import opened Transactions
  import opened Emission
  import opened Ledgers
  import opened Conservation
  import opened Effects
  import opened Pools
  import opened Admission
  import opened PoolBlocks
  import opened BlockOrders
  import opened Blocks
  import opened Commitments

  /** A payment under the identifier that belongs to it. */
  function Pay(sha: Sha, from: string, to: string, nonce: u64, amount: u64, key: string, signature: string): Tx {
    var tx := Tx("", from, to, amount, amount / 1000, nonce, key, signature);
    tx.(id := IdOf(sha, tx))
  }

  /** The part of VerifyForNetwork that is not elliptic-curve arithmetic. */
  function Recomputing(sha: Sha): SignatureCheck {
    (tx: Tx, network: Network) => tx.publicKey != "" && tx.signature != "" && tx.id == IdOf(sha, tx)
  }

  /** The inputs below are inputs for a check that recomputes identifiers. */
  lemma RecomputingAccepts(sha: Sha, from: string, to: string, nonce: u64, amount: u64, key: string, signature: string)
    requires key != "" && signature != ""
    ensures ChecksIds(sha, Recomputing(sha))
    ensures Recomputing(sha)(Pay(sha, from, to, nonce, amount, key, signature), PublicTestnet)
  {
    hide Hex;
  }

  /** The testnet ledger after an account has mined the first block. */
  function Funded(miner: string): Ledger {
    Ledger(map[miner := 5_000_000_000], map[], {}, TREASURY, 5_000_000_000, TestnetPolicy)
  }

  lemma FundedIsReached(check: SignatureCheck, miner: string)
    requires miner != ""
    ensures ProcessBlock(check, EmptyLedger(TestnetPolicy), TestnetPolicy, 1, [], miner)
            == Ok((Funded(miner), 5_000_000_000))
    ensures Backed(Funded(miner), 0)
  {
    var l := EmptyLedger(TestnetPolicy);
    assert TestnetSubsidy(1) == 5_000_000_000;
    assert RunCollecting(check, l, [], PublicTestnet) == Ok((l, 0));
    hide TestnetSubsidy;
    assert Mint(l, TestnetPolicy, 5_000_000_000) == Ok(l.(issued := 5_000_000_000));
    TotalUpdate(map[], miner, 5_000_000_000);
  }

  ghost predicate Affordable(l: Ledger, tx: Tx) {
    && ProperParties(tx) && |tx.publicKey| <= MAX_TX_KEY && |tx.signature| <= MAX_TX_SIGNATURE
    && tx.id !in l.processed && tx.nonce == l.Nonce(tx.sender) + 1
    && MIN_TRANSFER <= tx.amount <= 1_000_000 && tx.fee == tx.amount / 1000 && l.Balance(tx.sender) >= 2_000_000
  }

  /** A small payment under its own identifier is accepted when its nonce is next. */
  lemma PayAccepted(sha: Sha, check: SignatureCheck, l: Ledger, tx: Tx, fees: nat)
    requires Backed(l, fees) && Affordable(l, tx) && tx.id == IdOf(sha, tx) && check(tx, PublicTestnet)
    ensures ApplyTx(check, l, tx, PublicTestnet).Ok?
  {
    AcceptedExactly(check, l, tx, PublicTestnet, fees);
    FeeIsPositiveFromDustMinimum(tx.amount);
    hide ApplyTx, CalculateFee, ValidAddress;
    assert |tx.sender| == 40 && |tx.receiver| == 40 by { AddressLength(tx.sender); AddressLength(tx.receiver); }
    assert |tx.id| == 64;
  }

  lemma AddressLength(a: string)
    requires ValidAddress(a)
    ensures |a| == 40
  {
  }

  /** An account that can pay: valid parties, a key and signatures within their limits. */
  ghost predicate CanSign(from: string, to: string, key: string, s: string, s': string) {
    && ValidAddress(from) && ValidAddress(to) && 0 < |key| <= MAX_TX_KEY
    && 0 < |s| <= MAX_TX_SIGNATURE && 0 < |s'| <= MAX_TX_SIGNATURE
  }

  /** A pooled payment of 1,000 units stays behind when a block confirms another one of 2,000 with the same nonce, for
      every check that accepts the two. */
  lemma StrandedPayment(sha: Sha, check: SignatureCheck, from: string, to: string, key: string, s: string, s': string)
    requires CanSign(from, to, key, s, s')
    requires var t, u := Pay(sha, from, to, 1, 1000, key, s), Pay(sha, from, to, 1, 2000, key, s');
             t.id != u.id && check(t, PublicTestnet) && check(u, PublicTestnet)
    ensures var t, u := Pay(sha, from, to, 1, 1000, key, s), Pay(sha, from, to, 1, 2000, key, s');
            var p := AdmitAll(check, Funded(from), [t], PublicTestnet);
            var r := ProcessBlock(check, Funded(from), TestnetPolicy, 2, [u], "miner");
            && Consistent(check, Funded(from), p, PublicTestnet) && p.Holds(t)
            && r.Ok? && RemoveAll(p, [u]).Holds(t)
            && !Consistent(check, r.value.0, RemoveAll(p, [u]), PublicTestnet)
  {
    hide ApplyTx, ProcessBlock, Consistent, AdmitAll, RemoveAll, Backed, ValidAddress, Hex, IdText;
    AddressLength(from);
    FundedIsReached(check, from);
    var t, u := Pay(sha, from, to, 1, 1000, key, s), Pay(sha, from, to, 1, 2000, key, s');
    PayHasItsId(sha, from, to, 1, 1000, key, s);
    PayHasItsId(sha, from, to, 1, 2000, key, s');
    PayAccepted(sha, check, Funded(from), t, 0);
    PayAccepted(sha, check, Funded(from), u, 0);
    ConflictStrandsPooled(check, Funded(from), TestnetPolicy, 2, t, u, "miner");
  }

  lemma PayHasItsId(sha: Sha, from: string, to: string, nonce: u64, amount: u64, key: string, signature: string)
    ensures var tx := Pay(sha, from, to, nonce, amount, key, signature); tx.id == IdOf(sha, tx)
  {
    hide Hex;
  }

  /** Two payments that run one after the other are both admitted, and queue in that order. */
  lemma BothAdmitted(check: SignatureCheck, l: Ledger, t: Tx, v: Tx, network: Network)
    requires t.sender == v.sender && Run(check, l, [t, v], network).Ok?
    ensures Queue(AdmitAll(check, l, [t, v], network), t.sender) == [t, v]
  {
    hide Agrees, Queue, Validate, ApplyTx, AdmitAll, Refusal, Insert;
    assert [t, v][..1] == [t] && [t][..0] == [] && [t] + [v] == [t, v];
    RunFront(check, l, [t, v], network);
    RunFront(check, l, [t], network);
    assert Run(check, l, [], network) == Ok(l);
    FirstAdmitted(check, l, t, network);
    AdmitTwo(check, l, t, v, network);
    RunIds(check, l, [t, v], network);
    RunNonces(check, l, [t, v], network, t.sender);
    BySenderAll([t, v], t.sender, t.sender);
    assert [t, v][0].id != [t, v][1].id && [t, v][1].id in Ids([t, v]);
    AcceptedIsBounded(check, l, t, network);
    AcceptedIsBounded(check, Run(check, l, [t], network).value, v, network);
    ValidateExactly(check, l, [t], v, network);
    SecondFits(t, v);
    QueueAfterAdd(Insert(EMPTY_POOL, t), v, t.sender);
  }

  lemma AdmitTwo(check: SignatureCheck, l: Ledger, t: Tx, v: Tx, network: Network)
    requires ApplyTx(check, l, t, network).Ok?
    ensures AdmitAll(check, l, [t], network) == Insert(EMPTY_POOL, t) && Agrees(Insert(EMPTY_POOL, t))
    ensures var r := Admit(check, l, Insert(EMPTY_POOL, t), v, network);
            AdmitAll(check, l, [t, v], network) == if r.Ok? then r.value else Insert(EMPTY_POOL, t)
  {
    hide Agrees, Queue, Validate, ApplyTx, Refusal, Insert, AdmitAll, WithinResourceBounds;
    FirstAdmitted(check, l, t, network);
    AdmitOne(check, l, t, network);
    assert [t, v][..1] == [t];
    AdmitLast(check, l, [t, v], network);
  }

  lemma AdmitLast(check: SignatureCheck, l: Ledger, txs: seq<Tx>, network: Network)
    requires txs != []
    ensures var before := AdmitAll(check, l, txs[..|txs| - 1], network);
            var r := Admit(check, l, before, txs[|txs| - 1], network);
            AdmitAll(check, l, txs, network) == if r.Ok? then r.value else before
  {
    hide Agrees, Admit;
  }

  /** A second transaction of another identifier and nonce meets no limit of the pool. */
  lemma SecondFits(t: Tx, v: Tx)
    requires WithinResourceBounds(t) && WithinResourceBounds(v) && t.id != v.id && t.nonce != v.nonce
    ensures Refusal(Insert(EMPTY_POOL, t), v).None?
  {
    hide ValidAddress, EstimatedSize;
    var p := Insert(EMPTY_POOL, t);
    assert p.txs == map[t.id := t] && |p.txs| == 1;
    assert p.index == map[t.sender := map[t.nonce := t.id]];
    assert |p.NoncesOf(v.sender)| <= 1;
  }

  /** With two payments of one account pending, some order of the pool gives a block that its own processing refuses, for
      every check that accepts the two. */
  lemma RefusedOrder(sha: Sha, check: SignatureCheck, from: string, to: string, key: string, s: string, s': string)
    returns (pending: seq<Tx>)
    requires CanSign(from, to, key, s, s')
    requires var t, v := Pay(sha, from, to, 1, 1000, key, s), Pay(sha, from, to, 2, 1000, key, s');
             t.id != v.id && check(t, PublicTestnet) && check(v, PublicTestnet)
    ensures var t, v := Pay(sha, from, to, 1, 1000, key, s), Pay(sha, from, to, 2, 1000, key, s');
            var p := AdmitAll(check, Funded(from), [t, v], PublicTestnet);
            && Consistent(check, Funded(from), p, PublicTestnet) && IsEnumeration(p, pending)
            && ProcessBlock(check, Funded(from), TestnetPolicy, 2, Selected(pending), "miner").Err?
  {
    hide ApplyTx, ProcessBlock, AdmitAll, Backed, Queue, Agrees, ValidAddress, Hex, IdText;
    AddressLength(from);
    FundedIsReached(check, from);
    var t, v := Pay(sha, from, to, 1, 1000, key, s), Pay(sha, from, to, 2, 1000, key, s');
    PayHasItsId(sha, from, to, 1, 1000, key, s);
    PayHasItsId(sha, from, to, 2, 1000, key, s');
    PayAccepted(sha, check, Funded(from), t, 0);
    ApplyTxConserves(check, Funded(from), t, PublicTestnet, 0);
    ApplyTxEffect(check, Funded(from), t, PublicTestnet, from);
    FeeIsPositiveFromDustMinimum(1000);
    var w := ApplyTx(check, Funded(from), t, PublicTestnet).value;
    PayAccepted(sha, check, w, v, MiningFee(1000));
    assert [t, v][..1] == [t] && [t][..0] == [];
    assert Run(check, Funded(from), [t], PublicTestnet) == Ok(w);
    BothAdmitted(check, Funded(from), t, v, PublicTestnet);
    AdmissionRunsAreConsistent(check, Funded(from), [t, v], PublicTestnet);
    pending := LongQueueRefusesSomeOrder(check, Funded(from), AdmitAll(check, Funded(from), [t, v], PublicTestnet),
                                         TestnetPolicy, 2, "miner", from);
  }
}
