/** What a run of transactions does to each account: balances, nonces and processed identifiers. */
module Effects {
  import opened Prelude
  import opened Params
  import opened Transactions
  import opened Ledgers
  import opened Conservation

  /** The change one transaction makes to one account. */
  function Delta(tx: Tx, account: string, treasury: string): int {
    (if account == tx.receiver then tx.amount else 0)
    + (if account == treasury then DevelopmentFee(tx.amount) else 0)
    - (if account == tx.sender then tx.amount + tx.fee else 0)
  }

  function Net(txs: seq<Tx>, account: string, treasury: string): int {
    if txs == [] then 0
    else Net(txs[..|txs| - 1], account, treasury) + Delta(txs[|txs| - 1], account, treasury)
  }

  /** The part of acceptance that depends on the transaction and the network alone. */
  predicate WellSigned(check: SignatureCheck, tx: Tx, network: Network) {
    && WithinResourceBounds(tx)
    && check(tx, network)
    && tx.fee == CalculateFee(tx.amount)
    && tx.amount + tx.fee <= MAX_U64
  }

  /** The part that depends on the ledger: a fresh identifier, the next nonce and enough funds. */
  predicate Payable(l: Ledger, tx: Tx) {
    && tx.id !in l.processed
    && l.Nonce(tx.sender) + 1 == tx.nonce
    && l.Balance(tx.sender) >= tx.amount + tx.fee
  }

  /** A backed ledger accepts a transaction exactly when it is well signed and payable. */
  lemma AcceptedExactly(check: SignatureCheck, l: Ledger, tx: Tx, network: Network, fees: nat)
    requires Backed(l, fees)
    ensures ApplyTx(check, l, tx, network).Ok? <==> WellSigned(check, tx, network) && Payable(l, tx)
  {
    ApplyTxConserves(check, l, tx, network, fees);
    FeeIsPositiveFromDustMinimum(tx.amount);
    hide ApplyTx, CalculateFee, DevelopmentFee, MiningFee;
  }

  /** A 40-digit address in lower-case hexadecimal. */
  predicate Address(a: string) {
    |a| == 40 && forall i :: 0 <= i < |a| ==> a[i] in "0123456789abcdef"
  }

  /** The limits on the fields of a transaction, written out. */
  predicate Limits(tx: Tx) {
    && 1 <= |tx.id| <= 64 && Address(tx.sender) && Address(tx.receiver)
    && |tx.publicKey| <= 65 && |tx.signature| <= 64
    && |tx.id| + |tx.publicKey| + |tx.signature| + 104 <= 1024
    && tx.amount >= 1000
  }

  lemma LimitsExactly(tx: Tx)
    ensures WithinResourceBounds(tx) <==> Limits(tx)
  {
    AddressExactly(tx.sender);
    AddressExactly(tx.receiver);
    hide ValidAddress;
    assert ValidAddress(tx.sender) ==> |tx.sender| == 40;
    assert ValidAddress(tx.receiver) ==> |tx.receiver| == 40;
  }

  lemma AddressExactly(a: string)
    ensures ValidAddress(a) <==> Address(a)
  {
    forall i | 0 <= i < |a| ensures ('0' <= a[i] <= '9' || 'a' <= a[i] <= 'f') <==> a[i] in "0123456789abcdef" {
      HexCharacter(a[i]);
    }
  }

  lemma HexCharacter(c: char)
    ensures ('0' <= c <= '9' || 'a' <= c <= 'f') <==> c in "0123456789abcdef"
  {
    var digits := "0123456789abcdef";
    if '0' <= c <= '9' {
      assert digits[c as int - '0' as int] == c;
    } else if 'a' <= c <= 'f' {
      assert digits[c as int - 'a' as int + 10] == c;
    }
  }

  /** Acceptance written out field by field. */
  lemma AcceptedByFields(check: SignatureCheck, l: Ledger, tx: Tx, network: Network, fees: nat)
    requires Backed(l, fees)
    ensures ApplyTx(check, l, tx, network).Ok? <==>
            && Limits(tx) && check(tx, network)
            && tx.fee == tx.amount / 1000 && tx.amount + tx.fee <= MAX_U64
            && tx.id !in l.processed && tx.nonce == l.Nonce(tx.sender) + 1
            && l.Balance(tx.sender) >= tx.amount + tx.fee
  {
    AcceptedExactly(check, l, tx, network, fees);
    FeeIsPositiveFromDustMinimum(tx.amount);
    LimitsExactly(tx);
    hide ApplyTx, CalculateFee, WithinResourceBounds, Limits;
  }

  /** No transaction is free: an applied one keeps the limits and pays at least one unit, and that to the miner. */
  lemma AppliedPays(check: SignatureCheck, l: Ledger, tx: Tx, network: Network)
    requires ApplyTx(check, l, tx, network).Ok?
    ensures Limits(tx) && tx.fee >= 1 && MiningFee(tx.amount) >= 1 && check(tx, network)
  {
    FeeIsPositiveFromDustMinimum(tx.amount);
    LimitsExactly(tx);
    hide CalculateFee, DevelopmentFee, MiningFee, WithinResourceBounds, Limits, Credit, Debit;
    assert Fault(check, l, tx, network).None?;
    assert Limits(tx) ==> tx.amount >= 1000 by { LimitedAmount(tx); }
  }

  lemma LimitedAmount(tx: Tx)
    ensures Limits(tx) ==> tx.amount >= 1000
  {
  }

  /** A run of n transactions pays its miner at least n units. */
  lemma {:induction false} RunPays(check: SignatureCheck, l: Ledger, txs: seq<Tx>, network: Network)
    requires Run(check, l, txs, network).Ok?
    ensures MinerFees(txs) >= |txs| && forall i :: 0 <= i < |txs| ==> Limits(txs[i])
  {
    hide ApplyTx, MiningFee, Limits;
    if txs != [] {
      var front, tx := txs[..|txs| - 1], txs[|txs| - 1];
      RunFront(check, l, txs, network);
      RunPays(check, l, front, network);
      AppliedPays(check, Run(check, l, front, network).value, tx, network);
    }
  }

  // ----- which check fails first

  /** What each check of a transaction demands. */
  ghost predicate Meets(e: LedgerError, check: SignatureCheck, l: Ledger, tx: Tx, network: Network) {
    match e
    case EmptyTransactionId => tx.id != ""
    case AlreadyProcessed => tx.id !in l.processed
    case EmptySender => tx.sender != ""
    case EmptyReceiver => tx.receiver != ""
    case ZeroAmount => tx.amount > 0
    case OutsideResourceBounds => Limits(tx)
    case InvalidSignature => check(tx, network)
    case NonceOverflow => l.Nonce(tx.sender) < MAX_U64
    case InvalidNonce => tx.nonce == l.Nonce(tx.sender) + 1
    case InvalidFee => tx.fee == tx.amount / 1000
    case AmountOverflow => tx.amount + tx.fee <= MAX_U64
    case InsufficientBalance => l.Balance(tx.sender) >= tx.amount + tx.fee
    case NoTreasury => l.treasury != ""
    case _ => true
  }

  /** The order in which the checks are made. */
  function Rank(e: LedgerError): nat {
    match e
    case EmptyTransactionId => 0
    case AlreadyProcessed => 1
    case EmptySender => 2
    case EmptyReceiver => 3
    case ZeroAmount => 4
    case OutsideResourceBounds => 5
    case InvalidSignature => 6
    case NonceOverflow => 7
    case InvalidNonce => 8
    case InvalidFee => 9
    case AmountOverflow => 10
    case InsufficientBalance => 11
    case NoTreasury => 12
    case _ => 13
  }

  lemma RankIdentifies(e: LedgerError, f: LedgerError)
    ensures Rank(e) == Rank(f) < 13 ==> e == f
  {
  }

  lemma FaultAgainst(check: SignatureCheck, l: Ledger, tx: Tx, network: Network, f: LedgerError)
    ensures var fault := Fault(check, l, tx, network);
            && (fault.None? ==> Meets(f, check, l, tx, network))
            && (fault.Some? ==> !Meets(fault.value, check, l, tx, network))
            && (fault.Some? && Rank(f) < Rank(fault.value) ==> Meets(f, check, l, tx, network))
  {
    FeeIsPositiveFromDustMinimum(tx.amount);
    LimitsExactly(tx);
    hide CalculateFee, DevelopmentFee, MiningFee, WithinResourceBounds, Limits;
  }

  lemma UnrankedIsMet(check: SignatureCheck, l: Ledger, tx: Tx, network: Network, f: LedgerError)
    ensures Rank(f) >= 13 ==> Meets(f, check, l, tx, network)
  {
  }

  /** A transaction is refused with the first check it fails, and with no other. */
  lemma FirstFault(check: SignatureCheck, l: Ledger, tx: Tx, network: Network, e: LedgerError)
    ensures Fault(check, l, tx, network) == Some(e) <==>
            && !Meets(e, check, l, tx, network)
            && forall f: LedgerError :: Rank(f) < Rank(e) ==> Meets(f, check, l, tx, network)
  {
    hide Fault, Meets, Rank;
    forall f ensures var fault := Fault(check, l, tx, network);
                     fault.Some? && Rank(f) < Rank(fault.value) ==> Meets(f, check, l, tx, network) {
      FaultAgainst(check, l, tx, network, f);
    }
    FaultAgainst(check, l, tx, network, e);
    UnrankedIsMet(check, l, tx, network, e);
    var fault := Fault(check, l, tx, network);
    if fault.Some? {
      RankIdentifies(e, fault.value);
    }
  }

  lemma CreditEffect(l: Ledger, address: string, amount: u64, account: string)
    requires Credit(l, address, amount).Ok?
    ensures Credit(l, address, amount).value.Balance(account)
            == l.Balance(account) + (if account == address then amount else 0)
    ensures OnlyBalancesChange(l, Credit(l, address, amount).value)
  {
  }

  lemma DebitEffect(l: Ledger, address: string, amount: u64, account: string)
    requires Debit(l, address, amount).Ok?
    ensures Debit(l, address, amount).value.Balance(account)
            == l.Balance(account) - (if account == address then amount else 0)
    ensures OnlyBalancesChange(l, Debit(l, address, amount).value)
  {
  }

  /** The complete effect of one accepted transaction. */
  lemma ApplyTxEffect(check: SignatureCheck, l: Ledger, tx: Tx, network: Network, account: string)
    requires ApplyTx(check, l, tx, network).Ok?
    ensures var w := ApplyTx(check, l, tx, network).value;
            && w.Balance(account) == l.Balance(account) + Delta(tx, account, l.treasury)
            && w.nonces == l.nonces[tx.sender := tx.nonce] && tx.nonce == l.Nonce(tx.sender) + 1
            && w.processed == l.processed + {tx.id} && tx.id !in l.processed
            && w.treasury == l.treasury && w.issued == l.issued && w.policy == l.policy
  {
    hide CalculateFee, DevelopmentFee, MiningFee, WithinResourceBounds, Credit, Debit;
    var cost := tx.amount + tx.fee;
    DebitEffect(l, tx.sender, cost, account);
    var l1 := Debit(l, tx.sender, cost).value;
    CreditEffect(l1, tx.receiver, tx.amount, account);
    var l2 := Credit(l1, tx.receiver, tx.amount).value;
    CreditEffect(l2, l.treasury, DevelopmentFee(tx.amount), account);
  }

  lemma RunFront(check: SignatureCheck, l: Ledger, txs: seq<Tx>, network: Network)
    requires txs != [] && Run(check, l, txs, network).Ok?
    ensures Run(check, l, txs[..|txs| - 1], network).Ok?
    ensures Run(check, l, txs, network)
            == ApplyTx(check, Run(check, l, txs[..|txs| - 1], network).value, txs[|txs| - 1], network)
  {
  }

  lemma {:induction false} RunBalance(check: SignatureCheck, l: Ledger, txs: seq<Tx>, network: Network, account: string)
    requires Run(check, l, txs, network).Ok?
    ensures var w := Run(check, l, txs, network).value;
            && w.Balance(account) == l.Balance(account) + Net(txs, account, l.treasury)
            && w.treasury == l.treasury && w.issued == l.issued && w.policy == l.policy
  {
    hide ApplyTx, Delta;
    if txs != [] {
      var front, tx := txs[..|txs| - 1], txs[|txs| - 1];
      RunFront(check, l, txs, network);
      RunBalance(check, l, front, network, account);
      ApplyTxEffect(check, Run(check, l, front, network).value, tx, network, account);
    }
  }

  /** Each sender's applied nonces continue its account nonce one by one, in order. */
  lemma {:induction false} RunNonces(check: SignatureCheck, l: Ledger, txs: seq<Tx>, network: Network, sender: string)
    requires Run(check, l, txs, network).Ok?
    ensures Run(check, l, txs, network).value.Nonce(sender) == l.Nonce(sender) + |BySender(txs, sender)|
    ensures forall i :: 0 <= i < |BySender(txs, sender)| ==>
              BySender(txs, sender)[i].nonce == l.Nonce(sender) + 1 + i
  {
    hide ApplyTx, Delta;
    if txs != [] {
      var front, tx := txs[..|txs| - 1], txs[|txs| - 1];
      RunFront(check, l, txs, network);
      RunNonces(check, l, front, network, sender);
      ApplyTxEffect(check, Run(check, l, front, network).value, tx, network, sender);
    }
  }

  /** No identifier is applied twice, and exactly the applied identifiers become processed. */
  lemma {:induction false} RunIds(check: SignatureCheck, l: Ledger, txs: seq<Tx>, network: Network)
    requires Run(check, l, txs, network).Ok?
    ensures Run(check, l, txs, network).value.processed == l.processed + Ids(txs)
    ensures DistinctIds(txs) && l.processed !! Ids(txs)
  {
    hide ApplyTx, Delta;
    if txs != [] {
      var front, tx := txs[..|txs| - 1], txs[|txs| - 1];
      RunFront(check, l, txs, network);
      RunIds(check, l, front, network);
      ApplyTxEffect(check, Run(check, l, front, network).value, tx, network, "");
      assert Ids(txs) == Ids(front) + {tx.id};
      assert forall i :: 0 <= i < |front| ==> front[i].id in Ids(front);
    }
  }

  /** Every transaction adds one processed identifier and one to its sender's nonce. */
  lemma {:induction false} RunCounts(check: SignatureCheck, l: Ledger, txs: seq<Tx>, network: Network)
    requires Run(check, l, txs, network).Ok?
    ensures |Run(check, l, txs, network).value.processed| == |l.processed| + |txs|
    ensures Total(Run(check, l, txs, network).value.nonces) == Total(l.nonces) + |txs|
  {
    hide ApplyTx, Delta;
    if txs != [] {
      var front, tx := txs[..|txs| - 1], txs[|txs| - 1];
      RunFront(check, l, txs, network);
      RunCounts(check, l, front, network);
      var before := Run(check, l, front, network).value;
      ApplyTxEffect(check, before, tx, network, "");
      TotalUpdate(before.nonces, tx.sender, tx.nonce);
    }
  }

  lemma {:induction false} RunPrefix(check: SignatureCheck, l: Ledger, txs: seq<Tx>, network: Network, k: nat)
    requires k <= |txs| && Run(check, l, txs, network).Ok?
    ensures Run(check, l, txs[..k], network).Ok?
    decreases |txs|
  {
    hide ApplyTx;
    if k < |txs| {
      var front := txs[..|txs| - 1];
      RunPrefix(check, l, front, network, k);
      assert front[..k] == txs[..k];
    } else {
      assert txs[..k] == txs;
    }
  }

  lemma {:induction false} RunSplit(check: SignatureCheck, l: Ledger, a: seq<Tx>, b: seq<Tx>, network: Network)
    requires Run(check, l, a, network).Ok?
    ensures Run(check, l, a + b, network) == Run(check, Run(check, l, a, network).value, b, network)
    decreases |b|
  {
    hide ApplyTx;
    if b == [] {
      assert a + b == a;
    } else {
      RunSplit(check, l, a, b[..|b| - 1], network);
      assert (a + b)[..|a + b| - 1] == a + b[..|b| - 1];
    }
  }

  lemma {:induction false} NetSplit(a: seq<Tx>, b: seq<Tx>, account: string, treasury: string)
    ensures Net(a + b, account, treasury) == Net(a, account, treasury) + Net(b, account, treasury)
    decreases |b|
  {
    hide Delta;
    if b == [] {
      assert a + b == a;
    } else {
      NetSplit(a, b[..|b| - 1], account, treasury);
      assert (a + b)[..|a + b| - 1] == a + b[..|b| - 1];
    }
  }

  lemma {:induction false} NetOfSamePayments(a: seq<Tx>, b: seq<Tx>, account: string, treasury: string)
    requires SamePayments(a, b)
    ensures Net(a, account, treasury) == Net(b, account, treasury)
  {
    if a != [] {
      NetOfSamePayments(a[..|a| - 1], b[..|b| - 1], account, treasury);
    }
  }

  /** Other senders' transactions never lower an account: they can only pay it. */
  lemma {:induction false} NetOfOthers(txs: seq<Tx>, account: string, treasury: string)
    ensures Net(txs, account, treasury) >= Net(BySender(txs, account), account, treasury)
  {
    hide DevelopmentFee;
    if txs != [] {
      var front, tx := txs[..|txs| - 1], txs[|txs| - 1];
      NetOfOthers(front, account, treasury);
      if tx.sender == account {
        var own := BySender(txs, account);
        assert own[..|own| - 1] == BySender(front, account);
      } else {
        assert Delta(tx, account, treasury) >= 0;
      }
    }
  }

  /** The transactions of one sender all come from the list and from that sender. */
  lemma {:induction false} BySenderMembers(txs: seq<Tx>, sender: string, tx: Tx)
    ensures tx in BySender(txs, sender) <==> tx in txs && tx.sender == sender
  {
    if txs != [] {
      var front, last := txs[..|txs| - 1], txs[|txs| - 1];
      BySenderMembers(front, sender, tx);
      assert txs == front + [last];
    }
  }

  lemma {:induction false} BySenderAll(q: seq<Tx>, sender: string, s: string)
    requires forall t :: t in q ==> t.sender == sender
    ensures BySender(q, s) == if s == sender then q else []
  {
    if q != [] {
      var front, last := q[..|q| - 1], q[|q| - 1];
      assert q == front + [last];
      assert last in q && forall t :: t in front ==> t in q;
      BySenderAll(front, sender, s);
    }
  }

  lemma {:induction false} BySenderAppend(a: seq<Tx>, b: seq<Tx>, s: string)
    ensures BySender(a + b, s) == BySender(a, s) + BySender(b, s)
    decreases |b|
  {
    if b == [] {
      assert a + b == a;
    } else {
      BySenderAppend(a, b[..|b| - 1], s);
      assert (a + b)[..|a + b| - 1] == a + b[..|b| - 1];
    }
  }
}
