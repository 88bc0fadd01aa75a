/** Transactions, their fees and their resource bounds (package transactions). */
module Transactions {
  import opened Prelude
  import opened Params

  /** Strings are Go strings: one char per byte. */
  datatype Tx = Tx(id: string, sender: string, receiver: string,
                   amount: u64, fee: u64, nonce: u64,
                   publicKey: string, signature: string)

  /** What a transaction pays, apart from its identifier, key and signature. */
  datatype Payment = Payment(sender: string, receiver: string, amount: u64, fee: u64, nonce: u64)

  function PaymentOf(tx: Tx): Payment {
    Payment(tx.sender, tx.receiver, tx.amount, tx.fee, tx.nonce)
  }

  /** The same payments under the same identifiers, whatever the signatures. */
  ghost predicate SamePayments(a: seq<Tx>, b: seq<Tx>) {
    |a| == |b| && forall i :: 0 <= i < |a| ==> a[i].id == b[i].id && PaymentOf(a[i]) == PaymentOf(b[i])
  }

  ghost predicate DistinctIds(txs: seq<Tx>) {
    forall i, j :: 0 <= i < j < |txs| ==> txs[i].id != txs[j].id
  }

  /** Signature and identity checking for a network is a parameter of the model. */
  type SignatureCheck = (Tx, Network) -> bool

  /** Reduction of a product or sum of 64-bit words. */
  function Wrap64(n: nat): u64 {
    n % 0x1_0000_0000_0000_0000
  }

  function BasisPointsFee(amount: u64, points: u64): u64 {
    Wrap64(Wrap64(amount / 10000 * points) + Wrap64(amount % 10000 * points) / 10000)
  }

  function CalculateFee(amount: u64): (r: u64) {
    BasisPointsFee(amount, 10)
  }

  function DevelopmentFee(amount: u64): (r: u64) {
    BasisPointsFee(amount, 1)
  }

  function MiningFee(amount: u64): (r: u64) {
    BasisPointsFeeIsFloor(amount, 10);
    BasisPointsFeeIsFloor(amount, 1);
    CalculateFee(amount) - DevelopmentFee(amount)
  }

  /**
   The split evaluation gives the floor of amount * points / 10000 exactly when that floor and the remainder's product
   fit in 64 bits; up to 10000 points, and so for both fees, they always do.
   */
  lemma BasisPointsFeeIsFloor(amount: u64, points: u64)
    ensures BasisPointsFee(amount, points) == amount * points / 10000 <==>
            amount * points / 10000 <= MAX_U64 && amount % 10000 * points <= MAX_U64
    ensures points <= 10000 ==> BasisPointsFee(amount, points) == amount * points / 10000
  {
    SplitFloor(amount, points);
    var whole, rest := amount / 10000 * points, amount % 10000 * points;
    WrappedSum(whole, rest);
    if points <= 10000 {
      FewPointsFit(amount / 10000, amount % 10000, points);
    }
  }

  /** Where the products wrap the split evaluation is not the floor. */
  lemma FeeWraps()
    ensures BasisPointsFee(MAX_U64, MAX_U64) != MAX_U64 * MAX_U64 / 10000
  {
    BasisPointsFeeIsFloor(MAX_U64, MAX_U64);
  }

  lemma WrappedSum(whole: nat, rest: nat)
    ensures Wrap64(Wrap64(whole) + Wrap64(rest) / 10000) == whole + rest / 10000 <==>
            whole + rest / 10000 <= MAX_U64 && rest <= MAX_U64
  {
    assert rest > MAX_U64 ==> Wrap64(rest) / 10000 < rest / 10000;
  }

  lemma FewPointsFit(whole: nat, rest: nat, points: nat)
    requires points <= 10000 && 10000 * whole + rest <= MAX_U64 && rest < 10000
    ensures whole * points + rest * points / 10000 <= MAX_U64 && rest * points <= MAX_U64
  {
    MulMonotone(points, 10000, whole);
    MulMonotone(points, 10000, rest);
    assert whole * points <= 10000 * whole && rest * points <= 10000 * rest;
  }

  /** The whole and the remainder of the amount contribute separately to the floor. */
  lemma SplitFloor(amount: u64, points: u64)
    ensures amount * points / 10000 == amount / 10000 * points + amount % 10000 * points / 10000
  {
    var whole, rest := amount / 10000, amount % 10000;
    assert amount == 10000 * whole + rest;
    assert amount * points == 10000 * (whole * points) + rest * points by {
      assert amount * points == (10000 * whole + rest) * points == 10000 * whole * points + rest * points;
    }
    DivideShifted(whole * points, rest * points);
  }

  lemma DivideShifted(q: nat, r: nat)
    ensures (10000 * q + r) / 10000 == q + r / 10000
  {
  }

  /** The fee is a tenth of a percent and the development part a tenth of it, each rounded down; the dust minimum is
      exactly the smallest amount that pays a fee. */
  lemma FeeIsPositiveFromDustMinimum(amount: u64)
    ensures CalculateFee(amount) == amount / 1000 && DevelopmentFee(amount) == amount / 10000
    ensures CalculateFee(amount) > 0 <==> amount >= MIN_TRANSFER
    ensures DevelopmentFee(amount) <= CalculateFee(amount)
    ensures DevelopmentFee(amount) + MiningFee(amount) == CalculateFee(amount)
  {
    BasisPointsFeeIsFloor(amount, 10);
    BasisPointsFeeIsFloor(amount, 1);
  }

  function EstimatedSize(tx: Tx): nat {
    |tx.id| + |tx.sender| + |tx.receiver| + |tx.publicKey| + |tx.signature| + 24
  }

  predicate LowerHex(s: string) {
    forall i :: 0 <= i < |s| ==> '0' <= s[i] <= '9' || 'a' <= s[i] <= 'f'
  }

  predicate ValidAddress(address: string) {
    |address| == 40 && LowerHex(address)
  }

  predicate WithinResourceBounds(tx: Tx) {
    && 0 < |tx.id| <= MAX_TX_ID
    && ValidAddress(tx.sender)
    && ValidAddress(tx.receiver)
    && |tx.publicKey| <= MAX_TX_KEY
    && |tx.signature| <= MAX_TX_SIGNATURE
    && EstimatedSize(tx) <= MAX_TX_BYTES
    && tx.amount >= MIN_TRANSFER
  }

  function Ids(txs: seq<Tx>): set<string> {
    set i | 0 <= i < |txs| :: txs[i].id
  }

  /** The transactions of one sender, in their order in the list. */
  function BySender(txs: seq<Tx>, sender: string): seq<Tx> {
    if txs == [] then []
    else
      var rest := BySender(txs[..|txs| - 1], sender);
      if txs[|txs| - 1].sender == sender then rest + [txs[|txs| - 1]] else rest
  }
}
