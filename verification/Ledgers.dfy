/**
 Account state as a value, and the transitions that blocks make on it
 (blockchain/state.go, transaction_processor.go, block_processor.go, rewards.go).
 Class `State` in StateObject.dfy carries out these transitions in place.
 */
module Ledgers {
  import opened Prelude
  import opened Params
  import opened Transactions
  import opened Emission

  datatype LedgerError =
    | EmptyAddress
    | BalanceOverflow
    | InsufficientBalance
    | EmptyTransactionId
    | AlreadyProcessed
    | EmptySender
    | EmptyReceiver
    | ZeroAmount
    | OutsideResourceBounds
    | InvalidSignature
    | NonceOverflow
    | InvalidNonce
    | InvalidFee
    | InvalidFeeSplit
    | AmountOverflow
    | NoTreasury
    | EmptyMiner
    | UnknownPolicy
    | PolicyMismatch
    | SupplyExceeded
    | MinerFeeOverflow
    | MinerRewardOverflow

  datatype Ledger = Ledger(
    balances: map<string, u64>,
    nonces: map<string, u64>,
    processed: set<string>,
    treasury: string,
    issued: u64,
    policy: Policy)
  {
    function Balance(address: string): u64 {
      Lookup(balances, address)
    }

    function Nonce(address: string): u64 {
      Lookup(nonces, address)
    }
  }

  function EmptyLedger(policy: Policy): Ledger {
    Ledger(map[], map[], {}, TREASURY, 0, policy)
  }

  function Credit(l: Ledger, address: string, amount: u64): Result<Ledger, LedgerError> {
    if address == "" then Err(EmptyAddress)
    else if amount == 0 then Ok(l)
    else if l.Balance(address) > MAX_U64 - amount then Err(BalanceOverflow)
    else Ok(l.(balances := l.balances[address := l.Balance(address) + amount]))
  }

  function Debit(l: Ledger, address: string, amount: u64): Result<Ledger, LedgerError> {
    if address == "" then Err(EmptyAddress)
    else if l.Balance(address) < amount then Err(InsufficientBalance)
    else Ok(l.(balances := l.balances[address := l.Balance(address) - amount]))
  }

  function Mint(l: Ledger, policy: Policy, amount: u64): Result<Ledger, LedgerError> {
    if policy.OtherPolicy? then Err(UnknownPolicy)
    else if l.policy != policy then Err(PolicyMismatch)
    else if amount == 0 then Ok(l)
    else if l.issued > MaxSupplyFor(policy) || amount > MaxSupplyFor(policy) - l.issued then Err(SupplyExceeded)
    else Ok(l.(issued := l.issued + amount))
  }

  /** The checks that precede any change, in order; None when the transaction may be applied. */
  function Fault(check: SignatureCheck, l: Ledger, tx: Tx, network: Network): Option<LedgerError> {
    if tx.id == "" then Some(EmptyTransactionId)
    else if tx.id in l.processed then Some(AlreadyProcessed)
    else if tx.sender == "" then Some(EmptySender)
    else if tx.receiver == "" then Some(EmptyReceiver)
    else if tx.amount == 0 then Some(ZeroAmount)
    else if !WithinResourceBounds(tx) then Some(OutsideResourceBounds)
    else if !check(tx, network) then Some(InvalidSignature)
    else if l.Nonce(tx.sender) == MAX_U64 then Some(NonceOverflow)
    else if tx.nonce != l.Nonce(tx.sender) + 1 then Some(InvalidNonce)
    else if tx.fee != CalculateFee(tx.amount) then Some(InvalidFee)
    else if DevelopmentFee(tx.amount) > tx.fee || MiningFee(tx.amount) != tx.fee - DevelopmentFee(tx.amount) then
      Some(InvalidFeeSplit)
    else if tx.amount > MAX_U64 - tx.fee then Some(AmountOverflow)
    else if l.Balance(tx.sender) < tx.amount + tx.fee then Some(InsufficientBalance)
    else if l.treasury == "" then Some(NoTreasury)
    else None
  }

  /** Apply one transaction; the caller collects `MiningFee(tx.amount)`. */
  function ApplyTx(check: SignatureCheck, l: Ledger, tx: Tx, network: Network): Result<Ledger, LedgerError> {
    var fault := Fault(check, l, tx, network);
    if fault.Some? then Err(fault.value)
    else
      var l1 :- Debit(l, tx.sender, tx.amount + tx.fee);
      var l2 :- Credit(l1, tx.receiver, tx.amount);
      var l3 :- Credit(l2, l.treasury, DevelopmentFee(tx.amount));
      Ok(l3.(nonces := l3.nonces[tx.sender := tx.nonce], processed := l3.processed + {tx.id}))
  }

  /** Apply a list of transactions in order, stopping at the first failure. */
  function Run(check: SignatureCheck, l: Ledger, txs: seq<Tx>, network: Network): Result<Ledger, LedgerError> {
    if txs == [] then Ok(l)
    else
      var before :- Run(check, l, txs[..|txs| - 1], network);
      ApplyTx(check, before, txs[|txs| - 1], network)
  }

  function MinerFees(txs: seq<Tx>): nat {
    if txs == [] then 0 else MinerFees(txs[..|txs| - 1]) + MiningFee(txs[|txs| - 1].amount)
  }

  /** The transaction loop of a block: apply and collect miner fees, with the overflow guard on the fees. */
  function RunCollecting(check: SignatureCheck, l: Ledger, txs: seq<Tx>, network: Network)
    : Result<(Ledger, u64), LedgerError>
  {
    if txs == [] then Ok((l, 0))
    else
      var tx := txs[|txs| - 1];
      var (before, fees) :- RunCollecting(check, l, txs[..|txs| - 1], network);
      var after :- ApplyTx(check, before, tx, network);
      if fees > MAX_U64 - MiningFee(tx.amount) then Err(MinerFeeOverflow)
      else Ok((after, fees + MiningFee(tx.amount)))
  }

  function RemainingSupply(l: Ledger, policy: Policy): u64 {
    if l.issued >= MaxSupplyFor(policy) then 0 else MaxSupplyFor(policy) - l.issued
  }

  /** Mint the subsidy, clamped to the remaining supply, and credit it with the collected fees to the miner. */
  function PayReward(l: Ledger, policy: Policy, subsidy: nat, miner: string, fees: u64)
    : Result<(Ledger, u64), LedgerError>
  {
    var clamped: u64 := if subsidy > RemainingSupply(l, policy) then RemainingSupply(l, policy) else subsidy;
    var minted :- if subsidy > 0 then Mint(l, policy, clamped) else Ok(l);
    if clamped > MAX_U64 - fees then Err(MinerRewardOverflow)
    else if clamped + fees == 0 then Ok((minted, 0))
    else
      var paid :- Credit(minted, miner, clamped + fees);
      Ok((paid, clamped + fees))
  }

  function CreditMinerReward(l: Ledger, policy: Policy, height: nat, miner: string, fees: u64)
    : Result<(Ledger, u64), LedgerError>
  {
    if miner == "" then Err(EmptyMiner)
    else
      var subsidy := BlockSubsidy(policy, height);
      if subsidy.None? then Err(UnknownPolicy) else PayReward(l, policy, subsidy.value, miner, fees)
  }

  /** Process the transactions and the reward of one block; the number is the miner's total reward. */
  function ProcessBlock(check: SignatureCheck, l: Ledger, policy: Policy, height: nat, txs: seq<Tx>, miner: string)
    : Result<(Ledger, u64), LedgerError>
  {
    if miner == "" then Err(EmptyMiner)
    else if policy.OtherPolicy? then Err(UnknownPolicy)
    else if l.policy != policy then Err(PolicyMismatch)
    else
      var (after, fees) :- RunCollecting(check, l, txs, NetworkFor(policy).value);
      CreditMinerReward(after, policy, height, miner, fees)
  }
}
