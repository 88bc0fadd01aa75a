/**
 The account state object (blockchain/state.go) and the operations that change it in place
 (transaction_processor.go, block_processor.go, rewards.go), proved against the value model in Ledgers.dfy.
 */
module StateObject {
  import opened Prelude
  import opened Params
  import opened Transactions
  import opened Emission
  import opened Blocks
  import opened Ledgers

  class State {
    var balances: map<string, u64>
    var processedTx: set<string>
    var accountNonces: map<string, u64>
    var developmentAddress: string
    var issuedSupply: u64
    var monetaryPolicy: Policy

    /** The ledger this object holds. */
    function View(): Ledger
      reads this
    {
      Ledger(balances, accountNonces, processedTx, developmentAddress, issuedSupply, monetaryPolicy)
    }

    /** NewStateFor; it refuses (panics on) an unknown policy. */
    constructor (policy: Policy)
      requires !policy.OtherPolicy?
      ensures View() == EmptyLedger(policy)
    {
      balances := map[];
      processedTx := {};
      accountNonces := map[];
      developmentAddress := "16d7dc9ec0495109007860a584c7cf9055da9abf";
      issuedSupply := 0;
      monetaryPolicy := policy;
    }

    method Clone() returns (clone: State)
      ensures fresh(clone) && clone.View() == View()
    {
      clone := new State(TestnetPolicy);
      clone.ReplaceWith(this);
    }

    method ReplaceWith(other: State)
      modifies this
      ensures View() == old(other.View())
    {
      balances := other.balances;
      processedTx := other.processedTx;
      accountNonces := other.accountNonces;
      developmentAddress := other.developmentAddress;
      issuedSupply := other.issuedSupply;
      monetaryPolicy := other.monetaryPolicy;
    }

    method Credit(address: string, amount: u64) returns (error: Option<LedgerError>)
      modifies this
      ensures match Ledgers.Credit(old(View()), address, amount)
              case Ok(l) => error == None && View() == l
              case Err(e) => error == Some(e) && View() == old(View())
    {
      if address == "" {
        return Some(EmptyAddress);
      }
      if amount == 0 {
        return None;
      }
      var current := Lookup(balances, address);
      if current > MAX_U64 - amount {
        return Some(BalanceOverflow);
      }
      balances := balances[address := current + amount];
      return None;
    }

    method Debit(address: string, amount: u64) returns (error: Option<LedgerError>)
      modifies this
      ensures match Ledgers.Debit(old(View()), address, amount)
              case Ok(l) => error == None && View() == l
              case Err(e) => error == Some(e) && View() == old(View())
    {
      if address == "" {
        return Some(EmptyAddress);
      }
      var balance := Lookup(balances, address);
      if balance < amount {
        return Some(InsufficientBalance);
      }
      balances := balances[address := balance - amount];
      return None;
    }

    method MintSupplyFor(policy: Policy, amount: u64) returns (error: Option<LedgerError>)
      modifies this
      ensures match Mint(old(View()), policy, amount)
              case Ok(l) => error == None && View() == l
              case Err(e) => error == Some(e) && View() == old(View())
    {
      if policy.OtherPolicy? {
        return Some(UnknownPolicy);
      }
      if monetaryPolicy != policy {
        return Some(PolicyMismatch);
      }
      if amount == 0 {
        return None;
      }
      var maxSupply := MaxSupplyFor(policy);
      if issuedSupply > maxSupply {
        return Some(SupplyExceeded);
      }
      if amount > maxSupply - issuedSupply {
        return Some(SupplyExceeded);
      }
      issuedSupply := issuedSupply + amount;
      return None;
    }

    /** Apply to this object directly; on failure it may be left half changed. */
    method ApplyTransactionMutating(check: SignatureCheck, tx: Tx, network: Network) returns (r: Result<u64, LedgerError>)
      modifies this
      ensures match ApplyTx(check, old(View()), tx, network)
              case Ok(l) => r == Ok(MiningFee(tx.amount)) && View() == l
              case Err(e) => r == Err(e)
    {
      FaultFreeDebits(check, View(), tx, network);
      hide Fault, Ledgers.Credit, Ledgers.Debit, DevelopmentFee, MiningFee;
      var fault := Fault(check, View(), tx, network);
      if fault.Some? {
        return Err(fault.value);
      }
      var treasury := developmentAddress;
      var error := Debit(tx.sender, tx.amount + tx.fee);
      assert error.None?;
      error := Credit(tx.receiver, tx.amount);
      if error.Some? {
        return Err(error.value);
      }
      error := Credit(treasury, DevelopmentFee(tx.amount));
      if error.Some? {
        return Err(error.value);
      }
      accountNonces := accountNonces[tx.sender := tx.nonce];
      processedTx := processedTx + {tx.id};
      return Ok(MiningFee(tx.amount));
    }

    /** Apply on a private clone and commit only on success. */
    method ApplyTransactionFor(check: SignatureCheck, tx: Tx, network: Network) returns (r: Result<u64, LedgerError>)
      modifies this
      ensures match ApplyTx(check, old(View()), tx, network)
              case Ok(l) => r == Ok(MiningFee(tx.amount)) && View() == l
              case Err(e) => r == Err(e) && View() == old(View())
    {
      hide ApplyTx, MiningFee;
      var workingState := Clone();
      r := workingState.ApplyTransactionMutating(check, tx, network);
      if r.Ok? {
        ReplaceWith(workingState);
      }
    }

    method CreditMinerRewardFor(policy: Policy, height: nat, miner: string, fees: u64) returns (r: Result<u64, LedgerError>)
      modifies this
      ensures match CreditMinerReward(old(View()), policy, height, miner, fees)
              case Ok((l, reward)) => r == Ok(reward) && View() == l
              case Err(e) => r == Err(e)
    {
      hide BlockSubsidy, MaxSupplyFor, Mint, Ledgers.Credit;
      if miner == "" {
        return Err(EmptyMiner);
      }
      var scheduled := BlockSubsidy(policy, height);
      if scheduled.None? {
        return Err(UnknownPolicy);
      }
      var subsidy := scheduled.value;
      if subsidy > 0 {
        var remaining := RemainingSupply(View(), policy);
        if subsidy > remaining {
          subsidy := remaining;
        }
        var error := MintSupplyFor(policy, subsidy);
        if error.Some? {
          return Err(error.value);
        }
      }
      if subsidy > MAX_U64 - fees {
        return Err(MinerRewardOverflow);
      }
      var totalReward := subsidy + fees;
      if totalReward == 0 {
        return Ok(0);
      }
      var failed := Credit(miner, totalReward);
      if failed.Some? {
        return Err(failed.value);
      }
      return Ok(totalReward);
    }

    /** Process a whole block on a clone and commit only when every step succeeded. */
    method ProcessBlockFor(check: SignatureCheck, policy: Policy, block: Block, miner: string)
      returns (r: Result<u64, LedgerError>)
      modifies this
      ensures match ProcessBlock(check, old(View()), policy, block.height, block.txs, miner)
              case Ok((l, reward)) => r == Ok(reward) && View() == l
              case Err(e) => r == Err(e) && View() == old(View())
    {
      hide ApplyTx, MiningFee, CreditMinerReward, RunCollecting;
      if miner == "" {
        return Err(EmptyMiner);
      }
      if policy.OtherPolicy? {
        return Err(UnknownPolicy);
      }
      var network := NetworkFor(policy).value;
      if monetaryPolicy != policy {
        return Err(PolicyMismatch);
      }
      var workingState := Clone();
      var totalMinerFees: u64 := 0;
      var txs := block.txs;
      CollectingNothing(check, View(), network);
      for i := 0 to |txs|
        invariant fresh(workingState)
        invariant View() == old(View())
        invariant RunCollecting(check, View(), txs[..i], network) == Ok((workingState.View(), totalMinerFees))
      {
        CollectingNext(check, View(), txs, network, i);
        var applied := workingState.ApplyTransactionFor(check, txs[i], network);
        if applied.Err? {
          CollectingFails(check, View(), txs, network, i + 1, applied.error);
          return applied;
        }
        if totalMinerFees > MAX_U64 - applied.value {
          CollectingFails(check, View(), txs, network, i + 1, MinerFeeOverflow);
          return Err(MinerFeeOverflow);
        }
        totalMinerFees := totalMinerFees + applied.value;
      }
      assert txs[..|txs|] == txs;
      r := workingState.CreditMinerRewardFor(policy, block.height, miner, totalMinerFees);
      if r.Ok? {
        ReplaceWith(workingState);
      }
    }
  }

  /** The balance check in front makes the debit succeed. */
  lemma FaultFreeDebits(check: SignatureCheck, l: Ledger, tx: Tx, network: Network)
    ensures Fault(check, l, tx, network).None? ==>
              tx.amount + tx.fee <= MAX_U64 && Ledgers.Debit(l, tx.sender, tx.amount + tx.fee).Ok?
  {
    hide WithinResourceBounds, CalculateFee, DevelopmentFee, MiningFee;
  }

  lemma CollectingNothing(check: SignatureCheck, l: Ledger, network: Network)
    ensures RunCollecting(check, l, [], network) == Ok((l, 0))
  {
  }

  /** One turn of the transaction loop. */
  lemma CollectingNext(check: SignatureCheck, l: Ledger, txs: seq<Tx>, network: Network, i: nat)
    requires i < |txs| && RunCollecting(check, l, txs[..i], network).Ok?
    ensures var (before, fees) := RunCollecting(check, l, txs[..i], network).value;
            var r := RunCollecting(check, l, txs[..i + 1], network);
            match ApplyTx(check, before, txs[i], network)
            case Err(e) => r == Err(e)
            case Ok(after) =>
              r == if fees > MAX_U64 - MiningFee(txs[i].amount) then Err(MinerFeeOverflow)
                   else Ok((after, fees + MiningFee(txs[i].amount)))
  {
    hide ApplyTx, MiningFee;
    assert txs[..i + 1][..i] == txs[..i];
  }

  /** The first failure of a run is the failure of the whole run. */
  lemma {:induction false} CollectingFails(check: SignatureCheck, l: Ledger, txs: seq<Tx>, network: Network, k: nat, e: LedgerError)
    requires k <= |txs| && RunCollecting(check, l, txs[..k], network) == Err(e)
    ensures RunCollecting(check, l, txs, network) == Err(e)
    decreases |txs|
  {
    hide ApplyTx, MiningFee;
    if k == |txs| {
      assert txs[..k] == txs;
    } else {
      assert txs[..|txs| - 1][..k] == txs[..k];
      CollectingFails(check, l, txs[..|txs| - 1], network, k, e);
    }
  }
}
