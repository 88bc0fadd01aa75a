/** Conservation of coins: balances and uncollected fees always add up to the issued supply. */
module Conservation {
  import opened Prelude
  import opened Params
  import opened Transactions
  import opened Ledgers
  import Emission

  /** All issued coins are in some balance, except miner fees collected since the block began. */
  ghost predicate Backed(l: Ledger, fees: nat) {
    && Total(l.balances) + fees == l.issued
    && l.issued <= MaxSupplyFor(l.policy)
    && l.treasury == TREASURY
  }

  /** The errors that guard machine arithmetic on amounts of coins in circulation. */
  predicate OverflowError(e: LedgerError) {
    e.BalanceOverflow? || e.MinerFeeOverflow? || e.MinerRewardOverflow? || e.SupplyExceeded?
  }

  lemma BalanceWithinTotal(l: Ledger, address: string)
    ensures l.Balance(address) <= Total(l.balances)
  {
    if address in l.balances {
      TotalAtLeast(l.balances, address);
    }
  }

  predicate OnlyBalancesChange(l: Ledger, m: Ledger) {
    m == l.(balances := m.balances)
  }

  lemma DebitTotal(l: Ledger, address: string, amount: u64)
    requires Debit(l, address, amount).Ok?
    ensures Total(Debit(l, address, amount).value.balances) == Total(l.balances) - amount
    ensures OnlyBalancesChange(l, Debit(l, address, amount).value)
  {
    TotalUpdate(l.balances, address, l.Balance(address) - amount);
  }

  /** A credit within the representable total cannot overflow, and adds exactly its amount. */
  lemma CreditTotal(l: Ledger, address: string, amount: u64)
    requires address != "" && Total(l.balances) + amount <= MAX_U64
    ensures Credit(l, address, amount).Ok?
    ensures Total(Credit(l, address, amount).value.balances) == Total(l.balances) + amount
    ensures OnlyBalancesChange(l, Credit(l, address, amount).value)
  {
    BalanceWithinTotal(l, address);
    if amount > 0 {
      TotalUpdate(l.balances, address, l.Balance(address) + amount);
    }
  }

  /** One transaction moves its miner fee out of the balances and nothing else; only the listed checks can fail. */
  lemma ApplyTxConserves(check: SignatureCheck, l: Ledger, tx: Tx, network: Network, fees: nat)
    requires Backed(l, fees)
    ensures match Fault(check, l, tx, network)
            case Some(e) => ApplyTx(check, l, tx, network) == Err(e) && !OverflowError(e)
            case None =>
              var r := ApplyTx(check, l, tx, network);
              && r.Ok?
              && Backed(r.value, fees + MiningFee(tx.amount))
              && r.value.issued == l.issued && r.value.policy == l.policy
  {
    FeeIsPositiveFromDustMinimum(tx.amount);
    hide CalculateFee, DevelopmentFee, MiningFee, WithinResourceBounds, MaxSupplyFor, Credit;
    if Fault(check, l, tx, network).None? {
      var cost := tx.amount + tx.fee;
      DebitTotal(l, tx.sender, cost);
      var l1 := Debit(l, tx.sender, cost).value;
      CreditTotal(l1, tx.receiver, tx.amount);
      var l2 := Credit(l1, tx.receiver, tx.amount).value;
      CreditTotal(l2, l.treasury, DevelopmentFee(tx.amount));
    }
  }

  /** Inside a block: supply is balances plus collected fees, and the fee guard never fires. */
  lemma {:induction false} RunConserves(check: SignatureCheck, l: Ledger, txs: seq<Tx>, network: Network)
    requires Backed(l, 0)
    ensures match Run(check, l, txs, network)
            case Err(e) => RunCollecting(check, l, txs, network) == Err(e) && !OverflowError(e)
            case Ok(w) =>
              && MinerFees(txs) <= MAX_U64
              && RunCollecting(check, l, txs, network) == Ok((w, MinerFees(txs)))
              && Backed(w, MinerFees(txs))
              && w.issued == l.issued && w.policy == l.policy
  {
    hide ApplyTx, Fault, MiningFee;
    if txs != [] {
      var front, tx := txs[..|txs| - 1], txs[|txs| - 1];
      RunConserves(check, l, front, network);
      var before := Run(check, l, front, network);
      if before.Ok? {
        ApplyTxConserves(check, before.value, tx, network, MinerFees(front));
      }
    }
  }

  /** The reward step cannot fail: it mints the clamped subsidy and puts the collected fees back. */
  lemma PayRewardConserves(l: Ledger, policy: Policy, subsidy: nat, miner: string, fees: u64)
    requires Backed(l, fees) && l.policy == policy && !policy.OtherPolicy? && miner != ""
    ensures var minted := if subsidy > RemainingSupply(l, policy) then RemainingSupply(l, policy) else subsidy;
            var r := PayReward(l, policy, subsidy, miner, fees);
            && r.Ok? && r.value.1 == minted + fees
            && Backed(r.value.0, 0)
            && r.value.0.issued == l.issued + minted
            && r.value.0.policy == policy
  {
    hide MaxSupplyFor, Credit;
    var minted := if subsidy > RemainingSupply(l, policy) then RemainingSupply(l, policy) else subsidy;
    assert l.issued + minted <= MaxSupplyFor(policy);
    if subsidy > 0 {
      CreditTotal(Mint(l, policy, minted).value, miner, minted + fees);
    } else {
      CreditTotal(l, miner, fees);
    }
  }

  /** At block boundaries balances sum to issued supply; a block succeeds exactly when its transactions do. */
  lemma ProcessBlockConserves(check: SignatureCheck, l: Ledger, policy: Policy, height: nat, txs: seq<Tx>, miner: string)
    requires Backed(l, 0)
    ensures var r := ProcessBlock(check, l, policy, height, txs, miner);
            && (r.Ok? <==>
                  && miner != "" && !policy.OtherPolicy? && l.policy == policy
                  && Run(check, l, txs, NetworkFor(policy).value).Ok?)
            && (r.Ok? ==> Backed(r.value.0, 0) && r.value.0.policy == policy)
            && (r.Err? ==> !OverflowError(r.error))
  {
    if miner != "" && !policy.OtherPolicy? && l.policy == policy {
      var network := NetworkFor(policy).value;
      RunConserves(check, l, txs, network);
      var w := Run(check, l, txs, network);
      if w.Ok? {
        PayRewardConserves(w.value, policy, Emission.BlockSubsidy(policy, height).value, miner, MinerFees(txs));
      }
    }
  }
}
