/** Rebuilding the ledger from the blocks of a chain (BuildStateFromChain), and what holds of every rebuilt ledger. */
module Replaying {
  import opened Prelude
  import opened Params
  import opened Transactions
  import opened Emission
  import opened Ledgers
  import opened Conservation
  import opened Effects
  import opened Blocks

  /** Process every non-genesis block in order, from the empty ledger. */
  function Replay(check: SignatureCheck, policy: Policy, blocks: seq<Block>): Result<Ledger, LedgerError> {
    if |blocks| <= 1 then Ok(EmptyLedger(policy))
    else
      var b := blocks[|blocks| - 1];
      var l :- Replay(check, policy, blocks[..|blocks| - 1]);
      var (next, _) :- ProcessBlock(check, l, policy, b.height, b.txs, b.miner);
      Ok(next)
  }

  /** All transactions of the non-genesis blocks, in order. */
  function AllTxs(blocks: seq<Block>): seq<Tx> {
    if |blocks| <= 1 then [] else AllTxs(blocks[..|blocks| - 1]) + blocks[|blocks| - 1].txs
  }

  lemma EmptyIsBacked(policy: Policy)
    ensures Backed(EmptyLedger(policy), 0)
  {
  }

  /** In every ledger reached from the empty one, balances sum to issued supply, and no overflow guard ever fires. */
  lemma {:induction false} ReplayIsBacked(check: SignatureCheck, policy: Policy, blocks: seq<Block>)
    requires !policy.OtherPolicy?
    ensures match Replay(check, policy, blocks)
            case Ok(l) => Backed(l, 0) && l.policy == policy
            case Err(e) => !OverflowError(e)
  {
    hide ProcessBlock, Backed;
    EmptyIsBacked(policy);
    if |blocks| > 1 {
      var front, b := blocks[..|blocks| - 1], blocks[|blocks| - 1];
      ReplayIsBacked(check, policy, front);
      var before := Replay(check, policy, front);
      if before.Ok? {
        ProcessBlockConserves(check, before.value, policy, b.height, b.txs, b.miner);
      }
    }
  }

  lemma ReplayFront(check: SignatureCheck, policy: Policy, blocks: seq<Block>)
    requires |blocks| > 1 && Replay(check, policy, blocks).Ok?
    ensures var b := blocks[|blocks| - 1];
            var before := Replay(check, policy, blocks[..|blocks| - 1]);
            && before.Ok?
            && ProcessBlock(check, before.value, policy, b.height, b.txs, b.miner).Ok?
            && Replay(check, policy, blocks)
               == Ok(ProcessBlock(check, before.value, policy, b.height, b.txs, b.miner).value.0)
  {
    hide ProcessBlock;
  }

  lemma {:induction false} ReplayPrefix(check: SignatureCheck, policy: Policy, blocks: seq<Block>, k: nat)
    requires k <= |blocks| && Replay(check, policy, blocks).Ok?
    ensures Replay(check, policy, blocks[..k]).Ok?
    decreases |blocks|
  {
    hide ProcessBlock;
    if k == |blocks| || |blocks| <= 1 {
      assert k == |blocks| ==> blocks[..k] == blocks;
    } else {
      ReplayFront(check, policy, blocks);
      ReplayPrefix(check, policy, blocks[..|blocks| - 1], k);
      assert blocks[..|blocks| - 1][..k] == blocks[..k];
    }
  }

  // ----- issued supply

  ghost predicate HeightsCount(blocks: seq<Block>) {
    forall i :: 0 <= i < |blocks| ==> blocks[i].height == i
  }

  /** The subsidy the schedule promises for the next height still fits under the cap. */
  lemma ClampNeverBinds(l: Ledger, policy: Policy, height: nat)
    requires !policy.OtherPolicy? && height >= 1 && l.issued == Scheduled(policy, height - 1)
    ensures BlockSubsidy(policy, height).value <= RemainingSupply(l, policy)
  {
    hide TestnetSubsidy, MainnetSubsidy;
    ScheduleWithinCap(policy, height);
    assert Scheduled(policy, height) == Scheduled(policy, height - 1) + BlockSubsidy(policy, height).value;
  }

  /** A block at the next height mints exactly its scheduled subsidy. */
  lemma BlockMints(check: SignatureCheck, l: Ledger, policy: Policy, height: nat, txs: seq<Tx>, miner: string)
    requires Backed(l, 0) && height >= 1 && !policy.OtherPolicy? && l.issued == Scheduled(policy, height - 1)
    requires ProcessBlock(check, l, policy, height, txs, miner).Ok?
    ensures ProcessBlock(check, l, policy, height, txs, miner).value.0.issued == Scheduled(policy, height)
  {
    hide BlockSubsidy, PayReward, Run, RunCollecting, MaxSupplyFor;
    var network := NetworkFor(policy).value;
    RunConserves(check, l, txs, network);
    var w := Run(check, l, txs, network).value;
    ClampNeverBinds(w, policy, height);
    PayRewardConserves(w, policy, BlockSubsidy(policy, height).value, miner, MinerFees(txs));
  }

  /** Issued supply after heights 1..h is the sum of the scheduled subsidies. */
  lemma {:induction false} ReplaySupply(check: SignatureCheck, policy: Policy, blocks: seq<Block>)
    requires !policy.OtherPolicy? && blocks != [] && HeightsCount(blocks)
    requires Replay(check, policy, blocks).Ok?
    ensures Replay(check, policy, blocks).value.issued == Scheduled(policy, |blocks| - 1)
  {
    hide ProcessBlock, Backed, BlockSubsidy;
    if |blocks| > 1 {
      var front, b := blocks[..|blocks| - 1], blocks[|blocks| - 1];
      ReplayFront(check, policy, blocks);
      ReplaySupply(check, policy, front);
      ReplayIsBacked(check, policy, front);
      BlockMints(check, Replay(check, policy, front).value, policy, b.height, b.txs, b.miner);
    }
  }

  // ----- balances

  /** What a block pays its miner: the scheduled subsidy and the miner's part of every fee. */
  function Reward(policy: Policy, b: Block): nat {
    (if policy.OtherPolicy? then 0 else BlockSubsidy(policy, b.height).value) + MinerFees(b.txs)
  }

  function Earned(policy: Policy, blocks: seq<Block>, account: string): nat {
    if |blocks| <= 1 then 0
    else
      var b := blocks[|blocks| - 1];
      Earned(policy, blocks[..|blocks| - 1], account) + (if b.miner == account then Reward(policy, b) else 0)
  }

  /** The reward step changes the miner's balance alone. */
  lemma RewardEffect(l: Ledger, policy: Policy, subsidy: nat, miner: string, fees: u64, account: string)
    requires PayReward(l, policy, subsidy, miner, fees).Ok? && subsidy <= RemainingSupply(l, policy)
    ensures var (r, reward) := PayReward(l, policy, subsidy, miner, fees).value;
            && reward == subsidy + fees && r.treasury == l.treasury
            && r.Balance(account) == l.Balance(account) + (if account == miner then reward else 0)
  {
    hide MaxSupplyFor;
  }

  /** The complete effect of a block on one account: its transactions, and the whole reward for the miner. */
  lemma BlockEffect(check: SignatureCheck, l: Ledger, policy: Policy, b: Block, account: string)
    requires Backed(l, 0) && b.height >= 1 && !policy.OtherPolicy? && l.issued == Scheduled(policy, b.height - 1)
    requires ProcessBlock(check, l, policy, b.height, b.txs, b.miner).Ok?
    ensures var (r, reward) := ProcessBlock(check, l, policy, b.height, b.txs, b.miner).value;
            && reward == Reward(policy, b)
            && r.Balance(account) == l.Balance(account) + Net(b.txs, account, TREASURY)
                                     + (if account == b.miner then reward else 0)
  {
    hide BlockSubsidy, PayReward, Run, RunCollecting, MaxSupplyFor, Net;
    var network := NetworkFor(policy).value;
    RunConserves(check, l, b.txs, network);
    RunBalance(check, l, b.txs, network, account);
    var w := Run(check, l, b.txs, network).value;
    ClampNeverBinds(w, policy, b.height);
    RewardEffect(w, policy, BlockSubsidy(policy, b.height).value, b.miner, MinerFees(b.txs), account);
  }

  /** Every balance in closed form: what the account's transactions add up to, and what it earned by mining. */
  lemma {:induction false} ReplayBalance(check: SignatureCheck, policy: Policy, blocks: seq<Block>, account: string)
    requires !policy.OtherPolicy? && blocks != [] && HeightsCount(blocks)
    requires Replay(check, policy, blocks).Ok?
    ensures Replay(check, policy, blocks).value.Balance(account)
            == Net(AllTxs(blocks), account, TREASURY) + Earned(policy, blocks, account)
  {
    hide ProcessBlock, Backed, BlockSubsidy, Net, Reward;
    if |blocks| > 1 {
      var front, b := blocks[..|blocks| - 1], blocks[|blocks| - 1];
      ReplayFront(check, policy, blocks);
      ReplayBalance(check, policy, front, account);
      ReplaySupply(check, policy, front);
      ReplayIsBacked(check, policy, front);
      BlockEffect(check, Replay(check, policy, front).value, policy, b, account);
      NetSplit(AllTxs(front), b.txs, account, TREASURY);
    } else {
      NetOfNothing(account);
    }
  }

  lemma NetOfNothing(account: string)
    ensures Net([], account, TREASURY) == 0
  {
  }

  // ----- nonces and identifiers

  /** The reward step touches neither nonces nor processed identifiers. */
  lemma BlockKeepsRunMarks(check: SignatureCheck, l: Ledger, policy: Policy, height: nat, txs: seq<Tx>, miner: string)
    requires Backed(l, 0) && ProcessBlock(check, l, policy, height, txs, miner).Ok?
    ensures !policy.OtherPolicy? && Run(check, l, txs, NetworkFor(policy).value).Ok?
    ensures var w := Run(check, l, txs, NetworkFor(policy).value).value;
            var r := ProcessBlock(check, l, policy, height, txs, miner).value.0;
            r.nonces == w.nonces && r.processed == w.processed
  {
    hide BlockSubsidy, Run, RunCollecting, PayReward;
    var network := NetworkFor(policy).value;
    RunConserves(check, l, txs, network);
    var w := Run(check, l, txs, network).value;
    RewardKeepsMarks(w, policy, BlockSubsidy(policy, height).value, miner, MinerFees(txs));
  }

  lemma RewardKeepsMarks(l: Ledger, policy: Policy, subsidy: nat, miner: string, fees: u64)
    requires PayReward(l, policy, subsidy, miner, fees).Ok?
    ensures var r := PayReward(l, policy, subsidy, miner, fees).value.0;
            r.nonces == l.nonces && r.processed == l.processed
  {
    hide MaxSupplyFor;
  }

  /** An account nonce counts the sender's applied transactions, whose nonces are exactly 1, 2, 3, ... in order. */
  lemma {:induction false} ReplayNonces(check: SignatureCheck, policy: Policy, blocks: seq<Block>, sender: string)
    requires !policy.OtherPolicy? && Replay(check, policy, blocks).Ok?
    ensures Replay(check, policy, blocks).value.Nonce(sender) == |BySender(AllTxs(blocks), sender)|
    ensures forall i :: 0 <= i < |BySender(AllTxs(blocks), sender)| ==>
              BySender(AllTxs(blocks), sender)[i].nonce == i + 1
  {
    hide ProcessBlock, Backed, Run;
    if |blocks| > 1 {
      var front, b := blocks[..|blocks| - 1], blocks[|blocks| - 1];
      ReplayFront(check, policy, blocks);
      ReplayNonces(check, policy, front, sender);
      ReplayIsBacked(check, policy, front);
      var before := Replay(check, policy, front).value;
      BlockKeepsRunMarks(check, before, policy, b.height, b.txs, b.miner);
      RunNonces(check, before, b.txs, NetworkFor(policy).value, sender);
      BySenderAppend(AllTxs(front), b.txs, sender);
    }
  }

  /** No identifier is applied twice, and there are as many processed identifiers as the nonces count. */
  lemma {:induction false} ReplayIds(check: SignatureCheck, policy: Policy, blocks: seq<Block>)
    requires !policy.OtherPolicy? && Replay(check, policy, blocks).Ok?
    ensures var l := Replay(check, policy, blocks).value;
            && l.processed == Ids(AllTxs(blocks)) && DistinctIds(AllTxs(blocks))
            && |l.processed| == Total(l.nonces) == |AllTxs(blocks)|
  {
    hide ProcessBlock, Backed, Run;
    if |blocks| > 1 {
      var front, b := blocks[..|blocks| - 1], blocks[|blocks| - 1];
      ReplayFront(check, policy, blocks);
      ReplayIds(check, policy, front);
      ReplayIsBacked(check, policy, front);
      var before := Replay(check, policy, front).value;
      var network := NetworkFor(policy).value;
      BlockKeepsRunMarks(check, before, policy, b.height, b.txs, b.miner);
      RunIds(check, before, b.txs, network);
      RunCounts(check, before, b.txs, network);
      JoinIds(AllTxs(front), b.txs);
    }
  }

  // ----- fees

  lemma {:induction false} MinerFeesSplit(a: seq<Tx>, b: seq<Tx>)
    ensures MinerFees(a + b) == MinerFees(a) + MinerFees(b)
    decreases |b|
  {
    hide MiningFee;
    if b == [] {
      assert a + b == a;
    } else {
      MinerFeesSplit(a, b[..|b| - 1]);
      assert (a + b)[..|a + b| - 1] == a + b[..|b| - 1];
    }
  }

  /** Every transaction on a chain keeps the limits, and n of them have paid the miners at least n units. */
  lemma {:induction false} ReplayPays(check: SignatureCheck, policy: Policy, blocks: seq<Block>)
    requires !policy.OtherPolicy? && Replay(check, policy, blocks).Ok?
    ensures MinerFees(AllTxs(blocks)) >= |AllTxs(blocks)|
    ensures forall i :: 0 <= i < |AllTxs(blocks)| ==> Limits(AllTxs(blocks)[i])
  {
    hide ProcessBlock, Backed, Run, Limits, MinerFees;
    if |blocks| <= 1 {
      NoFees();
    } else {
      var front, b := blocks[..|blocks| - 1], blocks[|blocks| - 1];
      ReplayFront(check, policy, blocks);
      ReplayPays(check, policy, front);
      ReplayIsBacked(check, policy, front);
      var before := Replay(check, policy, front).value;
      BlockKeepsRunMarks(check, before, policy, b.height, b.txs, b.miner);
      RunPays(check, before, b.txs, NetworkFor(policy).value);
      MinerFeesSplit(AllTxs(front), b.txs);
    }
  }

  lemma NoFees()
    ensures MinerFees([]) == 0
  {
  }

  lemma JoinIds(a: seq<Tx>, b: seq<Tx>)
    ensures Ids(a + b) == Ids(a) + Ids(b)
    ensures DistinctIds(a) && DistinctIds(b) && Ids(a) !! Ids(b) ==> DistinctIds(a + b)
  {
    forall x ensures x in Ids(a + b) <==> x in Ids(a) || x in Ids(b) {
      if x in Ids(a) {
        var i :| 0 <= i < |a| && a[i].id == x;
        assert (a + b)[i].id == x;
      }
      if x in Ids(b) {
        var i :| 0 <= i < |b| && b[i].id == x;
        assert (a + b)[|a| + i].id == x;
      }
    }
    assert forall i :: 0 <= i < |a| ==> a[i].id in Ids(a);
    assert forall i :: 0 <= i < |b| ==> b[i].id in Ids(b);
  }
}
