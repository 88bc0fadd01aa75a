/**
 Why checking each sender alone is enough (the reasoning behind blockchain/mempool_validator.go):
 other senders' transactions can only raise a sender's balance.
 */
module Queues {
  import opened Params
  import opened Transactions
  import opened Ledgers
  import opened Conservation
  import opened Effects

  /** An identifier names at most one transaction of the list, as in a pool keyed by identifier. */
  ghost predicate IdsIdentify(txs: seq<Tx>) {
    forall i, j :: 0 <= i < |txs| && 0 <= j < |txs| && txs[i].id == txs[j].id ==> txs[i] == txs[j]
  }

  /** Each sender's transactions, taken alone, replay on the ledger. */
  ghost predicate EachSenderReplays(check: SignatureCheck, l: Ledger, txs: seq<Tx>, network: Network) {
    forall s :: Run(check, l, BySender(txs, s), network).Ok?
  }

  lemma FrontReplays(check: SignatureCheck, l: Ledger, txs: seq<Tx>, network: Network)
    requires txs != [] && EachSenderReplays(check, l, txs, network)
    ensures EachSenderReplays(check, l, txs[..|txs| - 1], network)
  {
    hide ApplyTx;
    var front, tx := txs[..|txs| - 1], txs[|txs| - 1];
    forall s ensures Run(check, l, BySender(front, s), network).Ok? {
      var own := BySender(txs, s);
      assert Run(check, l, own, network).Ok?;
      if tx.sender == s {
        assert own[..|own| - 1] == BySender(front, s);
      }
    }
  }

  /** The last transaction of a merge has a fresh identifier when its own sender's list replays. */
  lemma LastIdFresh(check: SignatureCheck, l: Ledger, txs: seq<Tx>, network: Network)
    requires txs != [] && IdsIdentify(txs)
    requires Run(check, l, BySender(txs, txs[|txs| - 1].sender), network).Ok?
    ensures txs[|txs| - 1].id !in l.processed + Ids(txs[..|txs| - 1])
  {
    hide ApplyTx;
    var front, tx := txs[..|txs| - 1], txs[|txs| - 1];
    var own := BySender(txs, tx.sender);
    var mine := BySender(front, tx.sender);
    assert own == mine + [tx];
    RunIds(check, l, own, network);
    assert own[|own| - 1].id in Ids(own);
    assert tx !in mine by {
      assert forall m :: 0 <= m < |mine| ==> own[m].id != own[|mine|].id;
    }
    BySenderMembers(front, tx.sender, tx);
    assert forall k :: 0 <= k < |front| ==> front[k] == txs[k];
  }

  /** Any merge of lists that replay sender by sender replays as a whole. */
  lemma {:induction false} MergedQueuesRun(check: SignatureCheck, l: Ledger, txs: seq<Tx>, network: Network)
    requires Backed(l, 0) && IdsIdentify(txs)
    requires EachSenderReplays(check, l, txs, network)
    ensures Run(check, l, txs, network).Ok?
  {
    hide ApplyTx, WellSigned;
    if txs != [] {
      var front, tx := txs[..|txs| - 1], txs[|txs| - 1];
      var s, mine := tx.sender, BySender(front, tx.sender);
      FrontReplays(check, l, txs, network);
      MergedQueuesRun(check, l, front, network);
      LastIdFresh(check, l, txs, network);
      var merged := Run(check, l, front, network).value;
      RunConserves(check, l, front, network);
      RunIds(check, l, front, network);
      RunNonces(check, l, front, network, s);
      RunBalance(check, l, front, network, s);
      NetOfOthers(front, s, l.treasury);

      assert BySender(txs, s) == mine + [tx];
      assert Run(check, l, BySender(txs, s), network).Ok?;
      RunFront(check, l, mine + [tx], network);
      assert (mine + [tx])[..|mine|] == mine;
      var alone := Run(check, l, mine, network).value;
      RunConserves(check, l, mine, network);
      RunNonces(check, l, mine, network, s);
      RunBalance(check, l, mine, network, s);
      BySenderOfOwn(front, s);
      AcceptedExactly(check, alone, tx, network, MinerFees(mine));
      AcceptedExactly(check, merged, tx, network, MinerFees(front));
    }
  }

  lemma {:induction false} BySenderOfOwn(txs: seq<Tx>, sender: string)
    ensures BySender(BySender(txs, sender), sender) == BySender(txs, sender)
  {
    if txs != [] {
      BySenderOfOwn(txs[..|txs| - 1], sender);
      var own := BySender(txs, sender);
      if txs[|txs| - 1].sender == sender {
        assert own[..|own| - 1] == BySender(txs[..|txs| - 1], sender);
      }
    }
  }
}
