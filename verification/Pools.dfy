/**
 The mempool's three maps and its byte counter as a value (blockchain/mempool/mempool.go), and their agreement.
 Class `Mempool` in MempoolObject.dfy carries out these transitions in place.
 */
module Pools {
  import opened Prelude
  import opened Params
  import opened Transactions

  datatype Meta = Meta(sender: string, nonce: u64, size: nat)

  datatype Pool = Pool(
    txs: map<string, Tx>,
    meta: map<string, Meta>,
    bytes: int,
    index: map<string, map<u64, string>>)
  {
    /** A Go map read of the sender index: a missing sender reads as an empty map. */
    function NoncesOf(sender: string): map<u64, string> {
      if sender in index then index[sender] else map[]
    }

    predicate Holds(tx: Tx) {
      tx.id in txs && txs[tx.id] == tx
    }
  }

  datatype PoolError =
    | PoolOutsideBounds
    | PoolEmptyId
    | PoolDuplicateId
    | PoolFull
    | PoolBytesFull
    | PoolSenderFull
    | PoolNonceTaken

  const EMPTY_POOL := Pool(map[], map[], 0, map[])

  function MetaOf(tx: Tx): Meta {
    Meta(tx.sender, tx.nonce, EstimatedSize(tx))
  }

  /** The resource and duplicate checks that both CheckAdmission and AddTransaction make. */
  function Refusal(p: Pool, tx: Tx): Option<PoolError> {
    if !WithinResourceBounds(tx) then Some(PoolOutsideBounds)
    else if tx.id == "" then Some(PoolEmptyId)
    else if tx.id in p.txs then Some(PoolDuplicateId)
    else if |p.txs| >= MAX_POOL_TXS then Some(PoolFull)
    else if p.bytes + EstimatedSize(tx) > MAX_POOL_BYTES then Some(PoolBytesFull)
    else if |p.NoncesOf(tx.sender)| >= MAX_POOL_PER_SENDER then Some(PoolSenderFull)
    else if tx.nonce in p.NoncesOf(tx.sender) then Some(PoolNonceTaken)
    else None
  }

  function Index(index: map<string, map<u64, string>>, meta: Meta, id: string): map<string, map<u64, string>> {
    var nonces: map<u64, string> := if meta.sender in index then index[meta.sender] else map[];
    index[meta.sender := nonces[meta.nonce := id]]
  }

  function Insert(p: Pool, tx: Tx): Pool {
    Pool(p.txs[tx.id := tx],
         p.meta[tx.id := MetaOf(tx)],
         p.bytes + EstimatedSize(tx),
         Index(p.index, MetaOf(tx), tx.id))
  }

  function Add(p: Pool, tx: Tx): Result<Pool, PoolError> {
    var refusal := Refusal(p, tx);
    if refusal.Some? then Err(refusal.value) else Ok(Insert(p, tx))
  }

  /** The index after removing one entry: the nonce goes if it still names the id, an emptied sender goes too. */
  function Unindex(index: map<string, map<u64, string>>, meta: Meta, id: string): map<string, map<u64, string>> {
    if meta.sender !in index then index
    else
      var nonces: map<u64, string> := index[meta.sender];
      var left: map<u64, string> := if meta.nonce in nonces && nonces[meta.nonce] == id then nonces - {meta.nonce} else nonces;
      if |left| == 0 then index - {meta.sender} else index[meta.sender := left]
  }

  function Remove(p: Pool, id: string): Pool {
    if id !in p.txs then p
    else if id !in p.meta then p.(txs := p.txs - {id})
    else
      Pool(p.txs - {id},
           p.meta - {id},
           if p.meta[id].size >= p.bytes then 0 else p.bytes - p.meta[id].size,
           Unindex(p.index, p.meta[id], id))
  }

  function RemoveAll(p: Pool, txs: seq<Tx>): Pool {
    if txs == [] then p else Remove(RemoveAll(p, txs[..|txs| - 1]), txs[|txs| - 1].id)
  }

  function Sizes(meta: map<string, Meta>): map<string, nat> {
    map id | id in meta :: meta[id].size
  }

  ghost predicate SameIds(p: Pool) {
    && p.txs.Keys == p.meta.Keys
    && forall id :: id in p.txs ==> id == p.txs[id].id && id in p.meta && p.meta[id] == MetaOf(p.txs[id])
  }

  predicate Names(index: map<string, map<u64, string>>, sender: string, nonce: u64, id: string) {
    sender in index && nonce in index[sender] && index[sender][nonce] == id
  }

  ghost predicate NoEmptySender(index: map<string, map<u64, string>>) {
    forall s :: s in index ==> |index[s]| > 0
  }

  /** The index maps (sender, nonce) to id exactly when the metadata maps id to (sender, nonce). */
  ghost predicate IndexInverse(meta: map<string, Meta>, index: map<string, map<u64, string>>) {
    && (forall s, n, id :: Names(index, s, n, id) ==> id in meta && meta[id].sender == s && meta[id].nonce == n)
    && (forall id :: id in meta ==> Names(index, meta[id].sender, meta[id].nonce, id))
    && NoEmptySender(index)
  }

  ghost predicate AllBounded(txs: map<string, Tx>) {
    forall id :: id in txs ==> WithinResourceBounds(txs[id])
  }

  ghost predicate WithinLimits(p: Pool) {
    && |p.txs| <= MAX_POOL_TXS
    && p.bytes <= MAX_POOL_BYTES
    && forall s :: s in p.index ==> |p.index[s]| <= MAX_POOL_PER_SENDER
  }

  /** The agreement of the three maps and the counter, and the resource limits. */
  ghost predicate Agrees(p: Pool) {
    && SameIds(p) && AllBounded(p.txs)
    && IndexInverse(p.meta, p.index)
    && p.bytes == Total(Sizes(p.meta))
    && WithinLimits(p)
  }

  lemma SizesUpdate(meta: map<string, Meta>, id: string, m: Meta)
    requires id !in meta
    ensures Total(Sizes(meta[id := m])) == Total(Sizes(meta)) + m.size
  {
    TotalUpdate(Sizes(meta), id, m.size);
    assert Sizes(meta[id := m]) == Sizes(meta)[id := m.size];
  }

  lemma SizesRemove(meta: map<string, Meta>, id: string)
    requires id in meta
    ensures Total(Sizes(meta)) == meta[id].size + Total(Sizes(meta - {id}))
  {
    TotalRemove(Sizes(meta), id);
    assert Sizes(meta - {id}) == Sizes(meta) - {id};
  }

  /** Indexing one more entry adds exactly its name. */
  lemma IndexedNames(index: map<string, map<u64, string>>, m: Meta, id: string, s: string, n: u64, x: string)
    requires m.sender in index ==> m.nonce !in index[m.sender]
    ensures Names(Index(index, m, id), s, n, x)
            <==> Names(index, s, n, x) || (s == m.sender && n == m.nonce && x == id)
  {
  }

  /** Removing an entry from the index removes exactly its name. */
  lemma UnindexedNames(index: map<string, map<u64, string>>, m: Meta, id: string, s: string, n: u64, x: string)
    requires Names(index, m.sender, m.nonce, id)
    ensures Names(Unindex(index, m, id), s, n, x)
            <==> Names(index, s, n, x) && !(s == m.sender && n == m.nonce)
  {
    var left := index[m.sender] - {m.nonce};
    if |left| == 0 {
      assert forall k :: k in index[m.sender] && k != m.nonce ==> k in left;
    }
  }

  lemma IndexInverseKept(meta: map<string, Meta>, index: map<string, map<u64, string>>, m: Meta, id: string)
    requires IndexInverse(meta, index) && id !in meta
    requires m.sender in index ==> m.nonce !in index[m.sender]
    ensures IndexInverse(meta[id := m], Index(index, m, id))
  {
    hide Names, Index;
    var index' := Index(index, m, id);
    IndexNoEmpty(index, m, id);
    forall s, n, x ensures Names(index', s, n, x)
            <==> Names(index, s, n, x) || (s == m.sender && n == m.nonce && x == id) {
      IndexedNames(index, m, id, s, n, x);
    }
  }

  lemma UnindexInverseKept(meta: map<string, Meta>, index: map<string, map<u64, string>>, id: string)
    requires IndexInverse(meta, index) && id in meta
    ensures IndexInverse(meta - {id}, Unindex(index, meta[id], id))
  {
    hide Names, Unindex;
    var m := meta[id];
    var index' := Unindex(index, m, id);
    assert Names(index, m.sender, m.nonce, id);
    forall s, n, x ensures Names(index', s, n, x)
            <==> Names(index, s, n, x) && !(s == m.sender && n == m.nonce) {
      UnindexedNames(index, m, id, s, n, x);
    }
    NamesAreUnique(index, m.sender, m.nonce);
    UnindexNoEmpty(index, m, id);
  }

  lemma IndexNoEmpty(index: map<string, map<u64, string>>, m: Meta, id: string)
    requires NoEmptySender(index)
    ensures NoEmptySender(Index(index, m, id))
  {
    assert m.nonce in Index(index, m, id)[m.sender];
  }

  lemma UnindexNoEmpty(index: map<string, map<u64, string>>, m: Meta, id: string)
    requires NoEmptySender(index)
    ensures NoEmptySender(Unindex(index, m, id))
  {
  }

  lemma NamesAreUnique(index: map<string, map<u64, string>>, s: string, n: u64)
    ensures forall x, y :: Names(index, s, n, x) && Names(index, s, n, y) ==> x == y
  {
  }

  lemma InsertWithinLimits(p: Pool, tx: Tx)
    requires WithinLimits(p) && |p.txs| < MAX_POOL_TXS && p.bytes + EstimatedSize(tx) <= MAX_POOL_BYTES
    requires |p.NoncesOf(tx.sender)| < MAX_POOL_PER_SENDER
    ensures WithinLimits(Insert(p, tx))
  {
    hide EstimatedSize;
    MapGrowsByOne(p.NoncesOf(tx.sender), tx.nonce, tx.id);
    MapGrowsByOne(p.txs, tx.id, tx);
  }

  lemma AddAgrees(p: Pool, tx: Tx)
    requires Agrees(p) && Add(p, tx).Ok?
    ensures Agrees(Add(p, tx).value)
  {
    hide EstimatedSize, WithinResourceBounds, IndexInverse, WithinLimits, Index, Sizes, Total;
    InsertWithinLimits(p, tx);
    IndexInverseKept(p.meta, p.index, MetaOf(tx), tx.id);
    SizesUpdate(p.meta, tx.id, MetaOf(tx));
  }

  /** Removal keeps the agreement; the byte counter is reduced exactly, also where the code clamps it to zero. */
  lemma RemoveAgrees(p: Pool, id: string)
    requires Agrees(p)
    ensures Agrees(Remove(p, id))
    ensures id in p.txs ==> Remove(p, id).bytes == p.bytes - p.meta[id].size
    ensures Remove(p, id).txs == p.txs - {id}
  {
    hide EstimatedSize, WithinResourceBounds, IndexInverse, Unindex, Total, Sizes, SameIds;
    if id in p.txs {
      RemoveSameIds(p, id);
      UnindexInverseKept(p.meta, p.index, id);
      SizesRemove(p.meta, id);
      UnindexWithin(p, p.meta[id], id);
    }
  }

  lemma RemoveSameIds(p: Pool, id: string)
    requires SameIds(p) && id in p.txs
    ensures id in p.meta && SameIds(Remove(p, id)) && |p.txs - {id}| == |p.txs| - 1
  {
    hide EstimatedSize, Unindex;
    assert (p.txs - {id}).Keys == p.txs.Keys - {id};
    assert (p.meta - {id}).Keys == p.meta.Keys - {id};
    assert |(p.txs - {id}).Keys| == |p.txs.Keys| - 1;
  }

  lemma UnindexWithin(p: Pool, m: Meta, id: string)
    requires WithinLimits(p)
    ensures forall s :: s in Unindex(p.index, m, id) ==> |Unindex(p.index, m, id)[s]| <= MAX_POOL_PER_SENDER
  {
    if m.sender in p.index {
      var nonces := p.index[m.sender];
      var left := nonces - {m.nonce};
      assert left.Keys <= nonces.Keys;
      SubsetSize(left.Keys, nonces.Keys);
      assert |left.Keys| == |left| && |nonces.Keys| == |nonces|;
    }
  }

  lemma {:induction false} SubsetSize(a: set<u64>, b: set<u64>)
    requires a <= b
    ensures |a| <= |b|
  {
    if a != {} {
      var x :| x in a;
      SubsetSize(a - {x}, b - {x});
    }
  }

  /** Removing a transaction that was just added restores the pool exactly, index and counter included. */
  lemma AddThenRemove(p: Pool, tx: Tx)
    requires Agrees(p) && Add(p, tx).Ok?
    ensures Remove(Add(p, tx).value, tx.id) == p
  {
    hide EstimatedSize, WithinResourceBounds, WithinLimits, Unindex, Index, Agrees, MetaOf;
    AgreementFacts(p, tx);
    UnindexUndoesIndex(p.index, MetaOf(tx), tx.id);
    assert p.txs[tx.id := tx] - {tx.id} == p.txs;
    assert p.meta[tx.id := MetaOf(tx)] - {tx.id} == p.meta;
  }

  lemma AgreementFacts(p: Pool, tx: Tx)
    requires Agrees(p) && Add(p, tx).Ok?
    ensures p.bytes >= 0 && NoEmptySender(p.index) && tx.id !in p.txs && tx.id !in p.meta
    ensures MetaOf(tx).sender == tx.sender && MetaOf(tx).nonce == tx.nonce && MetaOf(tx).size == EstimatedSize(tx)
    ensures tx.sender in p.index ==> tx.nonce !in p.index[tx.sender]
  {
    hide EstimatedSize, WithinResourceBounds, WithinLimits, Names, Total, Sizes;
  }

  lemma UnindexUndoesIndex(index: map<string, map<u64, string>>, m: Meta, id: string)
    requires NoEmptySender(index)
    requires m.sender in index ==> m.nonce !in index[m.sender]
    ensures Unindex(Index(index, m, id), m, id) == index
  {
    var before: map<u64, string> := if m.sender in index then index[m.sender] else map[];
    assert before[m.nonce := id] - {m.nonce} == before;
    if m.sender !in index {
      assert Index(index, m, id) - {m.sender} == index;
    }
  }

  datatype PoolOp = AddOp(tx: Tx) | RemoveOp(id: string) | ClearOp

  function ApplyOp(p: Pool, op: PoolOp): Pool {
    match op
    case AddOp(tx) => (var r := Add(p, tx); if r.Ok? then r.value else p)
    case RemoveOp(id) => Remove(p, id)
    case ClearOp => EMPTY_POOL
  }

  function ApplyOps(ops: seq<PoolOp>): Pool {
    if ops == [] then EMPTY_POOL else ApplyOp(ApplyOps(ops[..|ops| - 1]), ops[|ops| - 1])
  }

  lemma EmptyAgrees()
    ensures Agrees(EMPTY_POOL)
  {
    assert Sizes(EMPTY_POOL.meta) == map[];
  }

  /** Every run of additions, removals and clears, successful or refused, keeps the maps in agreement. */
  lemma {:induction false} EveryRunAgrees(ops: seq<PoolOp>)
    ensures Agrees(ApplyOps(ops))
  {
    hide Agrees, Add, Remove;
    EmptyAgrees();
    if ops != [] {
      var before := ApplyOps(ops[..|ops| - 1]);
      EveryRunAgrees(ops[..|ops| - 1]);
      match ops[|ops| - 1]
      case AddOp(tx) => if Add(before, tx).Ok? { AddAgrees(before, tx); }
      case RemoveOp(id) => RemoveAgrees(before, id);
      case ClearOp =>
    }
  }
}
