/** Cursor pagination over confirmed transactions (explorerConfirmedPage in rpc/explorer_cursor.go). */
module Explorer {
  import opened Prelude
  import opened Params
  import opened Transactions
  import opened Blocks
  import opened Chains
  import opened ChainObject
  import opened Replaying
  import opened Cursors
  import opened Commitments

  const MAX_SCAN_BLOCKS := 2000

  datatype Confirmed = Confirmed(tx: Tx, height: nat, blockHash: string, timestamp: int)

  datatype ExplorerError = InvalidCursor | StaleCursor

  /** A place in the newest-first listing: a block and an offset into its transactions. */
  datatype Position = Position(height: nat, offset: nat)

  predicate Concerns(address: string, tx: Tx) {
    address == "" || tx.sender == address || tx.receiver == address
  }

  ghost predicate InHistory(blocks: seq<Block>, p: Position) {
    p.height < |blocks| && p.offset <= |blocks[p.height].txs|
  }

  function Entry(sha: Sha, b: Block, tx: Tx, height: nat): Confirmed {
    Confirmed(tx, height, BlockHash(sha, b), b.timestamp)
  }

  /** The matching transactions of one block from an offset on. */
  function BlockEntries(sha: Sha, b: Block, address: string, height: nat, offset: nat): seq<Confirmed>
    decreases |b.txs| - offset
  {
    if offset >= |b.txs| then []
    else
      (if Concerns(address, b.txs[offset]) then [Entry(sha, b, b.txs[offset], height)] else [])
      + BlockEntries(sha, b, address, height, offset + 1)
  }

  /** The whole listing from a position on: the rest of its block, then every older block. */
  function Entries(sha: Sha, blocks: seq<Block>, address: string, height: nat, offset: nat): seq<Confirmed>
    requires height < |blocks|
    decreases height
  {
    BlockEntries(sha, blocks[height], address, height, offset)
    + (if height == 0 then [] else Entries(sha, blocks, address, height - 1, 0))
  }

  function From(sha: Sha, blocks: seq<Block>, address: string, p: Position): seq<Confirmed>
    requires p.height < |blocks|
  {
    Entries(sha, blocks, address, p.height, p.offset)
  }

  /** What one page promises: the entries up to the next position, at most `limit`, with progress; it scans at most 2,000
      blocks and stops early only at the limit or after that many. */
  ghost predicate IsPage(sha: Sha, blocks: seq<Block>, address: string, limit: nat, start: Position,
                         page: seq<Confirmed>, next: Option<Position>)
  {
    && InHistory(blocks, start) && |page| <= limit
    && match next
       case None => page == From(sha, blocks, address, start) && start.height < 2000
       case Some(p) =>
         && InHistory(blocks, p) && start.height - p.height <= 2000
         && From(sha, blocks, address, start) == page + From(sha, blocks, address, p)
         && (p.height < start.height || (p.height == start.height && p.offset > start.offset))
         && (|page| == limit || start.height - p.height >= 2000)
  }

  function CursorAt(sha: Sha, blocks: seq<Block>, p: Position): string
    requires Found(blocks, p.height) && p.offset <= MAX_U64
  {
    EncodeCursor(Cursor(p.height, p.offset, BlockHash(sha, blocks[p.height])))
  }

  function TipHeight(blocks: seq<Block>): nat {
    if blocks == [] then 0 else blocks[|blocks| - 1].height
  }

  /** Where a request starts: at its cursor if the named block is still there, below a height, or at the tip. */
  function StartOf(sha: Sha, blocks: seq<Block>, rawCursor: string, before: Option<nat>): Result<Option<Position>, ExplorerError> {
    var tip := TipHeight(blocks);
    if rawCursor != "" then
      var cursor := DecodeCursor(rawCursor);
      if before.Some? || cursor.None? || cursor.value.height > tip then Err(InvalidCursor)
      else if !Found(blocks, cursor.value.height) then Err(StaleCursor)
      else if BlockHash(sha, blocks[cursor.value.height]) != cursor.value.blockHash then Err(StaleCursor)
      else if cursor.value.offset > |blocks[cursor.value.height].txs| then Err(InvalidCursor)
      else Ok(Some(Position(cursor.value.height, cursor.value.offset)))
    else if before.Some? then
      if before.value == 0 then Ok(None)
      else Ok(Some(Position(if before.value - 1 < tip then before.value - 1 else tip, 0)))
    else Ok(Some(Position(tip, 0)))
  }

  /** Go slices hold fewer than 2^63 elements, so every offset fits its field. */
  ghost predicate Representable(blocks: seq<Block>) {
    forall i :: 0 <= i < |blocks| ==> |blocks[i].txs| <= MAX_U64
  }

  /** The inner loop: take matching transactions of one block until the page is full; `stop` is the index of the first
      one that no longer fits. */
  method ScanBlock(sha: Sha, b: Block, address: string, height: nat, offset: nat, limit: nat, taken: seq<Confirmed>)
    returns (result: seq<Confirmed>, stop: Option<nat>)
    requires |taken| <= limit && offset <= |b.txs|
    ensures |result| <= limit
    ensures stop.None? ==> result == taken + BlockEntries(sha, b, address, height, offset)
    ensures stop.Some? ==>
              && offset <= stop.value < |b.txs| && |result| == limit
              && (|taken| < limit ==> offset < stop.value)
              && taken + BlockEntries(sha, b, address, height, offset)
                 == result + BlockEntries(sha, b, address, height, stop.value)
  {
    hide BlockHash;
    result := taken;
    var blockHash := BlockHash(sha, b);
    ghost var all := taken + BlockEntries(sha, b, address, height, offset);
    for index := offset to |b.txs|
      invariant |result| <= limit
      invariant all == result + BlockEntries(sha, b, address, height, index)
      invariant index == offset ==> result == taken
    {
      var tx := b.txs[index];
      if address == "" || tx.sender == address || tx.receiver == address {
        if |result| == limit {
          return result, Some(index);
        }
        assert result + ([Entry(sha, b, tx, height)] + BlockEntries(sha, b, address, height, index + 1))
            == (result + [Entry(sha, b, tx, height)]) + BlockEntries(sha, b, address, height, index + 1);
        result := result + [Confirmed(tx, height, blockHash, b.timestamp)];
      }
    }
    return result, None;
  }

  // ----- what is listed

  /** Transaction i of block h is at or below the start and concerns the address. */
  predicate ListedAt(blocks: seq<Block>, address: string, height: nat, offset: nat, h: nat, i: nat) {
    && h <= height < |blocks| && i < |blocks[h].txs| && (h == height ==> i >= offset)
    && (address == "" || blocks[h].txs[i].sender == address || blocks[h].txs[i].receiver == address)
  }

  lemma {:induction false} BlockListedExactly(sha: Sha, b: Block, address: string, height: nat, offset: nat, e: Confirmed)
    ensures e in BlockEntries(sha, b, address, height, offset) <==>
            exists i :: offset <= i < |b.txs| && Concerns(address, b.txs[i]) && e == Entry(sha, b, b.txs[i], height)
    decreases |b.txs| - offset
  {
    hide Entry, Concerns;
    if offset < |b.txs| {
      BlockListedExactly(sha, b, address, height, offset + 1, e);
    }
  }

  /** The entry is transaction i of the block at its height. */
  predicate IsEntry(sha: Sha, blocks: seq<Block>, e: Confirmed, i: nat) {
    && e.height < |blocks| && i < |blocks[e.height].txs| && e.tx == blocks[e.height].txs[i]
    && e.blockHash == BlockHash(sha, blocks[e.height]) && e.timestamp == blocks[e.height].timestamp
  }

  /** An entry is listed exactly when it is a transaction of a block at or below the start whose sender or receiver is the
      address, or any one if the address is empty. */
  lemma {:induction false} ListedExactly(sha: Sha, blocks: seq<Block>, address: string, height: nat, offset: nat, e: Confirmed)
    requires height < |blocks|
    ensures e in Entries(sha, blocks, address, height, offset) <==>
            exists i: nat :: IsEntry(sha, blocks, e, i) && ListedAt(blocks, address, height, offset, e.height, i)
    decreases height
  {
    hide BlockEntries, BlockHash, Entries, ListedAt, IsEntry;
    EntriesSplit(sha, blocks, address, height, offset);
    ListedHere(sha, blocks, address, height, offset, e);
    if height > 0 {
      var below := height - 1;
      ListedExactly(sha, blocks, address, below, 0, e);
      forall i: nat | e.height < height
        ensures ListedAt(blocks, address, height, offset, e.height, i) <==> ListedAt(blocks, address, below, 0, e.height, i)
      {
        ListedBelow(blocks, address, height, offset, e.height, i);
      }
      forall i: nat ensures ListedAt(blocks, address, below, 0, e.height, i) ==> e.height < height {
        ListedIsBelow(blocks, address, below, 0, e.height, i);
      }
    }
    forall i: nat ensures ListedAt(blocks, address, height, offset, e.height, i) ==> e.height <= height {
      ListedIsBelow(blocks, address, height, offset, e.height, i);
    }
  }

  lemma ListedIsBelow(blocks: seq<Block>, address: string, height: nat, offset: nat, h: nat, i: nat)
    ensures ListedAt(blocks, address, height, offset, h, i) ==> h <= height
  {
  }

  lemma ListedBelow(blocks: seq<Block>, address: string, height: nat, offset: nat, h: nat, i: nat)
    requires h < height < |blocks|
    ensures ListedAt(blocks, address, height, offset, h, i) <==> ListedAt(blocks, address, height - 1, 0, h, i)
  {
  }

  lemma ListedHere(sha: Sha, blocks: seq<Block>, address: string, height: nat, offset: nat, e: Confirmed)
    requires height < |blocks|
    ensures e in BlockEntries(sha, blocks[height], address, height, offset) <==>
            e.height == height
            && exists i: nat :: IsEntry(sha, blocks, e, i) && ListedAt(blocks, address, height, offset, e.height, i)
  {
    hide BlockEntries, BlockHash;
    var b := blocks[height];
    BlockListedExactly(sha, b, address, height, offset, e);
    if i: nat :| offset <= i < |b.txs| && Concerns(address, b.txs[i]) && e == Entry(sha, b, b.txs[i], height) {
      assert IsEntry(sha, blocks, e, i) && ListedAt(blocks, address, height, offset, e.height, i);
    }
    if e.height == height {
      if i: nat :| IsEntry(sha, blocks, e, i) && ListedAt(blocks, address, height, offset, e.height, i) {
        assert e == Entry(sha, b, b.txs[i], height);
      }
    }
  }

  function Older(sha: Sha, blocks: seq<Block>, address: string, height: nat): seq<Confirmed>
    requires height < |blocks|
  {
    if height == 0 then [] else Entries(sha, blocks, address, height - 1, 0)
  }

  lemma EntriesSplit(sha: Sha, blocks: seq<Block>, address: string, height: nat, offset: nat)
    requires height < |blocks|
    ensures Entries(sha, blocks, address, height, offset)
            == BlockEntries(sha, blocks[height], address, height, offset) + Older(sha, blocks, address, height)
  {
    hide BlockEntries;
  }

  /** A prefix of the listing that stops inside a block continues with the rest of it and the older blocks. */
  lemma Regroup(sha: Sha, blocks: seq<Block>, address: string, height: nat, offset: nat, taken: seq<Confirmed>)
    requires height < |blocks|
    ensures taken + Entries(sha, blocks, address, height, offset)
            == (taken + BlockEntries(sha, blocks[height], address, height, offset)) + Older(sha, blocks, address, height)
  {
    hide BlockEntries;
  }

  /** The outer loop: scan blocks downwards until the page is full, the scan cap is reached or genesis is done. None is
      a height without its block, which no chain with block i at height i has. */
  method ScanPage(sha: Sha, chain: Chain, address: string, limit: nat, start: Position)
    returns (r: Option<(seq<Confirmed>, Option<Position>)>)
    requires limit > 0 && (start.height < |chain.blocks| ==> start.offset <= |chain.blocks[start.height].txs|)
    ensures r.None? ==> exists h :: 0 <= h <= start.height && !Found(chain.blocks, h)
    ensures r.Some? ==> IsPage(sha, chain.blocks, address, limit, start, r.value.0, r.value.1)
    ensures r.Some? && r.value.1.Some? ==> Found(chain.blocks, r.value.1.value.height)
  {
    hide BlockHash, BlockEntries, Entries;
    if chain.BlockByHeight(start.height).None? {
      assert !Found(chain.blocks, start.height);
      return None;
    }
    ghost var blocks := chain.blocks;
    ghost var all := Entries(sha, blocks, address, start.height, start.offset);
    var result: seq<Confirmed> := [];
    var scannedBlocks := 0;
    var height, offset := start.height, start.offset;
    while true
      invariant 0 <= height <= start.height && scannedBlocks == start.height - height < MAX_SCAN_BLOCKS
      invariant offset == if height == start.height then start.offset else 0
      invariant |result| <= limit && (height == start.height ==> result == [])
      invariant all == result + Entries(sha, blocks, address, height, offset)
      decreases height
    {
      var found := chain.BlockByHeight(height);
      if found.None? {
        assert !Found(blocks, height);
        return None;
      }
      Regroup(sha, blocks, address, height, offset, result);
      var stop;
      result, stop := ScanBlock(sha, found.value, address, height, offset, limit, result);
      if stop.Some? {
        Regroup(sha, blocks, address, height, stop.value, result);
        return Some((result, Some(Position(height, stop.value))));
      }
      scannedBlocks := scannedBlocks + 1;
      if height == 0 {
        assert result + [] == result;
        return Some((result, None));
      }
      if scannedBlocks >= MAX_SCAN_BLOCKS {
        if chain.BlockByHeight(height - 1).None? {
          assert !Found(blocks, height - 1);
          return None;
        }
        return Some((result, Some(Position(height - 1, 0))));
      }
      height, offset := height - 1, 0;
    }
  }

  /** Where the scan begins: the part of explorerConfirmedPage before its loops. */
  method ResolveStart(sha: Sha, chain: Chain, rawCursor: string, before: Option<nat>)
    returns (r: Result<Option<Position>, ExplorerError>)
    ensures r == StartOf(sha, chain.blocks, rawCursor, before)
  {
    hide BlockHash, DecodeCursor;
    if rawCursor != "" && before.Some? {
      return Err(InvalidCursor);
    }
    var chainHeight: nat := chain.Height();
    var startHeight := chainHeight;
    var startOffset := 0;
    if rawCursor != "" {
      var cursor := DecodeCursor(rawCursor);
      if cursor.None? || cursor.value.height > chainHeight {
        return Err(InvalidCursor);
      }
      var block := chain.BlockByHeight(cursor.value.height);
      if block.None? {
        return Err(StaleCursor);
      }
      if BlockHash(sha, block.value) != cursor.value.blockHash {
        return Err(StaleCursor);
      }
      if cursor.value.offset > |block.value.txs| {
        return Err(InvalidCursor);
      }
      startHeight, startOffset := cursor.value.height, cursor.value.offset;
    } else if before.Some? {
      if before.value == 0 {
        return Ok(None);
      }
      var candidate := before.value - 1;
      if candidate < startHeight {
        startHeight := candidate;
      }
    }
    return Ok(Some(Position(startHeight, startOffset)));
  }

  /** One page of confirmed transactions, newest block first, and the cursor of the next page ("" at the end). */
  method ConfirmedPage(sha: Sha, chain: Chain, address: string, limit: int, rawCursor: string, before: Option<nat>)
    returns (r: Result<(seq<Confirmed>, string), ExplorerError>, ghost next: Option<Position>)
    requires Representable(chain.blocks)
    ensures limit <= 0 ==> r == Err(InvalidCursor)
    ensures limit > 0 ==>
              match StartOf(sha, chain.blocks, rawCursor, before)
              case Err(e) => r == Err(e)
              case Ok(None) => r == Ok(([], ""))
              case Ok(Some(start)) =>
                && (r.Err? ==> r.error == StaleCursor && exists h :: 0 <= h <= start.height && !Found(chain.blocks, h))
                && (r.Ok? ==>
                      && Answers(sha, chain.blocks, address, limit, rawCursor, before, r.value.0, r.value.1)
                      && IsPage(sha, chain.blocks, address, limit, start, r.value.0, next)
                      && (next.None? ==> r.value.1 == "")
                      && (next.Some? ==> InHistory(chain.blocks, next.value) && Found(chain.blocks, next.value.height)
                                         && r.value.1 == CursorAt(sha, chain.blocks, next.value)))
  {
    hide BlockHash, DecodeCursor, EncodeCursor;
    next := None;
    if limit <= 0 {
      return Err(InvalidCursor), next;
    }
    var startAt := ResolveStart(sha, chain, rawCursor, before);
    if startAt.Err? {
      return Err(startAt.error), next;
    }
    if startAt.value.None? {
      return Ok(([], "")), next;
    }
    var scanned := ScanPage(sha, chain, address, limit, startAt.value.value);
    if scanned.None? {
      return Err(StaleCursor), next;
    }
    next := scanned.value.1;
    if scanned.value.1.None? {
      return Ok((scanned.value.0, "")), next;
    }
    return Ok((scanned.value.0, CursorAt(sha, chain.blocks, scanned.value.1.value))), next;
  }

  /** On a chain with block i at height i every request with a positive limit and a good start is answered. */
  lemma StartIsInHistory(sha: Sha, blocks: seq<Block>, rawCursor: string, before: Option<nat>)
    requires blocks != [] && HeightsCount(blocks)
    ensures var r := StartOf(sha, blocks, rawCursor, before);
            r.Ok? && r.value.Some? ==> InHistory(blocks, r.value.value)
                                       && forall h :: 0 <= h <= r.value.value.height ==> Found(blocks, h)
  {
    hide BlockHash, DecodeCursor;
  }

  // ----- following cursors

  /** The cursor of a page is accepted exactly while the block it names keeps its hash, and leads back to its position. */
  lemma CursorLeadsBack(sha: Sha, blocks: seq<Block>, later: seq<Block>, p: Position)
    requires later != [] && HeightsCount(later) && InHistory(blocks, p) && p.offset <= MAX_U64 && Found(blocks, p.height)
    ensures var r := StartOf(sha, later, CursorAt(sha, blocks, p), None);
            && (r.Ok? ==>
                  && r == Ok(Some(p)) && InHistory(later, p)
                  && BlockHash(sha, later[p.height]) == BlockHash(sha, blocks[p.height]))
            && ((p.height < |later| && BlockHash(sha, later[p.height]) == BlockHash(sha, blocks[p.height])
                 && p.offset <= |later[p.height].txs|) ==> r.Ok?)
            && (p.height < |later| && BlockHash(sha, later[p.height]) != BlockHash(sha, blocks[p.height]) ==>
                  r == Err(StaleCursor))
  {
    hide EncodeCursor, DecodeCursor;
    CursorRoundTrip(Cursor(p.height, p.offset, BlockHash(sha, blocks[p.height])));
    hide BlockHash;
  }

  /** One answered request: its page and the cursor it hands out, which is empty at the end. */
  ghost predicate Answers(sha: Sha, blocks: seq<Block>, address: string, limit: nat, raw: string, before: Option<nat>,
                          page: seq<Confirmed>, nextRaw: string)
  {
    match StartOf(sha, blocks, raw, before)
    case Err(_) => false
    case Ok(None) => page == [] && nextRaw == ""
    case Ok(Some(start)) =>
      exists next :: IsPage(sha, blocks, address, limit, start, page, next) && IsCursorOf(sha, blocks, next, nextRaw)
  }

  ghost predicate IsCursorOf(sha: Sha, blocks: seq<Block>, next: Option<Position>, raw: string) {
    match next
    case None => raw == ""
    case Some(p) => Found(blocks, p.height) && p.offset <= |blocks[p.height].txs| <= MAX_U64 && raw == CursorAt(sha, blocks, p)
  }

  /** What a request lists if every page is fetched. */
  function Listing(sha: Sha, blocks: seq<Block>, address: string, raw: string, before: Option<nat>): seq<Confirmed> {
    match StartOf(sha, blocks, raw, before)
    case Ok(Some(start)) => if start.height < |blocks| then From(sha, blocks, address, start) else []
    case _ => []
  }

  /** Request k of a traversal was answered from history k; later requests use the cursor handed out before. */
  ghost predicate FollowsAt(sha: Sha, address: string, limit: nat, before: Option<nat>, histories: seq<seq<Block>>,
                            raws: seq<string>, pages: seq<seq<Confirmed>>, k: nat)
    requires k < |histories| == |pages| && |raws| == |pages| + 1
  {
    && Answers(sha, histories[k], address, limit, raws[k], if k == 0 then before else None, pages[k], raws[k + 1])
    && (k > 0 ==> raws[k] != "")
  }

  /** A traversal, finished or not: each page is requested with the cursor that came with the page before it. */
  ghost predicate Follows(sha: Sha, address: string, limit: nat, before: Option<nat>, histories: seq<seq<Block>>,
                          raws: seq<string>, pages: seq<seq<Confirmed>>)
  {
    && |histories| == |pages| > 0 && |raws| == |pages| + 1
    && forall k :: 0 <= k < |pages| ==> FollowsAt(sha, address, limit, before, histories, raws, pages, k)
  }

  lemma TailFollows(sha: Sha, address: string, limit: nat, before: Option<nat>, histories: seq<seq<Block>>,
                    raws: seq<string>, pages: seq<seq<Confirmed>>)
    requires Follows(sha, address, limit, before, histories, raws, pages) && |pages| > 1
    ensures Follows(sha, address, limit, None, histories[1..], raws[1..], pages[1..])
  {
    hide Answers;
    forall k | 0 <= k < |pages| - 1
      ensures FollowsAt(sha, address, limit, None, histories[1..], raws[1..], pages[1..], k)
    {
      assert FollowsAt(sha, address, limit, before, histories, raws, pages, k + 1);
    }
  }

  /** The page of the first request and where it leads. */
  lemma FirstPage(sha: Sha, address: string, limit: nat, before: Option<nat>, histories: seq<seq<Block>>,
                  raws: seq<string>, pages: seq<seq<Confirmed>>) returns (start: Option<Position>, next: Option<Position>)
    requires Follows(sha, address, limit, before, histories, raws, pages)
    ensures StartOf(sha, histories[0], raws[0], before) == Ok(start)
    ensures start.None? ==> next == None && pages[0] == [] && raws[1] == ""
    ensures start.Some? ==> IsPage(sha, histories[0], address, limit, start.value, pages[0], next)
                            && IsCursorOf(sha, histories[0], next, raws[1])
    ensures raws[1] == "" <==> next.None?
  {
    hide IsPage, StartOf, EncodeCursor, BlockHash;
    assert FollowsAt(sha, address, limit, before, histories, raws, pages, 0);
    start := StartOf(sha, histories[0], raws[0], before).value;
    if start.None? {
      next := None;
    } else {
      next :| IsPage(sha, histories[0], address, limit, start.value, pages[0], next)
              && IsCursorOf(sha, histories[0], next, raws[1]);
      if next.Some? {
        var p := next.value;
        CursorRoundTrip(Cursor(p.height, p.offset, BlockHash(sha, histories[0][p.height])));
      }
    }
  }

  function Concat(pages: seq<seq<Confirmed>>): seq<Confirmed> {
    if pages == [] then [] else pages[0] + Concat(pages[1..])
  }

  // ----- a chain that only grows

  lemma {:induction false} EntriesDependOnPrefix(sha: Sha, a: seq<Block>, b: seq<Block>, address: string, height: nat, offset: nat)
    requires a <= b && height < |a|
    ensures Entries(sha, a, address, height, offset) == Entries(sha, b, address, height, offset)
    decreases height
  {
    hide BlockEntries;
    if height > 0 {
      EntriesDependOnPrefix(sha, a, b, address, height - 1, 0);
    }
  }

  ghost predicate GrowsAt(histories: seq<seq<Block>>, k: nat)
    requires k < |histories|
  {
    histories[k] != [] && HeightsCount(histories[k]) && (k > 0 ==> histories[k - 1] <= histories[k])
  }

  /** While blocks are only appended, following cursors to the empty one lists exactly the matching transactions of the
      first page's history, in order, without gap or repeat. */
  lemma {:induction false} FollowingGrowingChain(sha: Sha, address: string, limit: nat, before: Option<nat>,
                                                 histories: seq<seq<Block>>, raws: seq<string>, pages: seq<seq<Confirmed>>)
    requires Follows(sha, address, limit, before, histories, raws, pages) && raws[|pages|] == ""
    requires forall k :: 0 <= k < |histories| ==> GrowsAt(histories, k)
    ensures Concat(pages) == Listing(sha, histories[0], address, raws[0], before)
    decreases |pages|
  {
    hide Entries, StartOf, Answers, BlockHash;
    var start, next := FirstPage(sha, address, limit, before, histories, raws, pages);
    if |pages| == 1 {
      assert Concat(pages[1..]) == [];
    } else {
      TailFollows(sha, address, limit, before, histories, raws, pages);
      assert GrowsAt(histories, 0) && GrowsAt(histories, 1);
      forall k | 0 <= k < |histories| - 1 ensures GrowsAt(histories[1..], k) {
        assert GrowsAt(histories, k + 1);
      }
      FollowingGrowingChain(sha, address, limit, None, histories[1..], raws[1..], pages[1..]);
      SecondStart(sha, address, limit, before, histories, raws, pages, next);
      var p := next.value;
      EntriesDependOnPrefix(sha, histories[0], histories[1], address, p.height, p.offset);
    }
  }

  /** The second request starts where the first page ended, at a block of unchanged hash. */
  lemma SecondStart(sha: Sha, address: string, limit: nat, before: Option<nat>, histories: seq<seq<Block>>,
                    raws: seq<string>, pages: seq<seq<Confirmed>>, next: Option<Position>)
    requires Follows(sha, address, limit, before, histories, raws, pages) && |pages| > 1
    requires IsCursorOf(sha, histories[0], next, raws[1]) && histories[1] != [] && HeightsCount(histories[1])
    ensures next.Some? && InHistory(histories[0], next.value) && InHistory(histories[1], next.value)
    ensures StartOf(sha, histories[1], raws[1], None) == Ok(next)
    ensures BlockHash(sha, histories[1][next.value.height]) == BlockHash(sha, histories[0][next.value.height])
  {
    hide IsPage, StartOf, EncodeCursor, BlockHash;
    assert FollowsAt(sha, address, limit, before, histories, raws, pages, 1);
    CursorLeadsBack(sha, histories[0], histories[1], next.value);
  }

  // ----- any chains

  /** What a reader sees of an entry: everything but key and signature. */
  datatype Shown = Shown(id: string, payment: Payment, height: nat, blockHash: string, timestamp: int)

  function ShownOf(e: Confirmed): Shown {
    Shown(e.tx.id, PaymentOf(e.tx), e.height, e.blockHash, e.timestamp % 0x1_0000_0000_0000_0000)
  }

  function ShownAll(es: seq<Confirmed>): (r: seq<Shown>)
    ensures |r| == |es|
  {
    seq(|es|, i requires 0 <= i < |es| => ShownOf(es[i]))
  }

  lemma ShownOfSum(a: seq<Confirmed>, b: seq<Confirmed>)
    ensures ShownAll(a + b) == ShownAll(a) + ShownAll(b)
  {
    hide ShownOf;
  }

  ghost predicate ListsAlikeAt(sha: Sha, a: seq<Block>, b: seq<Block>, i: nat)
    requires i < |a| && i < |b|
  {
    && SamePayments(a[i].txs, b[i].txs) && BlockHash(sha, a[i]) == BlockHash(sha, b[i])
    && a[i].timestamp % 0x1_0000_0000_0000_0000 == b[i].timestamp % 0x1_0000_0000_0000_0000
  }

  ghost predicate ListsAlike(sha: Sha, a: seq<Block>, b: seq<Block>, height: nat) {
    height < |a| && height < |b| && forall i :: 0 <= i <= height ==> ListsAlikeAt(sha, a, b, i)
  }

  lemma {:induction false} BlockEntriesAlike(sha: Sha, b: Block, c: Block, address: string, height: nat, offset: nat)
    requires SamePayments(b.txs, c.txs) && BlockHash(sha, b) == BlockHash(sha, c)
    requires b.timestamp % 0x1_0000_0000_0000_0000 == c.timestamp % 0x1_0000_0000_0000_0000
    ensures ShownAll(BlockEntries(sha, b, address, height, offset)) == ShownAll(BlockEntries(sha, c, address, height, offset))
    decreases |b.txs| - offset
  {
    hide BlockHash;
    if offset < |b.txs| {
      BlockEntriesAlike(sha, b, c, address, height, offset + 1);
      var t, u := b.txs[offset], c.txs[offset];
      assert t.id == u.id && PaymentOf(t) == PaymentOf(u);
      var bs, cs := BlockEntries(sha, b, address, height, offset + 1), BlockEntries(sha, c, address, height, offset + 1);
      var x, y := Entry(sha, b, t, height), Entry(sha, c, u, height);
      assert ShownAll([x]) == [ShownOf(x)] == [ShownOf(y)] == ShownAll([y]);
      ShownOfSum([x], bs);
      ShownOfSum([y], cs);
      assert [] + bs == bs && [] + cs == cs;
    }
  }

  lemma {:induction false} EntriesAlike(sha: Sha, a: seq<Block>, b: seq<Block>, address: string, height: nat, offset: nat)
    requires ListsAlike(sha, a, b, height)
    ensures ShownAll(Entries(sha, a, address, height, offset)) == ShownAll(Entries(sha, b, address, height, offset))
    decreases height
  {
    hide BlockEntries, BlockHash, ShownAll;
    assert ListsAlikeAt(sha, a, b, height);
    BlockEntriesAlike(sha, a[height], b[height], address, height, offset);
    EntriesSplit(sha, a, address, height, offset);
    EntriesSplit(sha, b, address, height, offset);
    ShownOfSum(BlockEntries(sha, a[height], address, height, offset), Older(sha, a, address, height));
    ShownOfSum(BlockEntries(sha, b[height], address, height, offset), Older(sha, b, address, height));
    if height > 0 {
      EntriesAlike(sha, a, b, address, height - 1, 0);
    }
  }

  /** A history that a node can serve: sealed blocks at their heights above a genesis block without transactions. */
  ghost predicate Served(sha: Sha, blocks: seq<Block>) {
    blocks != [] && HeightsCount(blocks) && SealedChain(sha, blocks) && blocks[0].txs == []
  }

  ghost predicate ServedAt(sha: Sha, histories: seq<seq<Block>>, inputs: set<string>, k: nat)
    requires k < |histories|
  {
    Served(sha, histories[k]) && ChainInputs(sha, histories[k]) <= inputs
  }

  /** Every valid chain that replays, on a genesis block without transactions, is such a history. */
  lemma ReplayedIsServed(sha: Sha, cfg: Config, check: SignatureCheck, policy: Policy, blocks: seq<Block>)
    requires ValidChain(sha, cfg, blocks) && GenuineGenesis(sha, cfg.network, blocks) && ChecksIds(sha, check)
    requires !policy.OtherPolicy? && Replay(check, policy, blocks).Ok? && blocks[0].txs == []
    ensures Served(sha, blocks)
  {
    hide Extends, GenesisFault, Replay, ChecksIds, GenuineGenesis, Sealed, BlockHash;
    ReplayedIsSealed(sha, cfg, check, policy, blocks);
    forall i | 0 <= i < |blocks| ensures blocks[i].height == i {
      ChainShape(sha, cfg, blocks, i);
    }
  }

  /** Two histories that agree on one hash list the same from there down. */
  lemma SameHashListsAlike(sha: Sha, a: seq<Block>, b: seq<Block>, h: nat, inputs: set<string>)
    requires Served(sha, a) && Served(sha, b) && h < |a| && h < |b|
    requires CollisionFree(sha, inputs) && ChainInputs(sha, a) <= inputs && ChainInputs(sha, b) <= inputs
    requires BlockHash(sha, a[h]) == BlockHash(sha, b[h])
    ensures ListsAlike(sha, a, b, h)
  {
    hide BlockHash, CollisionFree, ChainInputs, SealedChain, Header, HeightsCount;
    forall i | 0 <= i <= h ensures ListsAlikeAt(sha, a, b, i) {
      SameHashSameHistory(sha, a, b, h, i, inputs);
      if i == 0 {
        HeaderDetermines(a[0], b[0]);
      }
    }
  }

  /**
   Whatever happens to the chain between the requests, a traversal whose requests are all answered and that reaches the
   empty cursor shows exactly the matching transactions of the first page's history, in order, without gap or repeat:
   accepted pages never mix two histories.
   */
  lemma {:induction false} FollowingListsAll(sha: Sha, address: string, limit: nat, before: Option<nat>,
                                             histories: seq<seq<Block>>, raws: seq<string>, pages: seq<seq<Confirmed>>,
                                             inputs: set<string>)
    requires Follows(sha, address, limit, before, histories, raws, pages) && raws[|pages|] == ""
    requires CollisionFree(sha, inputs) && forall k :: 0 <= k < |histories| ==> ServedAt(sha, histories, inputs, k)
    ensures ShownAll(Concat(pages)) == ShownAll(Listing(sha, histories[0], address, raws[0], before))
    decreases |pages|
  {
    hide Entries, StartOf, Answers, BlockHash, ShownAll, CollisionFree, ChainInputs, SealedChain, IsPage;
    var start, next := FirstPage(sha, address, limit, before, histories, raws, pages);
    if |pages| == 1 {
      LastPage(sha, histories[0], address, limit, start, pages[0]);
      assert Concat(pages) == pages[0] + [] == pages[0];
    } else {
      TailFollows(sha, address, limit, before, histories, raws, pages);
      assert ServedAt(sha, histories, inputs, 0) && ServedAt(sha, histories, inputs, 1);
      forall k | 0 <= k < |histories| - 1 ensures ServedAt(sha, histories[1..], inputs, k) {
        assert ServedAt(sha, histories, inputs, k + 1);
      }
      FollowingListsAll(sha, address, limit, None, histories[1..], raws[1..], pages[1..], inputs);
      SecondStart(sha, address, limit, before, histories, raws, pages, next);
      var p := next.value;
      SameHashListsAlike(sha, histories[0], histories[1], p.height, inputs);
      EntriesAlike(sha, histories[0], histories[1], address, p.height, p.offset);
      PageThenRest(sha, histories[0], address, limit, start.value, pages[0], p);
      ShownOfSum(pages[0], Concat(pages[1..]));
      ShownOfSum(pages[0], From(sha, histories[0], address, p));
    }
  }

  lemma LastPage(sha: Sha, blocks: seq<Block>, address: string, limit: nat, start: Option<Position>, page: seq<Confirmed>)
    requires start.None? ==> page == []
    requires start.Some? ==> IsPage(sha, blocks, address, limit, start.value, page, None)
    ensures start.Some? ==> start.value.height < |blocks| && page == From(sha, blocks, address, start.value)
  {
  }

  lemma PageThenRest(sha: Sha, blocks: seq<Block>, address: string, limit: nat, start: Position, page: seq<Confirmed>, p: Position)
    requires IsPage(sha, blocks, address, limit, start, page, Some(p))
    ensures InHistory(blocks, start) && InHistory(blocks, p)
    ensures From(sha, blocks, address, start) == page + From(sha, blocks, address, p)
  {
  }

  // ----- termination

  /** The positions left from p down to genesis. */
  function Remaining(blocks: seq<Block>, height: nat, offset: nat): int
    requires height < |blocks|
    decreases height
  {
    |blocks[height].txs| - offset + (if height == 0 then 0 else 1 + Remaining(blocks, height - 1, 0))
  }

  lemma {:induction false} RemainingFalls(blocks: seq<Block>, height: nat, p: Position)
    requires p.height < height < |blocks| && InHistory(blocks, p)
    ensures 0 <= Remaining(blocks, p.height, p.offset) < Remaining(blocks, height, |blocks[height].txs|)
    decreases height
  {
    RemainingIsNatural(blocks, p.height, p.offset);
    if p.height < height - 1 {
      RemainingFalls(blocks, height - 1, p);
    }
  }

  lemma {:induction false} RemainingIsNatural(blocks: seq<Block>, height: nat, offset: nat)
    requires height < |blocks| && offset <= |blocks[height].txs|
    ensures Remaining(blocks, height, offset) >= 0
    decreases height
  {
    if height > 0 {
      RemainingIsNatural(blocks, height - 1, 0);
    }
  }

  /** Every page leaves strictly less to list, also when it is cut by the scan cap with nothing on it, so following
      cursors ends. */
  lemma PagesMakeProgress(sha: Sha, blocks: seq<Block>, address: string, limit: nat, start: Position,
                          page: seq<Confirmed>, p: Position)
    requires IsPage(sha, blocks, address, limit, start, page, Some(p))
    ensures 0 <= Remaining(blocks, p.height, p.offset) < Remaining(blocks, start.height, start.offset)
  {
    hide From;
    RemainingIsNatural(blocks, p.height, p.offset);
    if p.height < start.height {
      RemainingFalls(blocks, start.height, p);
    }
  }

  lemma {:induction false} RemainingAlike(sha: Sha, a: seq<Block>, b: seq<Block>, height: nat, offset: nat)
    requires ListsAlike(sha, a, b, height)
    ensures Remaining(a, height, offset) == Remaining(b, height, offset)
    decreases height
  {
    hide BlockHash;
    assert ListsAlikeAt(sha, a, b, height);
    if height > 0 {
      RemainingAlike(sha, a, b, height - 1, 0);
    }
  }

  /** What a request has left to scan. */
  function Left(sha: Sha, blocks: seq<Block>, raw: string, before: Option<nat>): int {
    match StartOf(sha, blocks, raw, before)
    case Ok(Some(start)) => if start.height < |blocks| then Remaining(blocks, start.height, start.offset) else 0
    case _ => 0
  }

  /** Blocks at their heights, none with more transactions than a block may have. */
  ghost predicate SizedAt(histories: seq<seq<Block>>, k: nat)
    requires k < |histories|
  {
    && histories[k] != [] && HeightsCount(histories[k])
    && forall i :: 0 <= i < |histories[k]| ==> |histories[k][i].txs| <= MAX_BLOCK_TXS
  }

  /** The positions from a start down to genesis if every block were full. */
  function Room(sha: Sha, blocks: seq<Block>, raw: string, before: Option<nat>): int {
    match StartOf(sha, blocks, raw, before)
    case Ok(Some(start)) => start.height * (MAX_BLOCK_TXS + 1) + MAX_BLOCK_TXS - start.offset
    case _ => 0
  }

  /** No traversal goes on for ever: the number of pages answered, whether it has ended or not and whatever happens to the
      chain and its hashes, is bounded by where it started. */
  lemma {:induction false} FollowingEnds(sha: Sha, address: string, limit: nat, before: Option<nat>,
                                         histories: seq<seq<Block>>, raws: seq<string>, pages: seq<seq<Confirmed>>)
    requires Follows(sha, address, limit, before, histories, raws, pages)
    requires forall k :: 0 <= k < |histories| ==> SizedAt(histories, k)
    ensures |pages| <= 1 + Room(sha, histories[0], raws[0], before)
    decreases |pages|
  {
    hide StartOf, Answers, BlockHash, From;
    var start, next := FirstPage(sha, address, limit, before, histories, raws, pages);
    assert SizedAt(histories, 0);
    if |pages| > 1 {
      TailFollows(sha, address, limit, before, histories, raws, pages);
      assert FollowsAt(sha, address, limit, before, histories, raws, pages, 1);
      assert SizedAt(histories, 1);
      forall k | 0 <= k < |histories| - 1 ensures SizedAt(histories[1..], k) {
        assert SizedAt(histories, k + 1);
      }
      FollowingEnds(sha, address, limit, None, histories[1..], raws[1..], pages[1..]);
      SecondStart(sha, address, limit, before, histories, raws, pages, next);
    }
  }

  /** The same by what the first history holds: a traversal of n pages, whether it has ended or not, began with at least
      n - 1 positions left to scan, barring collisions. */
  lemma {:induction false} FollowingEndsWithin(sha: Sha, address: string, limit: nat, before: Option<nat>,
                                               histories: seq<seq<Block>>, raws: seq<string>, pages: seq<seq<Confirmed>>,
                                               inputs: set<string>)
    requires Follows(sha, address, limit, before, histories, raws, pages)
    requires CollisionFree(sha, inputs) && forall k :: 0 <= k < |histories| ==> ServedAt(sha, histories, inputs, k)
    ensures |pages| <= 1 + Left(sha, histories[0], raws[0], before)
    decreases |pages|
  {
    hide StartOf, Answers, BlockHash, CollisionFree, ChainInputs, SealedChain, IsPage, Remaining;
    var start, next := FirstPage(sha, address, limit, before, histories, raws, pages);
    if |pages| == 1 {
      if start.Some? {
        StartLeft(sha, histories[0], address, limit, start.value, pages[0], next);
      }
    } else {
      TailFollows(sha, address, limit, before, histories, raws, pages);
      assert FollowsAt(sha, address, limit, before, histories, raws, pages, 1);
      assert ServedAt(sha, histories, inputs, 0) && ServedAt(sha, histories, inputs, 1);
      forall k | 0 <= k < |histories| - 1 ensures ServedAt(sha, histories[1..], inputs, k) {
        assert ServedAt(sha, histories, inputs, k + 1);
      }
      FollowingEndsWithin(sha, address, limit, None, histories[1..], raws[1..], pages[1..], inputs);
      SecondStart(sha, address, limit, before, histories, raws, pages, next);
      var p := next.value;
      SameHashListsAlike(sha, histories[0], histories[1], p.height, inputs);
      RemainingAlike(sha, histories[0], histories[1], p.height, p.offset);
      StartLeft(sha, histories[0], address, limit, start.value, pages[0], next);
      PagesMakeProgress(sha, histories[0], address, limit, start.value, pages[0], p);
    }
  }

  lemma StartLeft(sha: Sha, blocks: seq<Block>, address: string, limit: nat, start: Position, page: seq<Confirmed>, next: Option<Position>)
    requires IsPage(sha, blocks, address, limit, start, page, next)
    ensures InHistory(blocks, start) && Remaining(blocks, start.height, start.offset) >= 0
  {
    hide From, Remaining;
    RemainingIsNatural(blocks, start.height, start.offset);
  }
}
