/** The in-memory cursor: the cached first and last block. */
module BlockCursors {
  import opened Wrappers
  import opened Time

  /** A block's position; height 0 means "no block yet". */
  datatype BlockPos = BlockPos(height: int, timestamp: int)

  class BlockCursor {
    var first: BlockPos
    var last: BlockPos

    constructor ()
      ensures first == last == BlockPos(0, 0)
    {
      first, last := BlockPos(0, 0), BlockPos(0, 0);
    }

    function FirstSecond(): int
      reads this
    {
      ToSecond(first.timestamp)
    }

    /** "Now" for every query: one second past the last block. */
    function NowSecond(): int
      reads this
    {
      ToSecond(last.timestamp) + 1
    }

    function NextHeight(): int
      reads this
    {
      last.height + 1
    }

    /** Populate from the first and last rows of `block_log`, when it has any. */
    method Refresh(firstBlock: Option<BlockPos>, lastBlock: Option<BlockPos>)
      modifies this
      ensures first == firstBlock.GetOr(old(first)) && last == lastBlock.GetOr(old(last))
    {
      if firstBlock.Some? {
        first := firstBlock.value;
      }
      if lastBlock.Some? {
        last := lastBlock.value;
      }
    }

    /** Record a block without a round trip to the database. */
    method Observe(pos: BlockPos)
      modifies this
      ensures last == pos
      ensures first == if old(first).height == 0 then pos else old(first)
    {
      if first.height == 0 {
        first := pos;
      }
      last := pos;
    }
  }

  /** The default window reaches past the last block, and by no more than a second. */
  lemma WindowCoversLast(cursor: BlockCursor)
    ensures cursor.last.timestamp < ToNano(cursor.NowSecond())
    ensures cursor.last.timestamp >= 0 ==> ToNano(cursor.NowSecond() - 1) <= cursor.last.timestamp
  {
  }

  /** It starts at or before the first block exactly when that is not before 1970, or on a second. */
  lemma WindowCoversFirst(cursor: BlockCursor)
    ensures ToNano(cursor.FirstSecond()) <= cursor.first.timestamp
       <==> cursor.first.timestamp >= 0 || cursor.first.timestamp % NANOS_PER_SECOND == 0
  {
    var n := cursor.first.timestamp;
    if n < 0 {
      assert -n == NANOS_PER_SECOND * ((-n) / NANOS_PER_SECOND) + (-n) % NANOS_PER_SECOND;
    }
  }
}
