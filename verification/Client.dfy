/** Fetching blocks: one at a time, in batches, fanned out, and through an iterator. */
module Client {
  import opened Wrappers
  import opened Blocks
  import opened Rpc

  datatype ChainError =
    | RpcFailed(error: RpcError)
    | HeightMismatch(requested: int, returned: int)
    | BadTimestamp(height: int)

  /** `timestamp` is absent when it does not fit a 64-bit nanosecond count. */
  datatype BlockResponse = BlockResponse(height: int, timestamp: Option<int>, hash: string)

  datatype BlockResults = BlockResults(height: int, finalizeEvents: seq<Event>, txResults: Option<seq<TxResult>>)

  /** How a node answers during one fetch, per method and heights asked for. */
  datatype Node = Node(block: int -> Result<BlockResponse, RpcError>,
                       blockResults: int -> Result<BlockResults, RpcError>,
                       blockBatch: seq<int> -> Reply<BlockResponse>,
                       blockResultsBatch: seq<int> -> Reply<BlockResults>)

  /** Combine the two halves of a block, refusing answers for another height. */
  function Assemble(requested: int, b: BlockResponse, r: BlockResults): Result<Block, ChainError> {
    if b.height != requested then Failure(HeightMismatch(requested, b.height))
    else if r.height != requested then Failure(HeightMismatch(requested, r.height))
    else if b.timestamp.None? then Failure(BadTimestamp(requested))
    else Success(Block(requested, b.timestamp.value, b.hash, r.finalizeEvents, r.txResults))
  }

  function FetchBlock(node: Node, height: int): Result<Block, ChainError> {
    match (node.block(height), node.blockResults(height))
    case (Failure(e), _) => Failure(RpcFailed(e))
    case (_, Failure(e)) => Failure(RpcFailed(e))
    case (Success(b), Success(r)) => Assemble(height, b, r)
  }

  function Heights(from: int, count: nat): seq<int> {
    seq(count, i => from + i)
  }

  function AssembleAll(from: int, bs: seq<BlockResponse>, rs: seq<BlockResults>): Result<seq<Block>, ChainError>
    requires |bs| == |rs|
    decreases |bs|
  {
    if bs == [] then Success([])
    else match Assemble(from, bs[0], rs[0])
      case Failure(e) => Failure(e)
      case Success(b) =>
        match AssembleAll(from + 1, bs[1..], rs[1..])
        case Failure(e) => Failure(e)
        case Success(rest) => Success([b] + rest)
  }

  function FetchBatch(node: Node, from: int, count: nat): Result<seq<Block>, ChainError> {
    var heights := Heights(from, count);
    match (BatchResult(count, node.blockBatch(heights)), BatchResult(count, node.blockResultsBatch(heights)))
    case (Failure(e), _) => Failure(RpcFailed(e))
    case (_, Failure(e)) => Failure(RpcFailed(e))
    case (Success(bs), Success(rs)) => AssembleAll(from, bs[..Shorter(|bs|, |rs|)], rs[..Shorter(|bs|, |rs|)])
  }

  function Shorter(a: nat, b: nat): (m: nat)
    ensures m <= a && m <= b
  {
    if a < b then a else b
  }

  /** The chunks `i..chunks`, joined in order. */
  function FetchChunks(node: Node, from: int, perChunk: nat, chunks: nat): Result<seq<Block>, ChainError>
    decreases chunks
  {
    if chunks == 0 then Success([])
    else match FetchBatch(node, from, perChunk)
      case Failure(e) => Failure(e)
      case Success(bs) =>
        match FetchChunks(node, from + perChunk, perChunk, chunks - 1)
        case Failure(e) => Failure(e)
        case Success(rest) => Success(bs + rest)
  }

  /** How many requests a range is split into. */
  function Chunks(parallelism: nat, count: nat): (n: nat)
    ensures n > 0
  {
    if parallelism > 1 && count % parallelism == 0 then parallelism else 1
  }

  function FetchRange(node: Node, parallelism: nat, from: int, count: nat): Result<seq<Block>, ChainError> {
    if count == 0 then Success([])
    else if count == 1 then
      match FetchBlock(node, from)
      case Failure(e) => Failure(e)
      case Success(b) => Success([b])
    else
      var chunks := Chunks(parallelism, count);
      FetchChunks(node, from, count / chunks, chunks)
  }

  // ---- order ----

  /** Blocks of consecutive heights. */
  predicate InOrder(blocks: seq<Block>, from: int, count: nat) {
    |blocks| == count && forall i :: 0 <= i < count ==> blocks[i].height == from + i
  }

  lemma {:induction false} AssembleAllInOrder(from: int, bs: seq<BlockResponse>, rs: seq<BlockResults>)
    requires |bs| == |rs|
    ensures var r := AssembleAll(from, bs, rs); r.Success? ==> InOrder(r.value, from, |bs|)
    decreases |bs|
  {
    if bs != [] {
      AssembleAllInOrder(from + 1, bs[1..], rs[1..]);
    }
  }

  lemma BatchLength<T>(n: nat, reply: Reply<T>)
    ensures var r := BatchResult(n, reply); r.Success? ==> |r.value| == n
  {
    hide Collect;
    if n > 0 && reply.Entries? {
      BatchIsOrderCorrect(n, reply.entries);
    }
  }

  lemma FetchBatchInOrder(node: Node, from: int, count: nat)
    ensures var r := FetchBatch(node, from, count); r.Success? ==> InOrder(r.value, from, count)
  {
    hide BatchResult, AssembleAll;
    var heights := Heights(from, count);
    BatchLength(count, node.blockBatch(heights));
    BatchLength(count, node.blockResultsBatch(heights));
    var b, r := BatchResult(count, node.blockBatch(heights)), BatchResult(count, node.blockResultsBatch(heights));
    if b.Success? && r.Success? {
      AssembleAllInOrder(from, b.value, r.value);
      assert b.value[..count] == b.value && r.value[..count] == r.value;
    }
  }

  lemma {:induction false} FetchChunksInOrder(node: Node, from: int, perChunk: nat, chunks: nat)
    ensures var r := FetchChunks(node, from, perChunk, chunks); r.Success? ==> InOrder(r.value, from, perChunk * chunks)
    decreases chunks
  {
    hide FetchBatch;
    if chunks > 0 {
      FetchBatchInOrder(node, from, perChunk);
      FetchChunksInOrder(node, from + perChunk, perChunk, chunks - 1);
      assert perChunk * chunks == perChunk + perChunk * (chunks - 1);
    }
  }

  lemma ChunksDivide(parallelism: nat, count: nat)
    ensures var n := Chunks(parallelism, count); count / n * n == count
  {
  }

  /** However many requests a range is split into, a successful fetch is exactly the range asked
      for, each height once, in order, whatever the node answered. */
  lemma FetchRangeInOrder(node: Node, parallelism: nat, from: int, count: nat)
    ensures var r := FetchRange(node, parallelism, from, count); r.Success? ==> InOrder(r.value, from, count)
  {
    hide FetchChunks;
    if count > 1 {
      var chunks := Chunks(parallelism, count);
      FetchChunksInOrder(node, from, count / chunks, chunks);
      ChunksDivide(parallelism, count);
    }
  }

  // ---- content ----

  function BlockPart(b: Block): BlockResponse {
    BlockResponse(b.height, Some(b.timestamp), b.hash)
  }

  function ResultsPart(b: Block): BlockResults {
    BlockResults(b.height, b.finalizeEvents, b.txResults)
  }

  /** A node that never describes a height other than as `chain` has it. It may fail, answer out of
      order, or answer for the wrong heights. */
  ghost predicate Honest(node: Node, first: int, chain: seq<Block>) {
    && (forall h :: node.block(h).Success? ==> TellsBlock(node.block(h).value, first, chain))
    && (forall h :: node.blockResults(h).Success? ==> TellsResults(node.blockResults(h).value, first, chain))
    && (forall hs :: node.blockBatch(hs).Entries? ==> TellsBlocks(node.blockBatch(hs).entries, first, chain))
    && (forall hs :: node.blockResultsBatch(hs).Entries? ==> TellsAllResults(node.blockResultsBatch(hs).entries, first, chain))
  }

  predicate TellsBlock(b: BlockResponse, first: int, chain: seq<Block>) {
    0 <= b.height - first < |chain| ==> b == BlockPart(chain[b.height - first])
  }

  predicate TellsResults(r: BlockResults, first: int, chain: seq<Block>) {
    0 <= r.height - first < |chain| ==> r == ResultsPart(chain[r.height - first])
  }

  predicate TellsBlocks(es: seq<Envelope<BlockResponse>>, first: int, chain: seq<Block>) {
    forall k :: 0 <= k < |es| && es[k].result.Value? ==> TellsBlock(es[k].result.value, first, chain)
  }

  predicate TellsAllResults(es: seq<Envelope<BlockResults>>, first: int, chain: seq<Block>) {
    forall k :: 0 <= k < |es| && es[k].result.Value? ==> TellsResults(es[k].result.value, first, chain)
  }

  /** `chain` numbers its blocks from `first`. */
  predicate Numbered(first: int, chain: seq<Block>) {
    forall j :: 0 <= j < |chain| ==> chain[j].height == first + j
  }

  lemma AssembleTells(h: int, b: BlockResponse, r: BlockResults, first: int, chain: seq<Block>)
    requires Numbered(first, chain) && 0 <= h - first < |chain|
    requires TellsBlock(b, first, chain) && TellsResults(r, first, chain)
    ensures var x := Assemble(h, b, r); x.Success? ==> x.value == chain[h - first]
  {
  }

  lemma {:induction false} AssembleAllTells(from: int, bs: seq<BlockResponse>, rs: seq<BlockResults>, first: int, chain: seq<Block>)
    requires |bs| == |rs| && Numbered(first, chain) && first <= from && from + |bs| <= first + |chain|
    requires forall k :: 0 <= k < |bs| ==> TellsBlock(bs[k], first, chain) && TellsResults(rs[k], first, chain)
    ensures var r := AssembleAll(from, bs, rs); r.Success? ==> r.value == chain[from - first..from - first + |bs|]
    decreases |bs|
  {
    hide TellsBlock, TellsResults, Assemble;
    if bs != [] {
      AssembleTells(from, bs[0], rs[0], first, chain);
      AssembleAllTells(from + 1, bs[1..], rs[1..], first, chain);
      assert chain[from - first..from - first + |bs|]
          == [chain[from - first]] + chain[from + 1 - first..from + 1 - first + |bs[1..]|];
    }
  }

  lemma BatchContent<T>(n: nat, entries: seq<Envelope<T>>, i: nat) returns (k: nat)
    requires n > 0 && BatchResult(n, Entries(entries)).Success?
    requires i < n && |BatchResult(n, Entries(entries)).value| == n
    ensures k < |entries| && entries[k].result == Value(BatchResult(n, Entries(entries)).value[i])
  {
    hide BatchResult;
    BatchIsOrderCorrect(n, entries);
    assert HasId(entries, i);
    k :| 0 <= k < |entries| && entries[k].id == Some(i);
    assert AnswersItsRequest(BatchResult(n, Entries(entries)).value, entries[k]);
  }

  lemma FetchBatchTells(node: Node, from: int, count: nat, first: int, chain: seq<Block>)
    requires Honest(node, first, chain) && Numbered(first, chain) && first <= from && from + count <= first + |chain|
    ensures var r := FetchBatch(node, from, count); r.Success? ==> r.value == chain[from - first..from - first + count]
  {
    hide BatchResult, AssembleAll, TellsBlock, TellsResults, Numbered;
    var hs := Heights(from, count);
    var b, r := BatchResult(count, node.blockBatch(hs)), BatchResult(count, node.blockResultsBatch(hs));
    BatchLength(count, node.blockBatch(hs));
    BatchLength(count, node.blockResultsBatch(hs));
    if b.Success? && r.Success? {
      forall i | 0 <= i < count
        ensures TellsBlock(b.value[i], first, chain) && TellsResults(r.value[i], first, chain)
      {
        NonemptyReply(count, node.blockBatch(hs));
        NonemptyReply(count, node.blockResultsBatch(hs));
        var k := BatchContent(count, node.blockBatch(hs).entries, i);
        var l := BatchContent(count, node.blockResultsBatch(hs).entries, i);
      }
      assert b.value[..count] == b.value && r.value[..count] == r.value;
      AssembleAllTells(from, b.value, r.value, first, chain);
    }
  }

  lemma NonemptyReply<T>(n: nat, reply: Reply<T>)
    requires n > 0
    ensures BatchResult(n, reply).Success? ==> reply.Entries?
  {
  }

  lemma {:induction false} FetchChunksTells(node: Node, from: int, perChunk: nat, chunks: nat, first: int, chain: seq<Block>)
    requires Honest(node, first, chain) && Numbered(first, chain)
    requires first <= from && from + perChunk * chunks <= first + |chain|
    ensures var r := FetchChunks(node, from, perChunk, chunks);
            r.Success? ==> r.value == chain[from - first..from - first + perChunk * chunks]
    decreases chunks
  {
    hide FetchBatch, Honest, Numbered;
    if chunks > 0 {
      assert perChunk * chunks == perChunk + perChunk * (chunks - 1);
      assert perChunk * (chunks - 1) >= 0;
      FetchBatchTells(node, from, perChunk, first, chain);
      FetchChunksTells(node, from + perChunk, perChunk, chunks - 1, first, chain);
      var lo := from - first;
      assert chain[lo..lo + perChunk] + chain[lo + perChunk..lo + perChunk * chunks] == chain[lo..lo + perChunk * chunks];
    }
  }

  /** From an honest node a successful fetch is that stretch of the chain, whatever the parallelism. */
  lemma FetchRangeTells(node: Node, parallelism: nat, from: int, count: nat, first: int, chain: seq<Block>)
    requires Honest(node, first, chain) && Numbered(first, chain) && first <= from && from + count <= first + |chain|
    ensures var r := FetchRange(node, parallelism, from, count);
            r.Success? ==> r.value == chain[from - first..from - first + count]
  {
    hide FetchChunks, TellsBlocks, TellsAllResults, TellsBlock, TellsResults, Assemble;
    if count == 1 {
      var b, r := node.block(from), node.blockResults(from);
      if b.Success? && r.Success? {
        AssembleTells(from, b.value, r.value, first, chain);
      }
    } else if count > 1 {
      hide Honest, Numbered;
      var chunks := Chunks(parallelism, count);
      ChunksDivide(parallelism, count);
      FetchChunksTells(node, from, count / chunks, chunks, first, chain);
    }
  }

  lemma FetchBlockTells(node: Node, height: int, first: int, chain: seq<Block>)
    requires Honest(node, first, chain) && Numbered(first, chain) && InChain(height, first, chain)
    ensures var r := FetchBlock(node, height); r.Success? ==> r.value == chain[height - first]
  {
    hide TellsBlocks, TellsAllResults, TellsBlock, TellsResults, Assemble, Numbered;
    var b, r := node.block(height), node.blockResults(height);
    if b.Success? && r.Success? {
      AssembleTells(height, b.value, r.value, first, chain);
    }
  }

  // ---- a node that answers ----

  predicate InChain(h: int, first: int, chain: seq<Block>) {
    first <= h < first + |chain|
  }

  /** Every request of a batch is answered, in some order, for the height it asked for. */
  predicate AnswersBlocks(es: seq<Envelope<BlockResponse>>, hs: seq<int>) {
    && |es| == |hs| && Covers(es, |hs|)
    && forall k :: 0 <= k < |es| ==> AnswersBlock(es[k], hs)
  }

  predicate AnswersBlock(e: Envelope<BlockResponse>, hs: seq<int>) {
    e.error.None? && e.result.Value? && (e.id.Some? && 0 <= e.id.value < |hs| ==> e.result.value.height == hs[e.id.value])
  }

  predicate AnswersAllResults(es: seq<Envelope<BlockResults>>, hs: seq<int>) {
    && |es| == |hs| && Covers(es, |hs|)
    && forall k :: 0 <= k < |es| ==> AnswersResults(es[k], hs)
  }

  predicate AnswersResults(e: Envelope<BlockResults>, hs: seq<int>) {
    e.error.None? && e.result.Value? && (e.id.Some? && 0 <= e.id.value < |hs| ==> e.result.value.height == hs[e.id.value])
  }

  /** A node that answers every request for heights of the chain. */
  ghost predicate Answering(node: Node, first: int, chain: seq<Block>) {
    && (forall h :: InChain(h, first, chain) ==> node.block(h).Success? && node.block(h).value.height == h)
    && (forall h :: InChain(h, first, chain) ==> node.blockResults(h).Success? && node.blockResults(h).value.height == h)
    && (forall hs :: (forall i :: 0 <= i < |hs| ==> InChain(hs[i], first, chain)) ==>
          node.blockBatch(hs).Entries? && AnswersBlocks(node.blockBatch(hs).entries, hs))
    && (forall hs :: (forall i :: 0 <= i < |hs| ==> InChain(hs[i], first, chain)) ==>
          node.blockResultsBatch(hs).Entries? && AnswersAllResults(node.blockResultsBatch(hs).entries, hs))
  }

  lemma AssembleSucceeds(h: int, b: BlockResponse, r: BlockResults, first: int, chain: seq<Block>)
    requires InChain(h, first, chain) && b.height == h && r.height == h
    requires TellsBlock(b, first, chain) && TellsResults(r, first, chain)
    ensures Assemble(h, b, r).Success?
  {
  }

  lemma {:induction false} AssembleAllSucceeds(from: int, bs: seq<BlockResponse>, rs: seq<BlockResults>, first: int, chain: seq<Block>)
    requires |bs| == |rs| && first <= from && from + |bs| <= first + |chain|
    requires forall k :: 0 <= k < |bs| ==> TellsBlock(bs[k], first, chain) && bs[k].height == from + k
    requires forall k :: 0 <= k < |rs| ==> TellsResults(rs[k], first, chain) && rs[k].height == from + k
    ensures AssembleAll(from, bs, rs).Success?
    decreases |bs|
  {
    hide TellsBlock, TellsResults, Assemble;
    if bs != [] {
      AssembleSucceeds(from, bs[0], rs[0], first, chain);
      AssembleAllSucceeds(from + 1, bs[1..], rs[1..], first, chain);
    }
  }

  lemma AnsweredBlocks(hs: seq<int>, es: seq<Envelope<BlockResponse>>, first: int, chain: seq<Block>)
    requires hs != [] && AnswersBlocks(es, hs) && TellsBlocks(es, first, chain)
    ensures var r := BatchResult(|hs|, Entries(es));
            r.Success? && |r.value| == |hs|
            && forall i :: 0 <= i < |hs| ==> TellsBlock(r.value[i], first, chain) && r.value[i].height == hs[i]
  {
    hide BatchResult, TellsBlock;
    BatchIsOrderCorrect(|hs|, es);
    var r := BatchResult(|hs|, Entries(es));
    forall i | 0 <= i < |hs| ensures TellsBlock(r.value[i], first, chain) && r.value[i].height == hs[i] {
      assert HasId(es, i);
      var k :| 0 <= k < |es| && es[k].id == Some(i);
      assert AnswersItsRequest(r.value, es[k]);
    }
  }

  lemma AnsweredResults(hs: seq<int>, es: seq<Envelope<BlockResults>>, first: int, chain: seq<Block>)
    requires hs != [] && AnswersAllResults(es, hs) && TellsAllResults(es, first, chain)
    ensures var r := BatchResult(|hs|, Entries(es));
            r.Success? && |r.value| == |hs|
            && forall i :: 0 <= i < |hs| ==> TellsResults(r.value[i], first, chain) && r.value[i].height == hs[i]
  {
    hide BatchResult, TellsResults;
    BatchIsOrderCorrect(|hs|, es);
    var r := BatchResult(|hs|, Entries(es));
    forall i | 0 <= i < |hs| ensures TellsResults(r.value[i], first, chain) && r.value[i].height == hs[i] {
      assert HasId(es, i);
      var k :| 0 <= k < |es| && es[k].id == Some(i);
      assert AnswersItsRequest(r.value, es[k]);
    }
  }

  lemma FetchBatchSucceeds(node: Node, from: int, count: nat, first: int, chain: seq<Block>)
    requires Honest(node, first, chain) && Answering(node, first, chain)
    requires count > 0 && first <= from && from + count <= first + |chain|
    ensures FetchBatch(node, from, count).Success?
  {
    hide BatchResult, AssembleAll, TellsBlocks, TellsAllResults, AnswersBlocks, AnswersAllResults, TellsBlock, TellsResults;
    var hs := Heights(from, count);
    assert forall i :: 0 <= i < |hs| ==> InChain(hs[i], first, chain);
    AnsweredBlocks(hs, node.blockBatch(hs).entries, first, chain);
    AnsweredResults(hs, node.blockResultsBatch(hs).entries, first, chain);
    var bs := BatchResult(count, node.blockBatch(hs)).value;
    var rs := BatchResult(count, node.blockResultsBatch(hs)).value;
    assert bs[..count] == bs && rs[..count] == rs;
    AssembleAllSucceeds(from, bs, rs, first, chain);
  }

  lemma {:induction false} FetchChunksSucceeds(node: Node, from: int, perChunk: nat, chunks: nat, first: int, chain: seq<Block>)
    requires Honest(node, first, chain) && Answering(node, first, chain)
    requires perChunk > 0 && first <= from && from + perChunk * chunks <= first + |chain|
    ensures FetchChunks(node, from, perChunk, chunks).Success?
    decreases chunks
  {
    hide FetchBatch, Honest, Answering;
    if chunks > 0 {
      assert perChunk * chunks == perChunk + perChunk * (chunks - 1);
      assert perChunk * (chunks - 1) >= 0;
      FetchBatchSucceeds(node, from, perChunk, first, chain);
      FetchChunksSucceeds(node, from + perChunk, perChunk, chunks - 1, first, chain);
    }
  }

  /** From an honest node that answers, a fetch inside the chain succeeds, whatever the parallelism. */
  lemma FetchRangeSucceeds(node: Node, parallelism: nat, from: int, count: nat, first: int, chain: seq<Block>)
    requires Honest(node, first, chain) && Answering(node, first, chain)
    requires first <= from && from + count <= first + |chain|
    ensures FetchRange(node, parallelism, from, count).Success?
  {
    hide FetchChunks, TellsBlocks, TellsAllResults, AnswersBlocks, AnswersAllResults;
    if count == 1 {
      assert InChain(from, first, chain);
    } else if count > 1 {
      var chunks := Chunks(parallelism, count);
      ChunksDivide(parallelism, count);
      hide Honest, Answering;
      assert count / chunks > 0;
      FetchChunksSucceeds(node, from, count / chunks, chunks, first, chain);
    }
  }

  lemma FetchBlockAnswers(node: Node, height: int, first: int, chain: seq<Block>)
    requires Honest(node, first, chain) && InChain(height, first, chain)
    ensures Answering(node, first, chain) ==> FetchBlock(node, height).Success?
  {
    hide TellsBlocks, TellsAllResults, AnswersBlocks, AnswersAllResults;
  }

  // ---- answers for another height are refused ----

  /** Both halves describe the height asked for. */
  predicate HalvesAgree(h: int, b: BlockResponse, r: BlockResults) {
    b.height == h && r.height == h && b.timestamp.Some?
  }

  predicate MadeOf(x: Block, h: int, b: BlockResponse, r: BlockResults) {
    && HalvesAgree(h, b, r)
    && x.height == h && Some(x.timestamp) == b.timestamp && x.hash == b.hash
    && x.finalizeEvents == r.finalizeEvents && x.txResults == r.txResults
  }

  /** A single fetch succeeds exactly when both calls do and both describe that height. */
  lemma FetchBlockExact(node: Node, h: int)
    ensures var x, b, r := FetchBlock(node, h), node.block(h), node.blockResults(h);
            && (x.Success? <==> b.Success? && r.Success? && HalvesAgree(h, b.value, r.value))
            && (x.Success? ==> MadeOf(x.value, h, b.value, r.value))
            && (b.Success? && r.Success? && b.value.height != h ==> x == Failure(HeightMismatch(h, b.value.height)))
            && (b.Success? && r.Success? && b.value.height == h && r.value.height != h ==> x == Failure(HeightMismatch(h, r.value.height)))
  {
  }

  lemma {:induction false} AssembleAllExact(from: int, bs: seq<BlockResponse>, rs: seq<BlockResults>)
    requires |bs| == |rs|
    ensures var r := AssembleAll(from, bs, rs);
            && (r.Success? <==> forall i :: 0 <= i < |bs| ==> HalvesAgree(from + i, bs[i], rs[i]))
            && (r.Success? ==> |r.value| == |bs| && forall i :: 0 <= i < |bs| ==> MadeOf(r.value[i], from + i, bs[i], rs[i]))
    decreases |bs|
  {
    hide MadeOf, HalvesAgree;
    if bs != [] {
      AssembleAllExact(from + 1, bs[1..], rs[1..]);
      AssembleExact(from, bs[0], rs[0]);
      forall i | 0 < i < |bs| ensures HalvesAgree(from + i, bs[i], rs[i]) <==> HalvesAgree(from + 1 + (i - 1), bs[1..][i - 1], rs[1..][i - 1]) {
      }
    }
  }

  lemma AssembleExact(h: int, b: BlockResponse, r: BlockResults)
    ensures var x := Assemble(h, b, r); (x.Success? <==> HalvesAgree(h, b, r)) && (x.Success? ==> MadeOf(x.value, h, b, r))
  {
  }

  /** A batch succeeds exactly when both calls do and every answer is for its own height; each block
      is made of the two results at its place. */
  lemma FetchBatchExact(node: Node, from: int, count: nat)
    ensures var hs := Heights(from, count);
            var x, b, r := FetchBatch(node, from, count), BatchResult(count, node.blockBatch(hs)), BatchResult(count, node.blockResultsBatch(hs));
            && (b.Success? ==> |b.value| == count) && (r.Success? ==> |r.value| == count)
            && (x.Success? <==> b.Success? && r.Success? && forall i :: 0 <= i < count ==> HalvesAgree(from + i, b.value[i], r.value[i]))
            && (x.Success? ==> |x.value| == count && forall i :: 0 <= i < count ==> MadeOf(x.value[i], from + i, b.value[i], r.value[i]))
  {
    hide BatchResult, AssembleAll, HalvesAgree, MadeOf;
    var hs := Heights(from, count);
    BatchLength(count, node.blockBatch(hs));
    BatchLength(count, node.blockResultsBatch(hs));
    var b, r := BatchResult(count, node.blockBatch(hs)), BatchResult(count, node.blockResultsBatch(hs));
    if b.Success? && r.Success? {
      AssembleAllExact(from, b.value, r.value);
      assert b.value[..count] == b.value && r.value[..count] == r.value;
    }
  }
}
