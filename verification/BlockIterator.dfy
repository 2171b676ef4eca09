/** The iterator over a range of heights, refilled a batch at a time. */
module BlockIterators {
  import opened Wrappers
  import opened Blocks
  import opened Client

  datatype State = State(next: int, through: int, buffered: seq<Block>) {
    /** The height the next call will yield. */
    function Position(): int {
      next - |buffered|
    }

    /** The buffer holds the heights right before `next`, none past `through`. */
    predicate Valid() {
      && (forall i :: 0 <= i < |buffered| ==> buffered[i].height == Position() + i)
      && (buffered != [] ==> next <= through + 1)
    }
  }

  /** One call against a node's answers: the new state and the result. */
  function NextOf(s: State, batchSize: nat, parallelism: nat, node: Node): (State, Result<Option<Block>, ChainError>) {
    if s.buffered != [] then (s.(buffered := s.buffered[1..]), Success(Some(s.buffered[0])))
    else if s.next > s.through then (s, Success(None))
    else
      var remaining := s.through - s.next + 1;
      var count: nat := if remaining < batchSize then remaining else batchSize;
      match FetchRange(node, parallelism, s.next, count)
      case Failure(e) => (s, Failure(e))
      case Success(blocks) =>
        if blocks == [] then (State(s.next + count, s.through, []), Success(None))
        else (State(s.next + count, s.through, blocks[1..]), Success(Some(blocks[0])))
  }

  class BlockIterator {
    const batchSize: nat
    const parallelism: nat
    const through: int
    var next: int
    var buffered: seq<Block>

    constructor (batchSize: nat, parallelism: nat, from: int, through: int)
      ensures this.batchSize == batchSize && this.parallelism == parallelism
      ensures View() == State(from, through, [])
    {
      this.batchSize, this.parallelism, this.through := batchSize, parallelism, through;
      next, buffered := from, [];
    }

    function View(): State
      reads this
    {
      State(next, through, buffered)
    }

    method Next(node: Node) returns (r: Result<Option<Block>, ChainError>)
      modifies this
      ensures (View(), r) == NextOf(old(View()), batchSize, parallelism, node)
    {
      hide FetchRange;
      if buffered == [] {
        if next > through {
          return Success(None);
        }
        var remaining := through - next + 1;
        var count: nat := if remaining < batchSize then remaining else batchSize;
        var fetched := FetchRange(node, parallelism, next, count);
        if fetched.Failure? {
          return Failure(fetched.error);
        }
        buffered := fetched.value;
        next := next + count;
        if buffered == [] {
          return Success(None);
        }
      }
      r := Success(Some(buffered[0]));
      buffered := buffered[1..];
    }
  }

  /** A call yields the height at the current position, or reports the end, or fails without moving. */
  lemma NextYieldsPosition(s: State, batchSize: nat, parallelism: nat, node: Node)
    requires s.Valid() && batchSize > 0
    ensures var (t, r) := NextOf(s, batchSize, parallelism, node);
            && t.Valid() && t.through == s.through
            && (r.Failure? ==> t == s)
            && (r.Success? && r.value.None? ==> t == s && s.Position() > s.through)
            && (r.Success? && r.value.Some? ==>
                  r.value.value.height == s.Position() <= s.through && t.Position() == s.Position() + 1)
  {
    hide FetchRange;
    if s.buffered == [] && s.next <= s.through {
      var remaining := s.through - s.next + 1;
      FetchRangeInOrder(node, parallelism, s.next, if remaining < batchSize then remaining else batchSize);
    }
  }

  /** Everything yielded over a series of calls, each against whatever the node answers then. */
  function Walk(s: State, batchSize: nat, parallelism: nat, nodes: seq<Node>): seq<Block>
    decreases |nodes|
  {
    if nodes == [] then []
    else
      var (t, r) := NextOf(s, batchSize, parallelism, nodes[0]);
      (if r.Success? && r.value.Some? then [r.value.value] else []) + Walk(t, batchSize, parallelism, nodes[1..])
  }

  function After(s: State, batchSize: nat, parallelism: nat, nodes: seq<Node>): State
    decreases |nodes|
  {
    if nodes == [] then s
    else After(NextOf(s, batchSize, parallelism, nodes[0]).0, batchSize, parallelism, nodes[1..])
  }

  /** Over any series of calls, failures included, each height is yielded once and in order, and the
      iterator stands right after the last one yielded. */
  lemma {:induction false} WalkYieldsEachHeightOnce(s: State, batchSize: nat, parallelism: nat, nodes: seq<Node>)
    requires s.Valid() && batchSize > 0
    ensures var out := Walk(s, batchSize, parallelism, nodes);
            && (forall i :: 0 <= i < |out| ==> out[i].height == s.Position() + i && out[i].height <= s.through)
            && After(s, batchSize, parallelism, nodes).Position() == s.Position() + |out|
    decreases |nodes|
  {
    hide NextOf, State.Valid, State.Position;
    if nodes != [] {
      var (t, r) := NextOf(s, batchSize, parallelism, nodes[0]);
      NextYieldsPosition(s, batchSize, parallelism, nodes[0]);
      WalkYieldsEachHeightOnce(t, batchSize, parallelism, nodes[1..]);
      var out, rest := Walk(s, batchSize, parallelism, nodes), Walk(t, batchSize, parallelism, nodes[1..]);
      var yielded := if r.Success? && r.value.Some? then 1 else 0;
      forall i | 0 <= i < |out| ensures out[i].height == s.Position() + i && out[i].height <= s.through {
        if i >= yielded {
          assert out[i] == rest[i - yielded];
        }
      }
    }
  }

  /** The buffer holds blocks of the chain. */
  predicate BufferFrom(s: State, first: int, chain: seq<Block>) {
    first <= s.Position() && s.next <= first + |chain|
    && s.buffered == chain[s.Position() - first..s.next - first]
  }

  /** From honest nodes the iterator yields the chain's own blocks. */
  lemma NextYieldsChain(s: State, batchSize: nat, parallelism: nat, node: Node, first: int, chain: seq<Block>)
    requires batchSize > 0 && Honest(node, first, chain) && Numbered(first, chain)
    requires BufferFrom(s, first, chain) && s.through < first + |chain|
    ensures var (t, r) := NextOf(s, batchSize, parallelism, node);
            && (r.Success? && r.value.Some? ==>
                  s.Position() < first + |chain| && r.value.value == chain[s.Position() - first]
                  && BufferFrom(t, first, chain) && t.Position() == s.Position() + 1 && t.through == s.through)
  {
    hide FetchRange, Honest, Numbered;
    if s.buffered != [] {
      assert s.buffered[1..] == chain[s.Position() + 1 - first..s.next - first];
    } else if s.next <= s.through {
      var remaining := s.through - s.next + 1;
      var count: nat := if remaining < batchSize then remaining else batchSize;
      FetchRangeTells(node, parallelism, s.next, count, first, chain);
      var at := s.next - first;
      assert chain[at..at + count][1..] == chain[at + 1..at + count];
    }
  }

  /** From an honest node that answers, a call before the end of the range yields a block. */
  lemma NextAnswers(s: State, batchSize: nat, parallelism: nat, node: Node, first: int, chain: seq<Block>)
    requires batchSize > 0 && Honest(node, first, chain) && BufferFrom(s, first, chain) && s.through < first + |chain|
    ensures var r := NextOf(s, batchSize, parallelism, node).1;
            Answering(node, first, chain) && s.Position() <= s.through ==> r.Success? && r.value.Some?
  {
    hide FetchRange, Honest, Answering;
    if Answering(node, first, chain) && s.buffered == [] && s.next <= s.through {
      var remaining := s.through - s.next + 1;
      var count: nat := if remaining < batchSize then remaining else batchSize;
      FetchRangeSucceeds(node, parallelism, s.next, count, first, chain);
      FetchRangeInOrder(node, parallelism, s.next, count);
    }
  }
}
