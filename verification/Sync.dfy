/** The sync loop, driving the iterator, the writer and the cursor. */
module Sync {
  import opened Wrappers
  import opened Blocks
  import opened Client
  import opened BlockIterators
  import opened Depths
  import opened Ledgers
  import opened LedgerTheorems
  import opened BlockCursors
  import opened Ingest
  import opened IngestTheorems
  import opened Writers

  const BATCH_THRESHOLD: int := 10

  /** What the outside world does at one turn of a loop: how the node answers, the tip it reports,
      whether cancellation has been requested, and whether the database lets `add` and the flush
      after it commit. */
  datatype Moment = Moment(node: Node, tip: Option<int>, cancelled: bool, addOk: bool, flushOk: bool)

  /** Nodes are honest about the chain, and report no tip beyond it. */
  ghost predicate Plausible(w: World, script: seq<Moment>) {
    forall k :: 0 <= k < |script| ==> PlausibleMoment(w, script[k])
  }

  ghost predicate PlausibleMoment(w: World, m: Moment) {
    Honest(m.node, w.first, w.chain) && (m.tip.Some? ==> m.tip.value < w.first + |w.chain|)
  }

  lemma {:induction false} RunConcat(w: World, batch: nat, s: Process, xs: seq<Step>, ys: seq<Step>)
    ensures Run(w, batch, s, xs + ys) == Run(w, batch, Run(w, batch, s, xs), ys)
    decreases |xs|
  {
    hide Do;
    if xs == [] {
      assert xs + ys == ys;
    } else {
      assert (xs + ys)[0] == xs[0] && (xs + ys)[1..] == xs[1..] + ys;
      RunConcat(w, batch, Do(w, batch, s, xs[0]).0, xs[1..], ys);
    }
  }

  lemma NoSteps(w: World, batch: nat, s: Process)
    ensures Run(w, batch, s, []) == s
  {
  }

  lemma RunSnoc(w: World, batch: nat, s: Process, xs: seq<Step>, x: Step)
    ensures Run(w, batch, s, xs + [x]) == Do(w, batch, Run(w, batch, s, xs), x).0
  {
    hide Do;
    RunConcat(w, batch, s, xs, [x]);
    var t := Run(w, batch, s, xs);
    assert [x][1..] == [];
    assert Run(w, batch, t, [x]) == Run(w, batch, Do(w, batch, t, x).0, []);
  }

  /** The steps that deliver the next block, by what was done with it. */
  lemma DeliverIs(w: World, batch: nat, s: Process, b: Block, addOk: bool, flushOk: bool)
    requires InChain(NextHeight(w, s), w.first, w.chain) && b == w.chain[NextHeight(w, s) - w.first]
    ensures var r := Added(w.decode, batch, s.db, s.writer, b, addOk);
            && Do(w, batch, s, CatchUp(addOk)) == (if r.2 then Observed(WithWriter(s, r), b) else WithWriter(s, r), r.2)
            && Do(w, batch, s, Follow(addOk, flushOk))
               == if !r.2 then (WithWriter(s, r), false)
                  else var f := Flushed(r.0, r.1, flushOk);
                       (if f.2 then Observed(WithWriter(s, f), b) else WithWriter(s, f), f.2)
  {
    hide Added, Flushed;
  }

  /** The step's outcomes are those of the moment. */
  predicate Carries(step: Step, m: Moment) {
    match step
    case CatchUp(ok) => ok == m.addOk
    case Follow(addOk, flushOk) => addOk == m.addOk && flushOk == m.flushOk
    case Flush(ok) => ok == m.flushOk
    case _ => false
  }

  /** `at` names, in order, the moments whose outcomes the steps carry. */
  predicate CarriedBy(steps: seq<Step>, script: seq<Moment>, at: seq<nat>) {
    && |at| == |steps|
    && (forall i, j :: 0 <= i < j < |at| ==> at[i] < at[j])
    && (forall i :: 0 <= i < |at| ==> at[i] < |script| && Carries(steps[i], script[at[i]]))
  }

  lemma MoreCarried(xs: seq<Step>, at: seq<nat>, ys: seq<Step>, script: seq<Moment>, from: nat) returns (more: seq<nat>)
    requires CarriedBy(xs, script, at) && (forall i :: 0 <= i < |at| ==> at[i] < from)
    requires from + |ys| <= |script| && forall i :: 0 <= i < |ys| ==> Carries(ys[i], script[from + i])
    ensures CarriedBy(xs + ys, script, more) && forall i :: 0 <= i < |more| ==> more[i] < from + |ys|
    ensures ys != [] ==> more[|more| - 1] == from + |ys| - 1
  {
    hide Carries;
    more := at + seq(|ys|, i => from + i);
  }

  lemma NothingCarried(script: seq<Moment>)
    ensures CarriedBy([], script, [])
  {
  }

  lemma FlushCarries(m: Moment)
    ensures Carries(Flush(m.flushOk), m)
  {
  }

  lemma PlausibleTail(w: World, script: seq<Moment>, i: nat)
    requires Plausible(w, script) && i <= |script|
    ensures Plausible(w, script[i..])
  {
  }

  lemma FlushIs(w: World, batch: nat, s: Process, ok: bool)
    ensures Do(w, batch, s, Flush(ok)).0 == WithWriter(s, Flushed(s.db, s.writer, ok))
  {
  }

  /** The last of these steps was a flush the database refused. */
  predicate LastFailed(w: World, batch: nat, s: Process, steps: seq<Step>) {
    steps != []
    && !Do(w, batch, Run(w, batch, s, steps[..|steps| - 1]), steps[|steps| - 1]).1
  }

  lemma FailedNow(w: World, batch: nat, s: Process, steps: seq<Step>, x: Step)
    ensures LastFailed(w, batch, s, steps + [x]) == !Do(w, batch, Run(w, batch, s, steps), x).1
  {
    assert (steps + [x])[..|steps|] == steps;
  }

  /** Why catching up ended: the script did, a flush failed, or the last turn was cancelled, met a
      node that does not answer, or found the iterator past the tip. */
  ghost predicate CatchUpEnded(w: World, batch: nat, s: Process, t: Process, tip: int, script: seq<Moment>, used: nat, steps: seq<Step>) {
    && |steps| <= used <= |script|
    && (forall i :: 0 <= i < |steps| ==> steps[i] == CatchUp(script[i].addOk))
    && (used == |steps| ==> used == |script| || LastFailed(w, batch, s, steps))
    && used <= |steps| + 1
    && (used > |steps| ==>
          script[used - 1].cancelled || !Answering(script[used - 1].node, w.first, w.chain) || NextHeight(w, t) > tip)
  }

  /** Why following ended: the script did, a flush failed, the tip was passed, or the last turn met
      a node that does not answer. */
  ghost predicate FollowEnded(w: World, batch: nat, s: Process, t: Process, tip: int, script: seq<Moment>, used: nat, steps: seq<Step>) {
    && |steps| <= used <= |script|
    && (forall i :: 0 <= i < |steps| ==> steps[i] == Follow(script[i].addOk, script[i].flushOk))
    && (used == |steps| ==> used == |script| || LastFailed(w, batch, s, steps) || NextHeight(w, t) > tip)
    && (used > |steps| ==> used == |steps| + 1 && !Answering(script[used - 1].node, w.first, w.chain))
  }

  lemma NumberedAt(first: int, chain: seq<Block>, j: nat)
    requires Numbered(first, chain) && j < |chain|
    ensures chain[j].height == first + j
  {
  }

  lemma EmptyBufferFrom(from: int, tip: int, first: int, chain: seq<Block>)
    requires first <= from <= tip < first + |chain|
    ensures BufferFrom(State(from, tip, []), first, chain)
  {
  }

  /** What either loop did after the tip was asked for. */
  lemma EndedWithin(w: World, batch: nat, s: Process, t: Process, tip: int, script: seq<Moment>, used: nat, steps: seq<Step>)
    requires script != []
    requires CatchUpEnded(w, batch, s, t, tip, script[1..], used, steps) || FollowEnded(w, batch, s, t, tip, script[1..], used, steps)
    ensures |steps| <= used < |script| && forall i :: 0 <= i < |steps| ==> Carries(steps[i], script[1 + i])
  {
    hide LastFailed, Answering;
  }

  class Syncer {
    const writer: BlockWriter
    const cursor: BlockCursor
    const firstHeight: int
    const fetchBatchSize: nat
    const parallelism: nat
    ghost const world: World

    function View(): Process
      reads writer, writer.tracker, writer.db, cursor
    {
      Process(writer.db.State(), writer.View(), cursor.first, cursor.last)
    }

    ghost predicate Valid()
      reads writer, writer.tracker
    {
      && fetchBatchSize > 0 && 1 <= firstHeight == world.first && Numbered(world.first, world.chain)
      && writer.decode == world.decode && writer.tracker.dirty == []
    }

    /** Start on an existing database; `answer` is what the restoring query answers. */
    constructor (db: Database, commitBatchSize: nat, initialHeight: int, fetchBatchSize: nat, parallelism: nat,
                 decode: Decoder, answer: map<string, Depth>, ghost w: World)
      requires IsLatest(db.State().depths, answer) && fetchBatchSize > 0
      requires w.decode == decode && Numbered(w.first, w.chain)
      requires w.first == if initialHeight >= 1 then initialHeight else 1
      ensures writer.batchSize == AtLeastOne(commitBatchSize)
      ensures Valid() && world == w && writer.db == db && fresh(writer) && fresh(writer.tracker) && fresh(cursor)
      ensures NoTies(db.State().depths) ==> View() == Restarted(db.State())
    {
      writer := new BlockWriter(db, commitBatchSize, decode);
      cursor := new BlockCursor();
      firstHeight := if initialHeight >= 1 then initialHeight else 1;
      this.fetchBatchSize, this.parallelism := fetchBatchSize, parallelism;
      world := w;
      new;
      if db.log != [] {
        cursor.Refresh(Some(PosOf(LowestRow(db.log))), Some(PosOf(HighestRow(db.log))));
      }
      writer.Restore(answer);
    }

    /** Batched fetch and batched write. `steps` are the steps of the ingest machine it amounts to. */
    method CatchUp(from: int, tip: int, script: seq<Moment>) returns (used: nat, ghost steps: seq<Step>)
      requires Valid() && Plausible(world, script) && tip < world.first + |world.chain|
      requires from == NextHeight(world, View()) && from <= tip
      modifies writer, writer.tracker, writer.db, cursor
      ensures Valid()
      ensures View() == Ingest.Run(world, writer.batchSize, old(View()), steps)
      ensures CatchUpEnded(world, writer.batchSize, old(View()), View(), tip, script, used, steps)
    {
      hide Added, Do, NextOf, Honest, Numbered, BufferFrom, LastFailed, Answering;
      var it := new BlockIterator(fetchBatchSize, parallelism, from, tip);
      used, steps := 0, [];
      assert BufferFrom(it.View(), world.first, world.chain) by { EmptyBufferFrom(from, tip, world.first, world.chain); }
      while used < |script|
        invariant used == |steps| <= |script| && Valid()
        invariant forall i :: 0 <= i < |steps| ==> steps[i] == Ingest.CatchUp(script[i].addOk)
        invariant View() == Ingest.Run(world, writer.batchSize, old(View()), steps)
        invariant it.View().Position() == NextHeight(world, View())
        invariant BufferFrom(it.View(), world.first, world.chain)
        invariant it.View().through == tip && it.batchSize == fetchBatchSize
      {
        var m := script[used];
        assert PlausibleMoment(world, m);
        used := used + 1;
        ghost var before := it.View();
        var fetched := it.Next(m.node);
        NextAnswers(before, fetchBatchSize, it.parallelism, m.node, world.first, world.chain);
        if fetched.Failure? || fetched.value.None? {
          return;
        }
        if m.cancelled {
          return;
        }
        var b := fetched.value.value;
        ghost var s := View();
        NextYieldsChain(before, fetchBatchSize, it.parallelism, m.node, world.first, world.chain);
        DeliverIs(world, writer.batchSize, s, b, m.addOk, m.flushOk);
        RunSnoc(world, writer.batchSize, old(View()), steps, Ingest.CatchUp(m.addOk));
        FailedNow(world, writer.batchSize, old(View()), steps, Ingest.CatchUp(m.addOk));
        steps := steps + [Ingest.CatchUp(m.addOk)];
        var ok := writer.Add(b, m.addOk);
        if !ok {
          return;
        }
        cursor.Observe(BlockPos(b.height, b.timestamp));
        NumberedAt(world.first, world.chain, before.Position() - world.first);
      }
    }

    /** One block at a time, flushed immediately. */
    method Follow(from: int, tip: int, script: seq<Moment>) returns (used: nat, ghost steps: seq<Step>)
      requires Valid() && Plausible(world, script) && tip < world.first + |world.chain|
      requires from == NextHeight(world, View()) && from <= tip
      modifies writer, writer.tracker, writer.db, cursor
      ensures Valid()
      ensures View() == Ingest.Run(world, writer.batchSize, old(View()), steps)
      ensures FollowEnded(world, writer.batchSize, old(View()), View(), tip, script, used, steps)
    {
      hide Added, Flushed, Do, FetchBlock, Honest, Numbered, LastFailed, Answering;
      used, steps := 0, [];
      var height := from;
      while height <= tip && used < |script|
        invariant used == |steps| <= |script| && Valid()
        invariant forall i :: 0 <= i < |steps| ==> steps[i] == Ingest.Follow(script[i].addOk, script[i].flushOk)
        invariant View() == Ingest.Run(world, writer.batchSize, old(View()), steps)
        invariant height == NextHeight(world, View())
        decreases |script| - used
      {
        var m := script[used];
        assert PlausibleMoment(world, m);
        used := used + 1;
        var fetched := FetchBlock(m.node, height);
        FetchBlockAnswers(m.node, height, world.first, world.chain);
        if fetched.Failure? {
          return;
        }
        var b := fetched.value;
        ghost var s := View();
        FetchBlockTells(m.node, height, world.first, world.chain);
        DeliverIs(world, writer.batchSize, s, b, m.addOk, m.flushOk);
        RunSnoc(world, writer.batchSize, old(View()), steps, Ingest.Follow(m.addOk, m.flushOk));
        FailedNow(world, writer.batchSize, old(View()), steps, Ingest.Follow(m.addOk, m.flushOk));
        steps := steps + [Ingest.Follow(m.addOk, m.flushOk)];
        var ok := writer.Add(b, m.addOk);
        if !ok {
          return;
        }
        ok := writer.Flush(m.flushOk);
        if !ok {
          return;
        }
        cursor.Observe(BlockPos(b.height, b.timestamp));
        NumberedAt(world.first, world.chain, height - world.first);
        height := height + 1;
      }
    }

    /** One iteration of the loop: ask for the tip, then catch up or follow. */
    method Step(script: seq<Moment>) returns (used: nat, ghost steps: seq<Step>)
      requires Valid() && Plausible(world, script) && script != []
      modifies writer, writer.tracker, writer.db, cursor
      ensures Valid() && 0 < used <= |script|
      ensures View() == Ingest.Run(world, writer.batchSize, old(View()), steps)
      ensures |steps| < used && forall i :: 0 <= i < |steps| ==> Carries(steps[i], script[1 + i])
      ensures var tip, next := script[0].tip, old(NextHeight(world, View()));
              if tip.None? || next > tip.value then used == 1 && steps == []
              else if tip.value - next + 1 > 10 then
                CatchUpEnded(world, writer.batchSize, old(View()), View(), tip.value, script[1..], used - 1, steps)
              else
                FollowEnded(world, writer.batchSize, old(View()), View(), tip.value, script[1..], used - 1, steps)
    {
      hide CatchUpEnded, FollowEnded, Carries, Numbered, Ingest.Run;
      used, steps := 1, [];
      NoSteps(world, writer.batchSize, View());
      var tip := script[0].tip;
      assert PlausibleMoment(world, script[0]);
      if tip.None? {
        return;
      }
      var next := if cursor.NextHeight() >= firstHeight then cursor.NextHeight() else firstHeight;
      if next > tip.value {
        return;
      }
      var n;
      if tip.value - next + 1 > BATCH_THRESHOLD {
        n, steps := CatchUp(next, tip.value, script[1..]);
        EndedWithin(world, writer.batchSize, old(View()), View(), tip.value, script, n, steps);
      } else {
        n, steps := Follow(next, tip.value, script[1..]);
        EndedWithin(world, writer.batchSize, old(View()), View(), tip.value, script, n, steps);
      }
      used := 1 + n;
    }

    /** The whole life of a process: iterations until cancelled, then a last flush. When the script
        ends without cancellation the process is killed there. The steps it takes carry, in order,
        the outcomes of some of the moments, the last flush that of the cancelling one. */
    method Run(script: seq<Moment>) returns (ended: nat, ghost steps: seq<Step>, ghost at: seq<nat>)
      requires Valid() && Plausible(world, script)
      modifies writer, writer.tracker, writer.db, cursor
      ensures Valid() && ended <= |script|
      ensures View() == Ingest.Run(world, writer.batchSize, old(View()), steps)
      ensures CarriedBy(steps, script, at)
      ensures ended < |script| ==>
                && script[ended].cancelled && steps != [] && steps[|steps| - 1] == Flush(script[ended].flushOk)
                && at[|at| - 1] == ended
    {
      hide Flushed, Do, Plausible, Carries, CarriedBy;
      steps, at := [], [];
      assert CarriedBy(steps, script, at) by { NothingCarried(script); }
      var i := 0;
      while i < |script| && !script[i].cancelled
        invariant i <= |script| && Valid()
        invariant View() == Ingest.Run(world, writer.batchSize, old(View()), steps)
        invariant CarriedBy(steps, script, at) && forall j :: 0 <= j < |at| ==> at[j] < i
        decreases |script| - i
      {
        assert Plausible(world, script[i..]) by { PlausibleTail(world, script, i); }
        ghost var s := View();
        var used, more := Step(script[i..]);
        RunConcat(world, writer.batchSize, old(View()), steps, more);
        forall j | 0 <= j < |more| ensures Carries(more[j], script[i + 1 + j]) {
          assert script[i..][1 + j] == script[i + 1 + j];
        }
        at := MoreCarried(steps, at, more, script, i + 1);
        steps := steps + more;
        i := i + used;
      }
      if i < |script| {
        ghost var s := View();
        RunSnoc(world, writer.batchSize, old(View()), steps, Flush(script[i].flushOk));
        FlushIs(world, writer.batchSize, s, script[i].flushOk);
        FlushCarries(script[i]);
        at := MoreCarried(steps, at, [Flush(script[i].flushOk)], script, i);
        steps := steps + [Flush(script[i].flushOk)];
        var ok := writer.Flush(script[i].flushOk);
      }
      ended := i;
    }
  }
}
