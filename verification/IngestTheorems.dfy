/** Crashes, batch sizes, failed flushes and forks: what every run of the ingest process leaves. */
module IngestTheorems {
  import opened Wrappers
  import opened EventIds
  import opened Blocks
  import opened Depths
  import opened Ledgers
  import opened LedgerTheorems
  import opened BlockCursors
  import opened Ingest

  lemma {:induction false} EndsOfLog(log: seq<LogRow>, first: int)
    requires log != [] && forall j :: 0 <= j < |log| ==> log[j].height == first + j
    ensures LowestRow(log) == log[0] && HighestRow(log) == log[|log| - 1]
  {
    if |log| > 1 {
      EndsOfLog(log[..|log| - 1], first);
    }
  }

  lemma NextIsNext(w: World, s: Process, k: nat)
    requires w.Good() && k <= |w.chain| && CursorAt(w, s, k)
    ensures NextHeight(w, s) == w.first + k
  {
  }

  lemma ObserveMoves(w: World, s: Process, k: nat)
    requires w.Good() && k < |w.chain| && CursorAt(w, s, k)
    ensures CursorAt(w, Observed(s, w.chain[k]), k + 1)
  {
  }

  /** A process started on a database with the log of `c` blocks resumes right after them. */
  lemma RestartHolds(w: World, batch: nat, db: Db, repeated: nat, c: nat)
    requires w.Good() && c <= |w.chain| && db.log == w.At(c).db.log
    requires |db.events| == |w.At(c).db.events| + repeated && (repeated == 0 ==> db == w.At(c).db)
    ensures Holds(w, batch, Restarted(db), Tally(false, 0, 0, repeated), c, c) && Restarted(db).db == db
  {
    hide World.At, Latest, NoTies, IsOpening, InsertLog;
    RestoredMapIsLive(w, c);
    ReplayLog(w, c);
    LogHeights(w, c);
    if c > 0 {
      EndsOfLog(db.log, w.first);
    }
    NothingInserted(db.log);
    assert db.log + [] == db.log && db.events + [] == db.events && db.depths + [] == db.depths;
    hide LowestRow, HighestRow;
  }

  /** What the invariant says of the database alone. */
  lemma Committed(w: World, db: Db, s: WriterState, y: Tally, c: nat, p: nat)
    requires WriterHolds(w, db, s, y, c, p)
    ensures c <= p <= |w.chain| && db.log == w.At(c).db.log && |db.events| == |w.At(c).db.events| + y.committed
    ensures y.committed == 0 ==> db == w.At(c).db
  {
  }

  /** `Observed` moves the cursor and nothing else. */
  lemma ObserveKeepsRest(s: Process, b: Block)
    ensures Observed(s, b).db == s.db && Observed(s, b).writer == s.writer
  {
  }

  lemma BehindIsFree(w: World, db: Db, s: WriterState, y: Tally, c: nat, p: nat, behind: bool)
    requires WriterHolds(w, db, s, y, c, p)
    ensures WriterHolds(w, db, s, y.(behind := behind), c, p)
  {
    hide World.At, InsertLog;
  }

  /** Less than a batch is uncommitted before the block at the cursor. */
  lemma Uncommitted(w: World, batch: nat, s: Process, y: Tally, c: nat, p: nat)
    requires Holds(w, batch, s, y, c, p)
    ensures (if y.behind then p - 1 else p) - c < AtLeastOne(batch)
  {
    hide World.At, InsertLog, CursorAt;
  }

  /** After a delivery: a failure leaves the cursor behind, a success moves it. */
  lemma Delivered(w: World, batch: nat, s: Process, r: (Db, WriterState, bool), u: Tally, c: nat, k: nat)
    requires w.Good() && k < |w.chain| && CursorAt(w, s, k) && WriterHolds(w, r.0, r.1, u, c, k + 1)
    requires if r.2 then |r.1.buffer.blocks| < AtLeastOne(batch) else k - c < AtLeastOne(batch)
    ensures var t := if r.2 then Observed(WithWriter(s, r), w.chain[k]) else WithWriter(s, r);
            Holds(w, batch, t, u.(behind := !r.2), c, k + 1)
  {
    hide WriterHolds, Observed, World.Good;
    BehindIsFree(w, r.0, r.1, u, c, k + 1, !r.2);
    ObserveMoves(w, WithWriter(s, r), k);
    ObserveKeepsRest(WithWriter(s, r), w.chain[k]);
    hide CursorAt;
    assert WithWriter(s, r).first == s.first && WithWriter(s, r).last == s.last;
    SameCursor(w, s, WithWriter(s, r), k);
  }

  lemma SameCursor(w: World, s: Process, t: Process, k: nat)
    requires k <= |w.chain| && CursorAt(w, s, k) && t.first == s.first && t.last == s.last
    ensures CursorAt(w, t, k)
  {
  }

  lemma CatchUpKeeps(w: World, batch: nat, s: Process, y: Tally, c: nat, p: nat, ok: bool) returns (c': nat)
    requires w.Good() && Holds(w, batch, s, y, c, p) && Delivers(w, s, CatchUp(ok))
    ensures var k := if y.behind then p - 1 else p;
            Holds(w, batch, Do(w, batch, s, CatchUp(ok)).0, Tallied(w, batch, s, y, CatchUp(ok)), c', k + 1)
    ensures c <= c' && (ok ==> Do(w, batch, s, CatchUp(ok)).1)
  {
    hide World.At, Added, Flushed, Observed, WriterHolds, World.Good, CursorAt, Tally.Again, Tally.Flushed;
    var k := if y.behind then p - 1 else p;
    Committed(w, s.db, s.writer, y, c, p);
    NextIsNext(w, s, k);
    Uncommitted(w, batch, s, y, c, p);
    c' := AddKeeps(w, batch, s.db, s.writer, y, c, p, y.behind, ok);
    var r := Added(w.decode, batch, s.db, s.writer, w.chain[k], ok);
    var u := if y.behind then y.Again(RowCount(w, k)) else y;
    var v := if r.1.buffer.blocks == [] then u.Flushed() else u;
    Delivered(w, batch, s, r, v, c', k);
    var t := if r.2 then Observed(WithWriter(s, r), w.chain[k]) else WithWriter(s, r);
    ObserveKeepsRest(WithWriter(s, r), w.chain[k]);
    assert Do(w, batch, s, CatchUp(ok)) == (t, r.2);
    assert Tallied(w, batch, s, y, CatchUp(ok)) == v.(behind := !r.2);
    Committed(w, r.0, r.1, v, c', k + 1);
  }

  lemma FollowKeeps(w: World, batch: nat, s: Process, y: Tally, c: nat, p: nat, addOk: bool, flushOk: bool)
      returns (c': nat)
    requires w.Good() && Holds(w, batch, s, y, c, p) && Delivers(w, s, Follow(addOk, flushOk))
    ensures var k := if y.behind then p - 1 else p;
            var step := Follow(addOk, flushOk);
            Holds(w, batch, Do(w, batch, s, step).0, Tallied(w, batch, s, y, step), c', k + 1)
    ensures c <= c' && (addOk && flushOk ==> Do(w, batch, s, Follow(addOk, flushOk)).1)
  {
    hide World.At, Added, Flushed, Observed, WriterHolds, World.Good, CursorAt, Tally.Again;
    var k := if y.behind then p - 1 else p;
    Committed(w, s.db, s.writer, y, c, p);
    NextIsNext(w, s, k);
    Uncommitted(w, batch, s, y, c, p);
    c' := AddKeeps(w, batch, s.db, s.writer, y, c, p, y.behind, addOk);
    var r := Added(w.decode, batch, s.db, s.writer, w.chain[k], addOk);
    var u := if y.behind then y.Again(RowCount(w, k)) else y;
    var v := if r.1.buffer.blocks == [] then u.Flushed() else u;
    var f := r;
    if r.2 {
      c' := FlushKeeps(w, r.0, r.1, v, c', k + 1, flushOk);
      f := Flushed(r.0, r.1, flushOk);
      v := if f.1.buffer.blocks == [] then v.Flushed() else v;
    }
    Delivered(w, batch, s, f, v, c', k);
    ObserveKeepsRest(WithWriter(s, f), w.chain[k]);
    var t := if f.2 then Observed(WithWriter(s, f), w.chain[k]) else WithWriter(s, f);
    assert Do(w, batch, s, Follow(addOk, flushOk)) == (t, f.2);
    assert Tallied(w, batch, s, y, Follow(addOk, flushOk)) == v.(behind := !f.2);
  }

  /** A step that writes nothing leaves the tally alone: an empty buffer holds no repeats. */
  lemma IdleKeeps(w: World, batch: nat, s: Process, y: Tally, step: Step, c: nat, p: nat)
    requires Holds(w, batch, s, y, c, p) && Do(w, batch, s, step) == (s, true)
    requires !step.Restart? && !Delivers(w, s, step)
    ensures Tallied(w, batch, s, y, step) == y
  {
    hide World.At, InsertLog, Do, CursorAt;
  }

  predicate Accepted(step: Step) {
    match step
    case CatchUp(ok) => ok
    case Follow(addOk, flushOk) => addOk && flushOk
    case Flush(ok) => ok
    case _ => true
  }

  /** Every kind of step, successful or not, keeps the invariant; one whose writes the database
      accepts succeeds. */
  lemma StepKeeps(w: World, batch: nat, s: Process, y: Tally, step: Step, c: nat, p: nat) returns (c': nat, p': nat)
    requires w.Good() && Holds(w, batch, s, y, c, p)
    ensures Holds(w, batch, Do(w, batch, s, step).0, Tallied(w, batch, s, y, step), c', p')
    ensures c <= c' && (step.Restart? ==> c' == c)
    ensures p' == if step.Restart? then c else if Delivers(w, s, step) && !y.behind then p + 1 else p
    ensures Accepted(step) ==> Do(w, batch, s, step).1
  {
    hide World.At, Added, Flushed, Restarted, Observed, WriterHolds, World.Good, CursorAt, Holds;
    c', p' := c, p;
    if Delivers(w, s, step) {
      hide Do, Tallied;
      p' := if y.behind then p else p + 1;
      if step.CatchUp? {
        c' := CatchUpKeeps(w, batch, s, y, c, p, step.addOk);
      } else {
        c' := FollowKeeps(w, batch, s, y, c, p, step.addOk, step.flushOk);
      }
    } else {
      match step {
        case Restart =>
          p' := c;
          HoldsCommitted(w, batch, s, y, c, p);
          RestartHolds(w, batch, s.db, y.committed, c);
        case Flush(ok) =>
          c' := FlushStepKeeps(w, batch, s, y, c, p, ok);
        case _ =>
          IdleKeeps(w, batch, s, y, step, c, p);
      }
    }
  }

  lemma HoldsCommitted(w: World, batch: nat, s: Process, y: Tally, c: nat, p: nat)
    requires Holds(w, batch, s, y, c, p)
    ensures c <= p <= |w.chain| && s.db.log == w.At(c).db.log && |s.db.events| == |w.At(c).db.events| + y.committed
    ensures y.committed == 0 ==> s.db == w.At(c).db
  {
    hide WriterHolds, World.At;
    Committed(w, s.db, s.writer, y, c, p);
  }

  lemma FlushStepKeeps(w: World, batch: nat, s: Process, y: Tally, c: nat, p: nat, ok: bool) returns (c': nat)
    requires Holds(w, batch, s, y, c, p)
    ensures Holds(w, batch, Do(w, batch, s, Flush(ok)).0, Tallied(w, batch, s, y, Flush(ok)), c', p)
    ensures c <= c' && (ok ==> Do(w, batch, s, Flush(ok)).1)
  {
    hide World.At, Flushed, WriterHolds, CursorAt;
    Committed(w, s.db, s.writer, y, c, p);
    c' := FlushKeeps(w, s.db, s.writer, y, c, p, ok);
    SameCursor(w, s, WithWriter(s, Flushed(s.db, s.writer, ok)), if y.behind then p - 1 else p);
  }

  /** So does every run, whatever its outcomes. */
  lemma {:induction false} RunKeeps(w: World, batch: nat, s: Process, y: Tally, steps: seq<Step>, c: nat, p: nat)
      returns (c': nat, p': nat)
    requires w.Good() && Holds(w, batch, s, y, c, p)
    ensures Holds(w, batch, Run(w, batch, s, steps), TallyOf(w, batch, s, y, steps), c', p') && c <= c'
    decreases |steps|
  {
    hide Do, Tallied, Holds, World.Good;
    c', p' := c, p;
    if steps != [] {
      c', p' := StepKeeps(w, batch, s, y, steps[0], c, p);
      c', p' := RunKeeps(w, batch, Do(w, batch, s, steps[0]).0, Tallied(w, batch, s, y, steps[0]), steps[1..], c', p');
    }
  }

  /** A fresh process on the opening database. */
  function Start(w: World): Process {
    Restarted(w.opening)
  }

  lemma StartHolds(w: World, batch: nat)
    requires w.Good()
    ensures Holds(w, batch, Start(w), CLEAN, 0, 0) && Start(w).db == w.opening == w.At(0).db
  {
    RestartHolds(w, batch, w.opening, 0, 0);
  }

  // ---- repeated rows ----

  /** Repeats only ever add up. */
  lemma {:induction false} CommittedGrows(w: World, batch: nat, s: Process, y: Tally, steps: seq<Step>)
    ensures TallyOf(w, batch, s, y, steps).committed >= y.committed
    decreases |steps|
  {
    hide Do;
    if steps != [] {
      CommittedGrows(w, batch, Do(w, batch, s, steps[0]).0, Tallied(w, batch, s, y, steps[0]), steps[1..]);
    }
  }

  /** When no block with rows is delivered again before the next restart, no row is repeated. */
  lemma {:induction false} AdmissibleRepeatsNothing(w: World, batch: nat, s: Process, y: Tally, steps: seq<Step>)
    requires Admissible(w, batch, s, y, steps) && y.waiting == 0
    ensures TallyOf(w, batch, s, y, steps).waiting == 0 && TallyOf(w, batch, s, y, steps).committed == y.committed
    decreases |steps|
  {
    hide Do, RowCount;
    if steps != [] {
      AdmissibleRepeatsNothing(w, batch, Do(w, batch, s, steps[0]).0, Tallied(w, batch, s, y, steps[0]), steps[1..]);
    }
  }

  /** A run in which every step the database is asked to commit succeeds never repeats a block. */
  lemma {:induction false} AcceptedIsAdmissible(w: World, batch: nat, s: Process, y: Tally, steps: seq<Step>, c: nat, p: nat)
    requires w.Good() && Holds(w, batch, s, y, c, p) && !y.behind
    requires forall i :: 0 <= i < |steps| - 1 ==> Accepted(steps[i])
    ensures Admissible(w, batch, s, y, steps)
    ensures steps != [] && Accepted(steps[|steps| - 1]) ==> !TallyOf(w, batch, s, y, steps).behind
    decreases |steps|
  {
    hide Do, Holds, RowCount, World.Good;
    if steps != [] {
      var c', p' := StepKeeps(w, batch, s, y, steps[0], c, p);
      if |steps| > 1 {
        AcceptedIsAdmissible(w, batch, Do(w, batch, s, steps[0]).0, Tallied(w, batch, s, y, steps[0]), steps[1..], c', p');
      } else {
        assert steps[1..] == [];
      }
    }
  }

  // ---- the uninterrupted run ----

  /** `n` blocks added and one flush at the end. */
  function Straight(n: nat): seq<Step> {
    seq(n, _ => CatchUp(true)) + [Flush(true)]
  }

  lemma StraightTail(n: nat)
    ensures Straight(n + 1)[0] == CatchUp(true) && Straight(n + 1)[1..] == Straight(n)
  {
  }

  lemma {:induction false} StraightRun(w: World, batch: nat, s: Process, k: nat, n: nat)
    requires w.Good() && Holds(w, batch, s, CLEAN, 0, k) && k + n <= |w.chain| && batch > k + n
    ensures Run(w, batch, s, Straight(n)).db == w.At(k + n).db
    decreases n
  {
    hide World.At, Holds, World.Good, Do, Tallied;
    if n == 0 {
      LastFlush(w, batch, s, k);
    } else {
      StraightTail(n - 1);
      var t := StraightStep(w, batch, s, k);
      StraightRun(w, batch, t, k + 1, n - 1);
    }
  }

  lemma LastFlush(w: World, batch: nat, s: Process, k: nat)
    requires Holds(w, batch, s, CLEAN, 0, k)
    ensures Run(w, batch, s, Straight(0)).db == w.At(k).db
  {
    hide World.At, WriterHolds, Flushed;
    FlushCommits(w, s.db, s.writer, CLEAN, 0, k);
    var t := Do(w, batch, s, Flush(true)).0;
    assert Straight(0)[0] == Flush(true) && Straight(0)[1..] == [];
    assert Run(w, batch, t, []) == t;
  }

  lemma StraightStep(w: World, batch: nat, s: Process, k: nat) returns (t: Process)
    requires w.Good() && Holds(w, batch, s, CLEAN, 0, k) && k < |w.chain| && k + 1 < batch
    ensures Do(w, batch, s, CatchUp(true)) == (t, true) && Holds(w, batch, t, CLEAN, 0, k + 1)
  {
    hide World.At, Buffered, World.Good, WriterHolds, CursorAt;
    NextIsNext(w, s, k);
    BufferedKeeps(w, s.db, s.writer, CLEAN, 0, k);
    BufferedIsSome(w.decode, s.writer, w.chain[k]);
    Waiting(w, s.db, s.writer, 0, k);
    var u := WithWriter(s, (s.db, Buffered(w.decode, s.writer, w.chain[k]), true));
    SameCursor(w, s, u, k);
    ObserveMoves(w, u, k);
    ObserveKeepsRest(u, w.chain[k]);
    t := Observed(u, w.chain[k]);
    assert Do(w, batch, s, CatchUp(true)) == (t, true);
  }

  lemma Waiting(w: World, db: Db, s: WriterState, c: nat, p: nat)
    requires WriterHolds(w, db, s, CLEAN, c, p)
    ensures |s.buffer.blocks| == p - c
  {
  }

  // ---- main results ----

  /** Blocks handed to the writer since the chain's first, crashes undone. */
  function DeliveredBlocks(w: World, s: Process, y: Tally): int {
    NextHeight(w, s) - w.first + if y.behind then 1 else 0
  }

  /** The last step committed the buffer. */
  predicate EndsInCommit(w: World, batch: nat, steps: seq<Step>) {
    steps != []
    && var n := |steps| - 1;
       var s := Run(w, batch, Start(w), steps[..n]);
       (steps[n].Flush? || (steps[n].Follow? && Delivers(w, s, steps[n]))) && Do(w, batch, s, steps[n]).1
  }

  /** The database and the process after any run at all: which blocks are committed, which are
      buffered, and where the cursor is. A crash loses at most one batch. */
  lemma RunInvariant(w: World, batch: nat, steps: seq<Step>) returns (c: nat, p: nat)
    requires w.Good()
    ensures var t := Run(w, batch, Start(w), steps);
            var y := TallyOf(w, batch, Start(w), CLEAN, steps);
            && c <= p <= |w.chain| && p == DeliveredBlocks(w, t, y)
            && p - c <= AtLeastOne(batch) && (!y.behind ==> p - c < AtLeastOne(batch))
            && t.db.log == w.At(c).db.log && InsertLog(t.db.log, t.writer.buffer.blocks) == Some(w.At(p).db.log)
            && |t.writer.buffer.blocks| == p - c + y.copies
            && (y.copies == 0 ==> t.db.log + t.writer.buffer.blocks == w.At(p).db.log)
            && (y.committed == 0 ==> t.db == w.At(c).db)
            && (y.committed + y.waiting == 0 ==>
                  && t.db.events + t.writer.buffer.events == w.At(p).db.events
                  && t.db.depths + t.writer.buffer.depths == w.At(p).db.depths
                  && t.writer.tracker == Tracker(w.At(p).current, []))
    ensures Admissible(w, batch, Start(w), CLEAN, steps) ==>
              var y := TallyOf(w, batch, Start(w), CLEAN, steps); y.committed + y.waiting == 0
  {
    hide World.At, World.Good, Start, Run, TallyOf, Admissible;
    StartHolds(w, batch);
    c, p := RunKeeps(w, batch, Start(w), CLEAN, steps, 0, 0);
    var t, y := Run(w, batch, Start(w), steps), TallyOf(w, batch, Start(w), CLEAN, steps);
    HoldsSpelledOut(w, batch, t, y, c, p);
    if Admissible(w, batch, Start(w), CLEAN, steps) {
      AdmissibleRepeatsNothing(w, batch, Start(w), CLEAN, steps);
    }
  }

  lemma HoldsSpelledOut(w: World, batch: nat, s: Process, y: Tally, c: nat, p: nat)
    requires w.Good() && Holds(w, batch, s, y, c, p)
    ensures c <= p <= |w.chain| && p == DeliveredBlocks(w, s, y)
    ensures p - c <= AtLeastOne(batch) && (!y.behind ==> p - c < AtLeastOne(batch))
    ensures InsertLog(s.db.log, s.writer.buffer.blocks) == Some(w.At(p).db.log)
    ensures |s.writer.buffer.blocks| == p - c + y.copies
    ensures y.copies == 0 ==> s.db.log + s.writer.buffer.blocks == w.At(p).db.log
    ensures y.committed + y.waiting == 0 ==> Unrepeated(w, s.db, s.writer, p)
    ensures s.db.log == w.At(c).db.log && |s.db.events| == |w.At(c).db.events| + y.committed
    ensures y.committed == 0 ==> s.db == w.At(c).db
  {
    hide World.At, World.Good, InsertLog, CursorAt;
    NextIsNext(w, s, if y.behind then p - 1 else p);
  }

  /** Crash and batch-size transparency, exactly. Whatever the batch size and however the run was
      broken up by crashes, failed flushes, fetch errors, cancellations and shutdowns, the log holds
      the first `n` blocks for some `n`, contiguous in height; everything else delivered is in the
      buffer, and nothing when the last step committed. And the database is the one that adding those
      `n` blocks without interruption and flushing once would have written if and only if no row of a
      block delivered again after a failed flush was committed. */
  lemma CrashAndBatchTransparency(w: World, batch: nat, steps: seq<Step>) returns (n: nat)
    requires w.Good()
    ensures var t := Run(w, batch, Start(w), steps);
            var y := TallyOf(w, batch, Start(w), CLEAN, steps);
            && n == |t.db.log| <= |w.chain|
            && (forall j :: 0 <= j < n ==> t.db.log[j].height == w.first + j)
            && n + |t.writer.buffer.blocks| == DeliveredBlocks(w, t, y) + y.copies
            && (EndsInCommit(w, batch, steps) ==> n == DeliveredBlocks(w, t, y))
            && (t.db == Run(w, n + 1, Start(w), Straight(n)).db <==> y.committed == 0)
    ensures Admissible(w, batch, Start(w), CLEAN, steps) ==> TallyOf(w, batch, Start(w), CLEAN, steps).committed == 0
  {
    hide World.At, Run, World.Good, Start, TallyOf, Admissible, InsertLog, DeliveredBlocks, EndsInCommit;
    var p;
    n, p := RunInvariant(w, batch, steps);
    LogHeights(w, n);
    StartHolds(w, n + 1);
    StraightRun(w, n + 1, Start(w), 0, n);
    var t, y := Run(w, batch, Start(w), steps), TallyOf(w, batch, Start(w), CLEAN, steps);
    StartHolds(w, batch);
    var c, q := RunKeeps(w, batch, Start(w), CLEAN, steps, 0, 0);
    HoldsSpelledOut(w, batch, t, y, c, q);
    LogHeights(w, c);
    if EndsInCommit(w, batch, steps) {
      CommitEmpties(w, batch, steps);
      EmptyMeansAll(w, batch, t, y, c, q);
    }
  }

  lemma CommitEmpties(w: World, batch: nat, steps: seq<Step>)
    requires EndsInCommit(w, batch, steps)
    ensures Run(w, batch, Start(w), steps).writer.buffer.blocks == []
  {
    hide Commit, Added, Start;
    var n := |steps| - 1;
    RunLast(w, batch, Start(w), steps);
    var s := Run(w, batch, Start(w), steps[..n]);
    FollowEmpties(w, batch, s, steps[n]);
  }

  lemma FollowEmpties(w: World, batch: nat, s: Process, step: Step)
    requires (step.Flush? || (step.Follow? && Delivers(w, s, step))) && Do(w, batch, s, step).1
    ensures Do(w, batch, s, step).0.writer.buffer.blocks == []
  {
    hide Commit, Added;
  }

  lemma {:induction false} RunLast(w: World, batch: nat, s: Process, steps: seq<Step>)
    requires steps != []
    ensures var n := |steps| - 1; Run(w, batch, s, steps) == Do(w, batch, Run(w, batch, s, steps[..n]), steps[n]).0
    decreases |steps|
  {
    hide Do;
    var n := |steps| - 1;
    if n > 0 {
      RunLast(w, batch, Do(w, batch, s, steps[0]).0, steps[1..]);
      assert steps[1..][..n - 1] == steps[..n][1..] && steps[..n][0] == steps[0];
    } else {
      assert steps[..0] == [] && steps[1..] == [];
    }
  }

  lemma EmptyMeansAll(w: World, batch: nat, s: Process, y: Tally, c: nat, p: nat)
    requires Holds(w, batch, s, y, c, p) && s.writer.buffer.blocks == []
    ensures c == p && y.copies == 0
  {
    hide World.At, InsertLog, CursorAt;
  }

  // ---- a failed flush retried in the same process ----

  /** Steps of one process in which the block at the cursor never gets through before the last. */
  predicate Retries(w: World, batch: nat, s: Process, steps: seq<Step>)
    decreases |steps|
  {
    steps == []
    || (!steps[0].Restart? && (Delivers(w, s, steps[0]) && Do(w, batch, s, steps[0]).1 ==> |steps| == 1)
        && Retries(w, batch, Do(w, batch, s, steps[0]).0, steps[1..]))
  }

  function Deliveries(w: World, batch: nat, s: Process, steps: seq<Step>): nat
    decreases |steps|
  {
    if steps == [] then 0
    else (if Delivers(w, s, steps[0]) then 1 else 0) + Deliveries(w, batch, Do(w, batch, s, steps[0]).0, steps[1..])
  }

  /** Each retry repeats the rows of that one block, whether or not it succeeds. */
  lemma {:induction false} RetriesRepeat(w: World, batch: nat, s: Process, y: Tally, steps: seq<Step>, c: nat, p: nat)
      returns (c': nat)
    requires w.Good() && Holds(w, batch, s, y, c, p) && y.behind && 0 < p <= |w.chain| && Retries(w, batch, s, steps)
    ensures var z := TallyOf(w, batch, s, y, steps);
            && Holds(w, batch, Run(w, batch, s, steps), z, c', p)
            && (RowCount(w, p - 1) == 0 ==> z.committed + z.waiting == y.committed + y.waiting)
            && z.committed + z.waiting >= y.committed + y.waiting
            && (Deliveries(w, batch, s, steps) > 0 ==>
                  z.committed + z.waiting >= y.committed + y.waiting + RowCount(w, p - 1))
    decreases |steps|
  {
    hide Do, Holds, RowCount, World.Good, NextHeight;
    c' := c;
    if steps != [] {
      var q;
      c', q := StepKeeps(w, batch, s, y, steps[0], c, p);
      BehindAt(w, batch, s, y, c, p);
      TallyStep(w, batch, s, y, steps[0]);
      var t, z := Do(w, batch, s, steps[0]).0, Tallied(w, batch, s, y, steps[0]);
      if |steps| == 1 {
        assert steps[1..] == [];
        NothingMore(w, batch, t, z);
      } else {
        c' := RetriesRepeat(w, batch, Do(w, batch, s, steps[0]).0, Tallied(w, batch, s, y, steps[0]), steps[1..], c', p);
      }
    }
  }

  lemma NothingMore(w: World, batch: nat, s: Process, y: Tally)
    ensures Run(w, batch, s, []) == s && TallyOf(w, batch, s, y, []) == y && Deliveries(w, batch, s, []) == 0
  {
  }

  lemma BehindAt(w: World, batch: nat, s: Process, y: Tally, c: nat, p: nat)
    requires w.Good() && Holds(w, batch, s, y, c, p) && y.behind
    ensures 0 < p <= |w.chain| && NextHeight(w, s) == w.first + p - 1
  {
    hide World.At, InsertLog, World.Good;
    NextIsNext(w, s, p - 1);
  }

  lemma TallyStep(w: World, batch: nat, s: Process, y: Tally, step: Step)
    requires !step.Restart?
    ensures var z := Tallied(w, batch, s, y, step);
            && z.behind == (if Delivers(w, s, step) then !Do(w, batch, s, step).1 else y.behind)
            && z.committed + z.waiting == y.committed + y.waiting
                 + if Delivers(w, s, step) && y.behind then RowCount(w, NextHeight(w, s) - w.first) else 0
  {
    hide Do, RowCount, NextHeight;
  }

  /** The flush of a block fails, in any mode and for whatever reason, and the same process goes on:
      after any number of retries, in any modes, the next commit leaves the right database if and
      only if the block has no rows. */
  lemma FailedFlushRetried(w: World, batch: nat, s: Process, c: nat, k: nat, first: Step, retries: seq<Step>)
    requires w.Good() && Holds(w, batch, s, CLEAN, c, k)
    requires Delivers(w, s, first) && !Do(w, batch, s, first).1
    requires var failed := Do(w, batch, s, first).0;
             Retries(w, batch, failed, retries) && Deliveries(w, batch, failed, retries) > 0
    ensures var t := Do(w, batch, Run(w, batch, Do(w, batch, s, first).0, retries), Flush(true)).0;
            k < |w.chain| && (t.db == w.At(k + 1).db <==> BlockRows(w.decode, w.chain[k]) == [])
  {
    hide World.At, Holds, World.Good, NextHeight, Do, Run, TallyOf, BlockRows;
    var failed, y := Do(w, batch, s, first).0, Tallied(w, batch, s, CLEAN, first);
    var c', p' := StepKeeps(w, batch, s, CLEAN, first, c, k);
    TallyStep(w, batch, s, CLEAN, first);
    BehindAt(w, batch, failed, y, c', p');
    c' := RetriesRepeat(w, batch, failed, y, retries, c', p');
    var u, z := Run(w, batch, failed, retries), TallyOf(w, batch, failed, y, retries);
    c', p' := StepKeeps(w, batch, u, z, Flush(true), c', p');
    TallyStep(w, batch, u, z, Flush(true));
    FollowEmpties(w, batch, u, Flush(true));
    var t, v := Do(w, batch, u, Flush(true)).0, Tallied(w, batch, u, z, Flush(true));
    EmptyMeansAll(w, batch, t, v, c', p');
    HoldsCommitted(w, batch, t, v, c', p');
  }

  /** The writer alone: adding a block again after its flush failed, then committing. */
  lemma RetryWithoutRestart(w: World, db: Db, s: WriterState, c: nat, p: nat)
    requires w.Good() && WriterHolds(w, db, s, CLEAN, c, p) && p > 0
    ensures var (d, t, done) := Flushed(db, Buffered(w.decode, s, w.chain[p - 1]), true);
            done && (d == w.At(p).db <==> BlockRows(w.decode, w.chain[p - 1]) == [])
  {
    hide World.At, WriterHolds, Flushed, Buffered, World.Good, BlockRows;
    Committed(w, db, s, CLEAN, c, p);
    var twice, y := Buffered(w.decode, s, w.chain[p - 1]), CLEAN.Again(RowCount(w, p - 1));
    BufferedAgain(w, db, s, CLEAN, c, p);
    FlushCommits(w, db, twice, y, c, p);
    var (d, t, done) := Flushed(db, twice, true);
    Committed(w, d, t, y.Flushed(), p, p);
  }

  /** One block with one event that adds to a pool. */
  function OneDonation(): World {
    World(_ => OneRecord(AddEvent("BTC.BTC", 0, 1)), 1, Db([], [], []),
          [Block(1, 1, "", [Event("donate", [])], None)])
  }

  lemma OneDonationHasARow()
    ensures OneDonation().Good() && |BlockRows(OneDonation().decode, OneDonation().chain[0])| == 1
  {
    var w := OneDonation();
    var b := w.chain[0];
    var e := b.finalizeEvents[0];
    assert Attr(e.attributes, "mode") == None;
    assert BeginBlockEvents(b, 1) == [] && EndBlockEvents(b, 1) == [];
    assert BeginBlockEvents(b, 0) == [Located(BeginBlockId(1), e)];
    assert EndBlockEvents(b, 0) == [] && SuccessfulTxEvents(b, 0) == [];
    assert BlockEvents(b) == [Located(BeginBlockId(1), e)];
    assert EventRows(w.decode, [], 1) == [];
    assert BlockEvents(b)[..0] == [];
  }

  /** A refused flush at the end of a full batch. */
  lemma RefusedAtFullBatch(w: World, batch: nat, s: Process)
    requires Delivers(w, s, CatchUp(false)) && |s.writer.buffer.blocks| + 1 >= batch
    ensures !Do(w, batch, s, CatchUp(false)).1
  {
    hide Buffered;
    BufferedIsSome(w.decode, s.writer, w.chain[NextHeight(w, s) - w.first]);
  }

  /** Batches of one: the flush of that block fails once and the loop's next turn succeeds. The row
      is committed twice. */
  lemma RetryRepeatsRows()
    ensures var w := OneDonation();
            var retried := Run(w, 1, Start(w), [CatchUp(false), CatchUp(true), Flush(true)]);
            retried.db != Run(w, 2, Start(w), Straight(1)).db
  {
    var w := OneDonation();
    OneDonationHasARow();
    hide OneDonation, BlockRows, World.Good, Do, Holds, NextHeight, Start;
    var s := Start(w);
    StartHolds(w, 1);
    StartHolds(w, 2);
    assert |w.chain| == 1 by { OneBlock(); }
    StraightRun(w, 2, s, 0, 1);
    HoldsSpelledOut(w, 1, s, CLEAN, 0, 0);
    RefusedAtFullBatch(w, 1, s);
    var failed, y := Do(w, 1, s, CatchUp(false)).0, Tallied(w, 1, s, CLEAN, CatchUp(false));
    var c, p := StepKeeps(w, 1, s, CLEAN, CatchUp(false), 0, 0);
    TallyStep(w, 1, s, CLEAN, CatchUp(false));
    BehindAt(w, 1, failed, y, c, p);
    assert Delivers(w, failed, CatchUp(true));
    assert [CatchUp(true)][1..] == [];
    FailedFlushRetried(w, 1, s, 0, 0, CatchUp(false), [CatchUp(true)]);
    ThreeSteps(w, 1, s, CatchUp(false), CatchUp(true), Flush(true));
  }

  lemma OneBlock()
    ensures |OneDonation().chain| == 1
  {
  }

  lemma ThreeSteps(w: World, batch: nat, s: Process, a: Step, b: Step, c: Step)
    ensures Run(w, batch, s, [a, b, c]) == Do(w, batch, Run(w, batch, Do(w, batch, s, a).0, [b]), c).0
  {
    hide Do;
    assert [a, b, c][1..] == [b, c];
    RunLast(w, batch, Do(w, batch, s, a).0, [b, c]);
    assert [b, c][..1] == [b];
  }

  // ---- forks ----

  /** Rolling back to a fork, restarting and syncing the other branch, however interrupted, leaves
      what a fresh, uninterrupted sync of that branch leaves, if and only if no repeated row was
      committed on the way. */
  lemma ForkResync(w: World, other: seq<Block>, n: nat, fork: nat, batch: nat, steps: seq<Step>) returns (m: nat)
    requires w.Good() && fork < n <= |w.chain|
    requires w.(chain := other).Good() && fork <= |other| && other[..fork] == w.chain[..fork]
    ensures var v, s := w.(chain := other), Restarted(RolledBack(w.At(n).db, w.first + fork));
            var db := Run(v, batch, s, steps).db;
            m == |db.log| && fork <= m
            && (db == Run(v, m + 1, Start(v), Straight(m)).db <==> TallyOf(v, batch, s, CLEAN, steps).committed == 0)
    ensures var v, s := w.(chain := other), Restarted(RolledBack(w.At(n).db, w.first + fork));
            Admissible(v, batch, s, CLEAN, steps) ==> TallyOf(v, batch, s, CLEAN, steps).committed == 0
  {
    hide World.At, Admissible, Run, TallyOf, Holds, World.Good, Start, RolledBack, Restarted;
    var v := w.(chain := other);
    RollbackIsUndo(w, n, fork);
    ReplayAgrees(w, other, fork);
    RestartHolds(v, batch, v.At(fork).db, 0, fork);
    var s := Restarted(v.At(fork).db);
    var c, p := RunKeeps(v, batch, s, CLEAN, steps, fork, fork);
    HoldsCommitted(v, batch, Run(v, batch, s, steps), TallyOf(v, batch, s, CLEAN, steps), c, p);
    LogHeights(v, c);
    m := c;
    StartHolds(v, m + 1);
    StraightRun(v, m + 1, Start(v), 0, m);
    if Admissible(v, batch, s, CLEAN, steps) {
      AdmissibleRepeatsNothing(v, batch, s, CLEAN, steps);
    }
  }
}
