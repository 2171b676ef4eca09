/** The ingest process as a machine on values: buffering, flushing, restarting, and its cursor. */
module Ingest {
  import opened Wrappers
  import opened Blocks
  import opened Depths
  import opened Ledgers
  import opened LedgerTheorems
  import opened BlockCursors

  // ---- one transaction ----

  /** Rows waiting for the next transaction. */
  datatype Buffer = Buffer(blocks: seq<LogRow>, events: seq<EventRow>, depths: seq<DepthRow>)

  const NOTHING: Buffer := Buffer([], [], [])

  predicate HasHeight(log: seq<LogRow>, height: int) {
    exists k :: 0 <= k < |log| && log[k].height == height
  }

  predicate HasTimestamp(log: seq<LogRow>, timestamp: int) {
    exists k :: 0 <= k < |log| && log[k].timestamp == timestamp
  }

  /** `INSERT INTO block_log ... ON CONFLICT (height) DO NOTHING`; a repeated timestamp under a new
      height breaks the table's other key and fails the statement. */
  function InsertLog(log: seq<LogRow>, rows: seq<LogRow>): Option<seq<LogRow>> {
    if rows == [] then Some(log)
    else
      var row := rows[|rows| - 1];
      match InsertLog(log, rows[..|rows| - 1])
      case None => None
      case Some(l) =>
        if HasHeight(l, row.height) then Some(l)
        else if HasTimestamp(l, row.timestamp) then None
        else Some(l + [row])
  }

  function Commit(db: Db, buffer: Buffer): Option<Db> {
    match InsertLog(db.log, buffer.blocks)
    case None => None
    case Some(log) => Some(Db(log, db.events + buffer.events, db.depths + buffer.depths))
  }

  // ---- the writer ----

  datatype WriterState = WriterState(buffer: Buffer, tracker: Tracker)

  /** Decode a block into the buffer. */
  function Buffered(decode: Decoder, s: WriterState, b: Block): WriterState {
    var rows := BlockRows(decode, b);
    var t := s.tracker.AfterAll(MovesOf(rows));
    WriterState(Buffer(s.buffer.blocks + [LogRowOf(b)], s.buffer.events + rows,
                       s.buffer.depths + DepthRows(t.Changed(), b.timestamp)),
                Tracker(t.current, []))
  }

  /** Flush, with the outcome `ok` of the database; answers whether it succeeded. */
  function Flushed(db: Db, s: WriterState, ok: bool): (Db, WriterState, bool) {
    if s.buffer.blocks == [] then (db, s, true)
    else if ok && Commit(db, s.buffer).Some? then (Commit(db, s.buffer).value, WriterState(NOTHING, s.tracker), true)
    else (db, s, false)
  }

  function Added(decode: Decoder, batch: nat, db: Db, s: WriterState, b: Block, ok: bool): (Db, WriterState, bool) {
    var t := Buffered(decode, s, b);
    if |t.buffer.blocks| >= batch then Flushed(db, t, ok) else (db, t, true)
  }

  // ---- the process ----

  datatype Process = Process(db: Db, writer: WriterState, first: BlockPos, last: BlockPos)

  /** Where the sync loop asks for its next block. */
  function NextHeight(w: World, s: Process): int {
    if s.last.height + 1 >= w.first then s.last.height + 1 else w.first
  }

  function LowestRow(log: seq<LogRow>): LogRow
    requires log != []
  {
    if |log| == 1 then log[0]
    else
      var r := LowestRow(log[..|log| - 1]);
      if log[|log| - 1].height < r.height then log[|log| - 1] else r
  }

  function HighestRow(log: seq<LogRow>): LogRow
    requires log != []
  {
    if |log| == 1 then log[0]
    else
      var r := HighestRow(log[..|log| - 1]);
      if log[|log| - 1].height > r.height then log[|log| - 1] else r
  }

  function PosOf(row: LogRow): BlockPos {
    BlockPos(row.height, row.timestamp)
  }

  /** A new process on an existing database: the cursor is refreshed and the depths restored. */
  function Restarted(db: Db): Process {
    var empty := BlockPos(0, 0);
    Process(db, WriterState(NOTHING, Tracker(Latest(db.depths), [])),
            if db.log == [] then empty else PosOf(LowestRow(db.log)),
            if db.log == [] then empty else PosOf(HighestRow(db.log)))
  }

  function Observed(s: Process, b: Block): Process {
    var pos := BlockPos(b.height, b.timestamp);
    s.(first := if s.first.height == 0 then pos else s.first, last := pos)
  }

  datatype Step =
    | CatchUp(addOk: bool)                 // next block added, cursor moved when that succeeded
    | Follow(addOk: bool, flushOk: bool)   // next block added and flushed, then cursor moved
    | Flush(flushOk: bool)                 // shutdown flush
    | Restart                              // crash: everything in memory is lost
    | Idle                                 // fetch error, cancellation, nothing new

  function WithWriter(s: Process, r: (Db, WriterState, bool)): Process {
    s.(db := r.0, writer := r.1)
  }

  /** One step, and whether it succeeded. */
  function Do(w: World, batch: nat, s: Process, step: Step): (Process, bool) {
    var j := NextHeight(w, s) - w.first;
    match step
    case Idle => (s, true)
    case Restart => (Restarted(s.db), true)
    case Flush(ok) =>
      var r := Flushed(s.db, s.writer, ok);
      (WithWriter(s, r), r.2)
    case CatchUp(ok) =>
      if 0 <= j < |w.chain| then
        var r := Added(w.decode, batch, s.db, s.writer, w.chain[j], ok);
        (if r.2 then Observed(WithWriter(s, r), w.chain[j]) else WithWriter(s, r), r.2)
      else (s, true)
    case Follow(addOk, flushOk) =>
      if 0 <= j < |w.chain| then
        var r := Added(w.decode, batch, s.db, s.writer, w.chain[j], addOk);
        if !r.2 then (WithWriter(s, r), false)
        else
          var f := Flushed(r.0, r.1, flushOk);
          (if f.2 then Observed(WithWriter(s, f), w.chain[j]) else WithWriter(s, f), f.2)
      else (s, true)
  }

  function Run(w: World, batch: nat, s: Process, steps: seq<Step>): Process
    decreases |steps|
  {
    if steps == [] then s else Run(w, batch, Do(w, batch, s, steps[0]).0, steps[1..])
  }

  // ---- deliveries that repeat ----

  /** What a failed flush has led to. `behind`: the block at the cursor is in the buffer already, so
      the loop will deliver it again. `copies` blocks in the buffer are such repeats; they add
      `waiting` event rows to the buffer, and those of earlier flushes `committed` to the database. */
  datatype Tally = Tally(behind: bool, copies: nat, waiting: nat, committed: nat) {
    /** After a commit of the whole buffer. */
    function Flushed(): Tally {
      Tally(behind, 0, 0, committed + waiting)
    }

    function Again(rows: nat): Tally {
      Tally(behind, copies + 1, waiting + rows, committed)
    }
  }

  const CLEAN: Tally := Tally(false, 0, 0, 0)

  /** The step hands a block of the chain to the writer. */
  predicate Delivers(w: World, s: Process, step: Step) {
    (step.CatchUp? || step.Follow?) && 0 <= NextHeight(w, s) - w.first < |w.chain|
  }

  function RowCount(w: World, j: int): nat
    requires 0 <= j < |w.chain|
  {
    |BlockRows(w.decode, w.chain[j])|
  }

  function Tallied(w: World, batch: nat, s: Process, y: Tally, step: Step): Tally {
    var (t, ok) := Do(w, batch, s, step);
    if step.Restart? then Tally(false, 0, 0, y.committed)
    else
      var u := if Delivers(w, s, step) && y.behind then y.Again(RowCount(w, NextHeight(w, s) - w.first)) else y;
      var v := if t.writer.buffer.blocks == [] then u.Flushed() else u;
      if Delivers(w, s, step) then v.(behind := !ok) else v
  }

  function TallyOf(w: World, batch: nat, s: Process, y: Tally, steps: seq<Step>): Tally
    decreases |steps|
  {
    if steps == [] then y
    else TallyOf(w, batch, Do(w, batch, s, steps[0]).0, Tallied(w, batch, s, y, steps[0]), steps[1..])
  }

  /** No block with rows is delivered again before the next restart. */
  predicate Admissible(w: World, batch: nat, s: Process, y: Tally, steps: seq<Step>)
    decreases |steps|
  {
    steps == []
    || ((Delivers(w, s, steps[0]) && y.behind ==> RowCount(w, NextHeight(w, s) - w.first) == 0)
        && Admissible(w, batch, Do(w, batch, s, steps[0]).0, Tallied(w, batch, s, y, steps[0]), steps[1..]))
  }

  // ---- invariant ----

  /** `c` blocks are committed and `p` have been delivered. The log is that of `c` blocks, and of `p`
      once the buffer is inserted; rows are counted exactly; and as long as no repeated row has been
      buffered or committed, everything is as if each block had been delivered once. */
  ghost predicate WriterHolds(w: World, db: Db, s: WriterState, y: Tally, c: nat, p: nat) {
    && c <= p <= |w.chain|
    && db.log == w.At(c).db.log
    && InsertLog(db.log, s.buffer.blocks) == Some(w.At(p).db.log)
    && |s.buffer.blocks| == p - c + y.copies
    && (y.copies == 0 ==> y.waiting == 0 && db.log + s.buffer.blocks == w.At(p).db.log)
    && (s.buffer.blocks == [] ==> s.buffer == NOTHING)
    && |db.events| == |w.At(c).db.events| + y.committed
    && |db.events| + |s.buffer.events| == |w.At(p).db.events| + y.committed + y.waiting
    && (y.committed == 0 ==> db == w.At(c).db)
    && (y.committed + y.waiting == 0 ==> Unrepeated(w, db, s, p))
  }

  ghost predicate Unrepeated(w: World, db: Db, s: WriterState, p: nat)
    requires p <= |w.chain|
  {
    && db.events + s.buffer.events == w.At(p).db.events
    && db.depths + s.buffer.depths == w.At(p).db.depths
    && s.tracker == Tracker(w.At(p).current, [])
  }

  /** The cursor is at the first and the last of the first `k` blocks. */
  predicate CursorAt(w: World, s: Process, k: nat)
    requires k <= |w.chain|
  {
    if k == 0 then s.first == s.last == BlockPos(0, 0)
    else s.first == PosOf(LogRowOf(w.chain[0])) && s.last == PosOf(LogRowOf(w.chain[k - 1]))
  }

  function AtLeastOne(batch: nat): nat {
    if batch == 0 then 1 else batch
  }

  /** The writer holds `p` blocks and the cursor is at the last of them, or one behind after a failed
      flush; less than a batch is uncommitted, not counting a block whose flush failed. */
  ghost predicate Holds(w: World, batch: nat, s: Process, y: Tally, c: nat, p: nat) {
    && WriterHolds(w, s.db, s.writer, y, c, p)
    && (y.behind ==> p > 0 && p - 1 - c < AtLeastOne(batch))
    && (!y.behind ==> |s.writer.buffer.blocks| < AtLeastOne(batch))
    && CursorAt(w, s, if y.behind then p - 1 else p)
  }

  /** The next block of the chain is added to the buffer. */
  lemma BufferedKeeps(w: World, db: Db, s: WriterState, y: Tally, c: nat, p: nat)
    requires w.Good() && WriterHolds(w, db, s, y, c, p) && p < |w.chain|
    ensures WriterHolds(w, db, Buffered(w.decode, s, w.chain[p]), y, c, p + 1)
  {
    hide World.At, BlockRows, MovesOf, Tracker.AfterAll, Tracker.Changed, InsertLog, World.Good;
    ReplayStep(w, p);
    var b, u := w.chain[p], Buffered(w.decode, s, w.chain[p]);
    NextRowIsInserted(w, db.log, s.buffer.blocks, p);
    if y.copies == 0 {
      assert db.log + u.buffer.blocks == (db.log + s.buffer.blocks) + [LogRowOf(b)];
    }
    if y.committed + y.waiting == 0 {
      BufferedUnrepeated(w, db, s, p);
    }
  }

  lemma BufferedUnrepeated(w: World, db: Db, s: WriterState, p: nat)
    requires p < |w.chain| && Unrepeated(w, db, s, p)
    ensures Unrepeated(w, db, Buffered(w.decode, s, w.chain[p]), p + 1)
  {
    hide World.At, BlockRows, MovesOf, Tracker.AfterAll, Tracker.Changed;
    ReplayStep(w, p);
    var b := w.chain[p];
    var rows := BlockRows(w.decode, b);
    var t := s.tracker.AfterAll(MovesOf(rows));
    var u := Buffered(w.decode, s, b);
    assert db.events + u.buffer.events == (db.events + s.buffer.events) + rows;
    assert db.depths + u.buffer.depths == (db.depths + s.buffer.depths) + DepthRows(t.Changed(), b.timestamp);
  }

  lemma NextRowIsInserted(w: World, log: seq<LogRow>, rows: seq<LogRow>, p: nat)
    requires w.Good() && p < |w.chain| && InsertLog(log, rows) == Some(w.At(p).db.log)
    ensures InsertLog(log, rows + [LogRowOf(w.chain[p])]) == Some(w.At(p + 1).db.log)
  {
    hide World.At, IsOpening;
    ReplayLog(w, p);
    ReplayLog(w, p + 1);
    var all := rows + [LogRowOf(w.chain[p])];
    assert all[..|all| - 1] == rows;
    assert w.At(p + 1).db.log == w.At(p).db.log + [LogRowOf(w.chain[p])];
  }

  /** The last block delivered is added to the buffer once more. */
  lemma BufferedAgain(w: World, db: Db, s: WriterState, y: Tally, c: nat, p: nat)
    requires w.Good() && WriterHolds(w, db, s, y, c, p) && p > 0
    ensures WriterHolds(w, db, Buffered(w.decode, s, w.chain[p - 1]), y.Again(RowCount(w, p - 1)), c, p)
  {
    hide World.At, BlockRows, MovesOf, Tracker.AfterAll, Tracker.Changed, InsertLog, World.Good;
    RepeatIsSkipped(w, db.log, s.buffer.blocks, p);
    if RowCount(w, p - 1) == 0 {
      RowlessBlock(w.decode, s, w.chain[p - 1]);
    }
  }

  /** `ON CONFLICT DO NOTHING` for a height already in the log. */
  lemma RepeatIsSkipped(w: World, log: seq<LogRow>, rows: seq<LogRow>, p: nat)
    requires w.Good() && 0 < p <= |w.chain| && InsertLog(log, rows) == Some(w.At(p).db.log)
    ensures InsertLog(log, rows + [LogRowOf(w.chain[p - 1])]) == Some(w.At(p).db.log)
  {
    hide World.At, IsOpening;
    ReplayLog(w, p);
    var all := rows + [LogRowOf(w.chain[p - 1])];
    assert all[..|all| - 1] == rows;
    assert w.At(p).db.log[p - 1].height == w.chain[p - 1].height;
  }

  /** A block without rows leaves only its log entry. */
  lemma RowlessBlock(decode: Decoder, s: WriterState, b: Block)
    requires BlockRows(decode, b) == []
    ensures s.tracker.dirty == [] ==> Buffered(decode, s, b).tracker == s.tracker
    ensures s.tracker.dirty == [] ==> Buffered(decode, s, b).buffer == s.buffer.(blocks := s.buffer.blocks + [LogRowOf(b)])
  {
    hide BlockRows;
    NoMoves(s.tracker);
    assert s.buffer.depths + [] == s.buffer.depths && s.buffer.events + [] == s.buffer.events;
  }

  /** Rows with new heights and new timestamps are all inserted. */
  lemma {:induction false} InsertFresh(log: seq<LogRow>, rows: seq<LogRow>)
    requires forall i, j :: 0 <= i < j < |log + rows| ==>
               (log + rows)[i].height != (log + rows)[j].height && (log + rows)[i].timestamp != (log + rows)[j].timestamp
    ensures InsertLog(log, rows) == Some(log + rows)
  {
    if rows != [] {
      var n := |rows| - 1;
      var all, before := log + rows, log + rows[..n];
      assert forall k :: 0 <= k < |before| ==> before[k] == all[k];
      InsertFresh(log, rows[..n]);
      assert all == before + [rows[n]] && all[|before|] == rows[n];
    } else {
      assert log + rows == log;
    }
  }

  /** A flush the database accepts commits everything buffered and empties the buffer. */
  lemma FlushCommits(w: World, db: Db, s: WriterState, y: Tally, c: nat, p: nat)
    requires WriterHolds(w, db, s, y, c, p)
    ensures var (d, t, ok) := Flushed(db, s, true);
            && ok && t == WriterState(NOTHING, s.tracker)
            && WriterHolds(w, d, t, y.Flushed(), p, p) && (y.committed + y.waiting == 0 ==> d == w.At(p).db)
  {
    hide World.At, InsertLog;
    var (d, t, ok) := Flushed(db, s, true);
    NothingInserted(d.log);
    assert d.log + [] == d.log && d.events + [] == d.events && d.depths + [] == d.depths;
    if s.buffer.blocks == [] {
      NothingInserted(db.log);
    }
  }

  lemma NothingInserted(log: seq<LogRow>)
    ensures InsertLog(log, []) == Some(log)
  {
  }

  /** A flush commits everything buffered or changes nothing. */
  lemma FlushKeeps(w: World, db: Db, s: WriterState, y: Tally, c: nat, p: nat, ok: bool) returns (c': nat)
    requires WriterHolds(w, db, s, y, c, p)
    ensures var (d, t, done) := Flushed(db, s, ok);
            && WriterHolds(w, d, t, if t.buffer.blocks == [] then y.Flushed() else y, c', p)
            && (if done then t.buffer == NOTHING && c' == p else d == db && t == s && c' == c && s.buffer.blocks != [])
            && (ok ==> done)
  {
    FlushCommits(w, db, s, y, c, p);
    hide Commit, WriterHolds;
    c' := if Flushed(db, s, ok).2 then p else c;
    if s.buffer.blocks == [] {
      assert Flushed(db, s, ok) == Flushed(db, s, true);
    }
  }

  /** Delivering the next block, or the last one again, leaves it buffered or committed, and commits
      nothing when it fails. */
  lemma AddKeeps(w: World, batch: nat, db: Db, s: WriterState, y: Tally, c: nat, p: nat, again: bool, ok: bool)
      returns (c': nat)
    requires w.Good() && WriterHolds(w, db, s, y, c, p) && (if again then p > 0 else p < |w.chain|)
    ensures var j := if again then p - 1 else p;
            var u := if again then y.Again(RowCount(w, j)) else y;
            var (d, t, done) := Added(w.decode, batch, db, s, w.chain[j], ok);
            && WriterHolds(w, d, t, if t.buffer.blocks == [] then u.Flushed() else u, c', j + 1)
            && (done ==> t.buffer.blocks == [] || (|t.buffer.blocks| < batch && c' == c))
            && c <= c' && (!done ==> c' == c && d == db) && (ok ==> done)
  {
    var j := if again then p - 1 else p;
    var u := if again then y.Again(RowCount(w, j)) else y;
    hide Buffered, Flushed, WriterHolds, Tally.Again, Tally.Flushed;
    if again {
      BufferedAgain(w, db, s, y, c, p);
    } else {
      BufferedKeeps(w, db, s, y, c, p);
    }
    c' := c;
    BufferedIsSome(w.decode, s, w.chain[j]);
    if |Buffered(w.decode, s, w.chain[j]).buffer.blocks| >= batch {
      c' := FlushKeeps(w, db, Buffered(w.decode, s, w.chain[j]), u, c, j + 1, ok);
    }
  }

  lemma BufferedIsSome(decode: Decoder, s: WriterState, b: Block)
    ensures |Buffered(decode, s, b).buffer.blocks| == |s.buffer.blocks| + 1
  {
  }
}
