/** The database and the writer that buffers decoded blocks for it. */
module Writers {
  import opened Wrappers
  import opened EventIds
  import opened Blocks
  import opened Depths
  import opened Ledgers
  import opened LedgerTheorems
  import opened Ingest

  class Database {
    var log: seq<LogRow>
    var events: seq<EventRow>
    var depths: seq<DepthRow>

    constructor (opening: Db)
      ensures State() == opening
    {
      log, events, depths := opening.log, opening.events, opening.depths;
    }

    function State(): Db
      reads this
    {
      Db(log, events, depths)
    }

    /** Drop every trace of blocks at or above `height`, in one transaction; `ok` is its outcome. */
    method DeleteFromHeight(height: int, ok: bool)
      modifies this
      ensures State() == if ok then RolledBack(old(State()), height) else old(State())
    {
      hide TimestampAt, KeepLog, KeepEvents, KeepDepths;
      var timestamp := TimestampAt(log, height);
      if timestamp.None? || !ok {
        return;
      }
      RolledBackTo(State(), height, timestamp.value);
      var kept := ClearTables(events, timestamp.value);
      events, depths, log := kept, KeepDepths(depths, timestamp.value), KeepLog(log, height);
    }
  }

  /** Delete from one event table after the other every row at or after the timestamp. */
  method ClearTables(rows: seq<EventRow>, timestamp: int) returns (kept: seq<EventRow>)
    ensures kept == KeepEvents(rows, timestamp)
  {
    hide KeepEvents, ClearedTables, ClearedTable;
    kept := rows;
    NoTableCleared(rows, timestamp);
    var k := 0;
    while k < |EVENT_TABLES|
      invariant 0 <= k <= |EVENT_TABLES|
      invariant kept == ClearedTables(rows, EVENT_TABLES[..k], timestamp)
    {
      kept := ClearedTable(kept, EVENT_TABLES[k], timestamp);
      OneMoreTable(rows, EVENT_TABLES[..k], EVENT_TABLES[k], timestamp);
      assert EVENT_TABLES[..k + 1] == EVENT_TABLES[..k] + [EVENT_TABLES[k]];
      k := k + 1;
    }
    AllTablesCleared(rows, timestamp);
    assert EVENT_TABLES[..k] == EVENT_TABLES;
  }

  lemma RolledBackTo(db: Db, height: int, t: int)
    requires TimestampAt(db.log, height) == Some(t)
    ensures RolledBack(db, height) == Db(KeepLog(db.log, height), KeepEvents(db.events, t), KeepDepths(db.depths, t))
  {
    hide TimestampAt, KeepLog, KeepEvents, KeepDepths;
  }

  /** `DELETE FROM table WHERE block_timestamp >= timestamp`. */
  function ClearedTable(rows: seq<EventRow>, table: Table, timestamp: int): seq<EventRow> {
    if rows == [] then []
    else
      var row := rows[|rows| - 1];
      ClearedTable(rows[..|rows| - 1], table, timestamp)
      + if TableOf(row.record) == table && row.timestamp >= timestamp then [] else [row]
  }

  function ClearedTables(rows: seq<EventRow>, tables: seq<Table>, timestamp: int): seq<EventRow> {
    if rows == [] then []
    else
      var row := rows[|rows| - 1];
      ClearedTables(rows[..|rows| - 1], tables, timestamp)
      + if TableOf(row.record) in tables && row.timestamp >= timestamp then [] else [row]
  }

  lemma {:induction false} OneMoreTable(rows: seq<EventRow>, tables: seq<Table>, table: Table, timestamp: int)
    ensures ClearedTable(ClearedTables(rows, tables, timestamp), table, timestamp)
         == ClearedTables(rows, tables + [table], timestamp)
  {
    hide TableOf;
    if rows != [] {
      var row, init := rows[|rows| - 1], rows[..|rows| - 1];
      OneMoreTable(init, tables, table, timestamp);
      var cleared := ClearedTables(init, tables, timestamp);
      assert (cleared + [row])[..|cleared|] == cleared;
      assert cleared + [] == cleared;
    }
  }

  lemma {:induction false} NoTableCleared(rows: seq<EventRow>, timestamp: int)
    ensures ClearedTables(rows, EVENT_TABLES[..0], timestamp) == rows
  {
    if rows != [] {
      NoTableCleared(rows[..|rows| - 1], timestamp);
      assert rows == rows[..|rows| - 1] + [rows[|rows| - 1]];
    }
  }

  /** The list of tables misses none, so no row at or after the timestamp survives in any table. */
  lemma {:induction false} AllTablesCleared(rows: seq<EventRow>, timestamp: int)
    ensures ClearedTables(rows, EVENT_TABLES, timestamp) == KeepEvents(rows, timestamp)
  {
    if rows != [] {
      AllTablesCleared(rows[..|rows| - 1], timestamp);
      EveryTableListed(TableOf(rows[|rows| - 1].record));
      hide TableOf;
    }
  }

  lemma EveryTableListed(table: Table)
    ensures table in EVENT_TABLES
  {
    match table
    case ActiveVaultEvents => assert EVENT_TABLES[0] == table;
    case AddEvents => assert EVENT_TABLES[1] == table;
    case BondEvents => assert EVENT_TABLES[2] == table;
    case ErrataEvents => assert EVENT_TABLES[3] == table;
    case FeeEvents => assert EVENT_TABLES[4] == table;
    case GasEvents => assert EVENT_TABLES[5] == table;
    case InactiveVaultEvents => assert EVENT_TABLES[6] == table;
    case MintBurnEvents => assert EVENT_TABLES[7] == table;
    case OutboundEvents => assert EVENT_TABLES[8] == table;
    case PendingLiquidityEvents => assert EVENT_TABLES[9] == table;
    case PoolBalanceChangeEvents => assert EVENT_TABLES[10] == table;
    case PoolEvents => assert EVENT_TABLES[11] == table;
    case RefundEvents => assert EVENT_TABLES[12] == table;
    case RewardsEventEntries => assert EVENT_TABLES[13] == table;
    case RewardsEvents => assert EVENT_TABLES[14] == table;
    case SetMimirEvents => assert EVENT_TABLES[15] == table;
    case SlashEvents => assert EVENT_TABLES[16] == table;
    case StakeEvents => assert EVENT_TABLES[17] == table;
    case SwapEvents => assert EVENT_TABLES[18] == table;
    case SwitchEvents => assert EVENT_TABLES[19] == table;
    case TransferEvents => assert EVENT_TABLES[20] == table;
    case UpdateNodeAccountStatusEvents => assert EVENT_TABLES[21] == table;
    case WithdrawEvents => assert EVENT_TABLES[22] == table;
  }

  class BlockWriter {
    const db: Database
    const batchSize: nat
    const decode: Decoder
    const tracker: DepthTracker
    var blocks: seq<LogRow>
    var events: seq<EventRow>
    var depths: seq<DepthRow>
    var unknownSeen: set<string>

    constructor (db: Database, batchSize: nat, decode: Decoder)
      ensures this.db == db && this.decode == decode && fresh(tracker)
      ensures this.batchSize == if batchSize == 0 then 1 else batchSize
      ensures View() == WriterState(NOTHING, Tracker(map[], []))
    {
      this.db, this.decode := db, decode;
      this.batchSize := if batchSize == 0 then 1 else batchSize;
      tracker := new DepthTracker();
      blocks, events, depths, unknownSeen := [], [], [], {};
    }

    function View(): WriterState
      reads this, tracker
    {
      WriterState(Buffer(blocks, events, depths), tracker.State())
    }

    /** Restore the depths after a restart; `answer` is what the database answered. */
    method Restore(answer: map<string, Depth>)
      requires IsLatest(db.State().depths, answer)
      modifies tracker
      ensures View() == old(View()).(tracker := Tracker(answer, []))
      ensures NoTies(db.State().depths) ==> View().tracker == Tracker(Latest(db.State().depths), [])
    {
      tracker.Load(answer);
      LatestIsOnlyAnswer(db.State().depths, answer);
    }

    /** Decode a block into the buffer, flushing when the batch is full. */
    method Add(b: Block, flushOk: bool) returns (ok: bool)
      requires tracker.dirty == []
      modifies this, tracker, db
      ensures (db.State(), View(), ok) == Added(decode, batchSize, old(db.State()), old(View()), b, flushOk)
      ensures tracker.dirty == []
    {
      Decode(b);
      if |blocks| >= batchSize {
        ok := this.Flush(flushOk);
      } else {
        ok := true;
      }
      hide Buffered, Flushed;
    }

    method Decode(b: Block)
      requires tracker.dirty == []
      modifies this, tracker
      ensures View() == Buffered(decode, old(View()), b)
      ensures tracker.dirty == [] && unknownSeen >= old(unknownSeen)
    {
      hide EventRows, MovesOf, Tracker.AfterAll, Tracker.Changed, DepthRows, BeginBlockEvents, SuccessfulTxEvents, EndBlockEvents;
      ghost var t := tracker.State();
      var begins, txs, ends := BeginBlockEvents(b, 0), SuccessfulTxEvents(b, 0), EndBlockEvents(b, 0);
      PushAll(begins, b.timestamp);
      PushAll(txs, b.timestamp);
      PushAll(ends, b.timestamp);
      RowsInPhases(decode, begins, txs, ends, b.timestamp, t);
      assert events == old(events) + BlockRows(decode, b);

      var changed := tracker.TakeChanged();
      depths := depths + DepthRows(changed, b.timestamp);
      blocks := blocks + [LogRowOf(b)];
    }

    method PushAll(located: seq<Located>, timestamp: int)
      modifies this`events, this`unknownSeen, tracker
      ensures events == old(events) + EventRows(decode, located, timestamp)
      ensures tracker.State() == old(tracker.State()).AfterAll(MovesOf(EventRows(decode, located, timestamp)))
      ensures unknownSeen >= old(unknownSeen)
    {
      hide RowsOf, RecordsOf, MovesOf, Tracker.AfterAll;
      var k := 0;
      ghost var t := tracker.State();
      NoMoves(t);
      while k < |located|
        invariant 0 <= k <= |located|
        invariant events == old(events) + EventRows(decode, located[..k], timestamp)
        invariant tracker.State() == t.AfterAll(MovesOf(EventRows(decode, located[..k], timestamp)))
        invariant unknownSeen >= old(unknownSeen)
      {
        ghost var before := EventRows(decode, located[..k], timestamp);
        ghost var more := RowsOf(ToI64(located[k].id), timestamp, RecordsOf(decode(located[k].event)));
        Push(located[k].event, located[k].id, timestamp);
        MovesOfConcat(before, more);
        AfterAllConcat(t, MovesOf(before), MovesOf(more));
        assert located[..k + 1][..k] == located[..k];
        k := k + 1;
      }
      assert located[..k] == located;
    }

    /** Decode one event: its records move the tracker and are buffered under the event's id. */
    method Push(event: Event, id: EventId, timestamp: int)
      modifies this`events, this`unknownSeen, tracker
      ensures events == old(events) + RowsOf(ToI64(id), timestamp, RecordsOf(decode(event)))
      ensures tracker.State() == old(tracker.State()).AfterAll(MovesOf(RowsOf(ToI64(id), timestamp, RecordsOf(decode(event)))))
      ensures unknownSeen == old(unknownSeen) + if decode(event).Unknown? then {event.kind} else {}
    {
      hide MovesOf, Tracker.AfterAll, ToI64;
      NoMoves(tracker.State());
      match decode(event)
      case OneRecord(record) =>
        ghost var t := tracker.State();
        PushRecord(record, id, timestamp);
        OneRow(ToI64(id), timestamp, record);
      case ManyRecords(records) =>
        PushRecords(records, id, timestamp);
      case Unknown =>
        unknownSeen := unknownSeen + {event.kind};
      case Ignored =>
      case Undecodable =>
    }

    method PushRecord(record: Recorded, id: EventId, timestamp: int)
      modifies this`events, tracker
      ensures events == old(events) + [EventRow(ToI64(id), timestamp, record)]
      ensures tracker.State() == old(tracker.State()).AfterAll(Moves(record))
    {
      hide Moves, Tracker.AfterAll, ToI64;
      tracker.Apply(record);
      events := events + [EventRow(ToI64(id), timestamp, record)];
    }

    method PushRecords(records: seq<Recorded>, id: EventId, timestamp: int)
      modifies this`events, tracker
      ensures events == old(events) + RowsOf(ToI64(id), timestamp, records)
      ensures tracker.State() == old(tracker.State()).AfterAll(MovesOf(RowsOf(ToI64(id), timestamp, records)))
    {
      hide Moves, MovesOf, Tracker.AfterAll, ToI64;
      var k := 0;
      ghost var t := tracker.State();
      ghost var rows := RowsOf(ToI64(id), timestamp, records);
      NoMoves(t);
      assert rows[..0] == [];
      while k < |records|
        invariant 0 <= k <= |records|
        invariant events == old(events) + rows[..k]
        invariant tracker.State() == t.AfterAll(MovesOf(rows[..k]))
      {
        PushRecord(records[k], id, timestamp);
        OneMoreRow(rows, k, t);
        k := k + 1;
      }
      assert rows[..k] == rows;
    }

    /** Write everything buffered in one transaction; `dbOk` is whether the database let it. */
    method Flush(dbOk: bool) returns (ok: bool)
      modifies this, db
      ensures (db.State(), View(), ok) == Flushed(old(db.State()), old(View()), dbOk)
      ensures unknownSeen == old(unknownSeen)
    {
      hide InsertLog;
      if |blocks| == 0 {
        return true;
      }
      var txDepths := db.depths + depths;
      var txEvents := db.events + events;
      var txLog := InsertLog(db.log, blocks);
      if txLog.None? || !dbOk {
        return false;
      }
      db.depths, db.events, db.log := txDepths, txEvents, txLog.value;
      blocks, events, depths := [], [], [];
      ok := true;
    }
  }

  lemma OneMoreRow(rows: seq<EventRow>, k: nat, t: Tracker)
    requires k < |rows|
    ensures rows[..k + 1] == rows[..k] + [rows[k]]
    ensures t.AfterAll(MovesOf(rows[..k + 1])) == t.AfterAll(MovesOf(rows[..k])).AfterAll(Moves(rows[k].record))
  {
    hide Moves, Tracker.AfterAll;
    assert rows[..k + 1][..k] == rows[..k];
    AfterAllConcat(t, MovesOf(rows[..k]), Moves(rows[k].record));
  }

  lemma OneRow(id: int, timestamp: int, record: Recorded)
    ensures RowsOf(id, timestamp, [record]) == [EventRow(id, timestamp, record)]
    ensures MovesOf([EventRow(id, timestamp, record)]) == Moves(record)
  {
    assert [EventRow(id, timestamp, record)][..0] == [];
  }

  lemma {:induction false} EventRowsConcat(decode: Decoder, xs: seq<Located>, ys: seq<Located>, timestamp: int)
    ensures EventRows(decode, xs + ys, timestamp) == EventRows(decode, xs, timestamp) + EventRows(decode, ys, timestamp)
  {
    hide RowsOf, RecordsOf;
    if ys == [] {
      assert xs + ys == xs;
    } else {
      var n, both := |ys| - 1, xs + ys;
      EventRowsConcat(decode, xs, ys[..n], timestamp);
      assert both[..|both| - 1] == xs + ys[..n] && both[|both| - 1] == ys[n];
    }
  }

  /** Pushing the three phases one after the other is pushing the block. */
  lemma RowsInPhases(decode: Decoder, xs: seq<Located>, ys: seq<Located>, zs: seq<Located>, timestamp: int, t: Tracker)
    ensures var a, b, c := EventRows(decode, xs, timestamp), EventRows(decode, ys, timestamp), EventRows(decode, zs, timestamp);
            && EventRows(decode, xs + ys + zs, timestamp) == a + b + c
            && t.AfterAll(MovesOf(a)).AfterAll(MovesOf(b)).AfterAll(MovesOf(c)) == t.AfterAll(MovesOf(a + b + c))
  {
    hide EventRows, MovesOf, Tracker.AfterAll;
    var a, b, c := EventRows(decode, xs, timestamp), EventRows(decode, ys, timestamp), EventRows(decode, zs, timestamp);
    EventRowsConcat(decode, xs, ys, timestamp);
    EventRowsConcat(decode, xs + ys, zs, timestamp);
    MovesOfConcat(a, b);
    MovesOfConcat(a + b, c);
    AfterAllConcat(t, MovesOf(a), MovesOf(b));
    AfterAllConcat(t, MovesOf(a) + MovesOf(b), MovesOf(c));
  }
}
