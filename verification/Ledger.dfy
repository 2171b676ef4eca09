/** The database as a function of the blocks it holds, and what reading it back gives. */
module Ledgers {
  import opened Wrappers
  import opened EventIds
  import opened Blocks
  import opened Depths

  // ---- rows ----

  datatype LogRow = LogRow(height: int, timestamp: int, hash: string)

  datatype EventRow = EventRow(eventId: int, timestamp: int, record: Recorded)

  datatype DepthRow = DepthRow(pool: string, depth: Depth, timestamp: int)

  /** `block_log`, the event tables (one list, each row's record naming its table) and
      `block_pool_depths`. */
  datatype Db = Db(log: seq<LogRow>, events: seq<EventRow>, depths: seq<DepthRow>)

  datatype Decoded =
    | OneRecord(record: Recorded)
    | ManyRecords(records: seq<Recorded>)
    | Ignored
    | Unknown
    | Undecodable

  /** Decoding is some function of the event alone. */
  type Decoder = Event -> Decoded

  function RecordsOf(d: Decoded): seq<Recorded> {
    match d
    case OneRecord(r) => [r]
    case ManyRecords(rs) => rs
    case _ => []
  }

  function RowsOf(id: int, timestamp: int, records: seq<Recorded>): seq<EventRow> {
    seq(|records|, k requires 0 <= k < |records| => EventRow(id, timestamp, records[k]))
  }

  function EventRows(decode: Decoder, located: seq<Located>, timestamp: int): seq<EventRow> {
    if located == [] then []
    else
      var last := located[|located| - 1];
      EventRows(decode, located[..|located| - 1], timestamp)
      + RowsOf(ToI64(last.id), timestamp, RecordsOf(decode(last.event)))
  }

  function MovesOf(rows: seq<EventRow>): seq<Move> {
    if rows == [] then [] else MovesOf(rows[..|rows| - 1]) + Moves(rows[|rows| - 1].record)
  }

  lemma NoMoves(t: Tracker)
    ensures t.AfterAll(MovesOf([])) == t
  {
  }

  lemma {:induction false} MovesOfConcat(xs: seq<EventRow>, ys: seq<EventRow>)
    ensures MovesOf(xs + ys) == MovesOf(xs) + MovesOf(ys)
  {
    hide Moves;
    if ys == [] {
      assert xs + ys == xs;
    } else {
      var n, both := |ys| - 1, xs + ys;
      MovesOfConcat(xs, ys[..n]);
      assert both[..|both| - 1] == xs + ys[..n] && both[|both| - 1] == ys[n];
    }
  }

  function DepthRows(changed: seq<(string, Depth)>, timestamp: int): seq<DepthRow> {
    seq(|changed|, k requires 0 <= k < |changed| => DepthRow(changed[k].0, changed[k].1, timestamp))
  }

  function LogRowOf(b: Block): LogRow {
    LogRow(b.height, b.timestamp, b.hash)
  }

  function BlockRows(decode: Decoder, b: Block): seq<EventRow> {
    EventRows(decode, BlockEvents(b), b.timestamp)
  }

  // ---- replay ----

  /** The database together with the depths a live tracker would hold. */
  datatype Ledger = Ledger(db: Db, current: map<string, Depth>)

  function Extend(decode: Decoder, l: Ledger, b: Block): Ledger {
    var rows := BlockRows(decode, b);
    var t := Tracker(l.current, []).AfterAll(MovesOf(rows));
    Ledger(Db(l.db.log + [LogRowOf(b)], l.db.events + rows, l.db.depths + DepthRows(t.Changed(), b.timestamp)), t.current)
  }

  function Replay(decode: Decoder, opening: Db, blocks: seq<Block>): Ledger {
    if blocks == [] then Ledger(opening, Latest(opening.depths))
    else Extend(decode, Replay(decode, opening, blocks[..|blocks| - 1]), blocks[|blocks| - 1])
  }

  /** Everything a list of blocks moves. */
  function ReplayMoves(decode: Decoder, blocks: seq<Block>): seq<Move> {
    if blocks == [] then []
    else ReplayMoves(decode, blocks[..|blocks| - 1]) + MovesOf(BlockRows(decode, blocks[|blocks| - 1]))
  }

  // ---- reading depths back ----

  predicate Upto(timestamp: int, until: Option<int>) {
    until.Some? ==> timestamp <= until.value
  }

  /** A pool's latest row, at or before `until` when given. */
  function LatestRow(rows: seq<DepthRow>, pool: string, until: Option<int>): (r: Option<DepthRow>)
    ensures r.Some? ==> r.value in rows && r.value.pool == pool && Upto(r.value.timestamp, until)
  {
    if rows == [] then None
    else
      var best, last := LatestRow(rows[..|rows| - 1], pool, until), rows[|rows| - 1];
      if last.pool == pool && Upto(last.timestamp, until) && (best.None? || best.value.timestamp <= last.timestamp)
      then Some(last) else best
  }

  function DepthAt(rows: seq<DepthRow>, pool: string, until: Option<int>): Depth {
    var r := LatestRow(rows, pool, until);
    if r.Some? then r.value.depth else ZERO
  }

  function Pools(rows: seq<DepthRow>): set<string> {
    set k | 0 <= k < |rows| :: rows[k].pool
  }

  lemma {:induction false} LatestRowExists(rows: seq<DepthRow>, pool: string)
    ensures LatestRow(rows, pool, None).Some? <==> pool in Pools(rows)
  {
    if rows != [] {
      var n := |rows| - 1;
      LatestRowExists(rows[..n], pool);
      assert pool in Pools(rows) <==> pool in Pools(rows[..n]) || rows[n].pool == pool;
    }
  }

  /** `SELECT DISTINCT ON (pool) ... ORDER BY pool, block_timestamp DESC`. */
  function Latest(rows: seq<DepthRow>): map<string, Depth> {
    map p | p in Pools(rows) :: DepthAt(rows, p, None)
  }

  /** No pool has two rows with one timestamp, so "latest" never depends on a tie. */
  predicate NoTies(rows: seq<DepthRow>) {
    forall i, j :: 0 <= i < j < |rows| && rows[i].pool == rows[j].pool ==> rows[i].timestamp != rows[j].timestamp
  }

  /** What the restoring query may answer: for every pool, the depth of a row none is later than. */
  predicate IsLatest(rows: seq<DepthRow>, m: map<string, Depth>) {
    && m.Keys == Pools(rows)
    && forall p :: p in m ==> exists k :: 0 <= k < |rows| && IsLatestRow(rows, k, p) && rows[k].depth == m[p]
  }

  predicate IsLatestRow(rows: seq<DepthRow>, k: int, pool: string)
    requires 0 <= k < |rows|
  {
    rows[k].pool == pool
    && forall j :: 0 <= j < |rows| && rows[j].pool == pool ==> rows[j].timestamp <= rows[k].timestamp
  }

  lemma {:induction false} LatestRowIsLatest(rows: seq<DepthRow>, pool: string)
    ensures var r := LatestRow(rows, pool, None);
            r.Some? ==> forall j :: 0 <= j < |rows| && rows[j].pool == pool ==> rows[j].timestamp <= r.value.timestamp
  {
    if rows != [] {
      var n := |rows| - 1;
      LatestRowIsLatest(rows[..n], pool);
      LatestRowExists(rows[..n], pool);
      assert forall j :: 0 <= j < n ==> rows[j] == rows[..n][j];
    }
  }

  lemma LatestAnswers(rows: seq<DepthRow>, pool: string)
    requires pool in Pools(rows)
    ensures exists k :: 0 <= k < |rows| && IsLatestRow(rows, k, pool) && rows[k].depth == DepthAt(rows, pool, None)
  {
    LatestRowExists(rows, pool);
    LatestRowIsLatest(rows, pool);
    hide LatestRow, Pools;
    var r := LatestRow(rows, pool, None).value;
    var k :| 0 <= k < |rows| && rows[k] == r;
    assert IsLatestRow(rows, k, pool);
  }

  lemma OneLatestRow(rows: seq<DepthRow>, k: int, h: int, pool: string)
    requires 0 <= k < |rows| && 0 <= h < |rows| && IsLatestRow(rows, k, pool) && IsLatestRow(rows, h, pool) && NoTies(rows)
    ensures k == h
  {
    assert rows[k].timestamp == rows[h].timestamp;
  }

  /** Without ties the restoring query has one answer. */
  lemma LatestIsOnlyAnswer(rows: seq<DepthRow>, m: map<string, Depth>)
    ensures IsLatest(rows, Latest(rows))
    ensures NoTies(rows) && IsLatest(rows, m) ==> m == Latest(rows)
  {
    hide DepthAt, Pools, IsLatestRow, NoTies;
    forall p | p in Latest(rows)
      ensures exists k :: 0 <= k < |rows| && IsLatestRow(rows, k, p) && rows[k].depth == Latest(rows)[p]
    {
      LatestAnswers(rows, p);
    }
    if NoTies(rows) && IsLatest(rows, m) {
      forall p | p in m ensures m[p] == Latest(rows)[p] {
        var k :| 0 <= k < |rows| && IsLatestRow(rows, k, p) && rows[k].depth == m[p];
        var h :| 0 <= h < |rows| && IsLatestRow(rows, h, p) && rows[h].depth == Latest(rows)[p];
        OneLatestRow(rows, k, h, p);
      }
    }
  }
}
