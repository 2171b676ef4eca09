/** The sparse depth log against dense replay, and fork rollback against never having synced. */
module LedgerTheorems {
  import opened Wrappers
  import opened Blocks
  import opened Depths
  import opened Ledgers

  // ---- chains ----

  /** From height `first` on, blocks carry their height and later blocks have later timestamps. */
  predicate GoodChain(chain: seq<Block>, first: int) {
    && (forall j :: 0 <= j < |chain| ==> chain[j].height == first + j)
    && (forall j, k :: 0 <= j < k < |chain| ==> chain[j].timestamp < chain[k].timestamp)
  }

  /** A database before its first block: only seeded rows, all older than that block. */
  predicate IsOpening(db: Db, chain: seq<Block>) {
    && db.log == [] && NoTies(db.depths)
    && (forall k, j :: 0 <= k < |db.events| && 0 <= j < |chain| ==> db.events[k].timestamp < chain[j].timestamp)
    && (forall k, j :: 0 <= k < |db.depths| && 0 <= j < |chain| ==> db.depths[k].timestamp < chain[j].timestamp)
  }

  /** What an indexer is pointed at: where it starts, what was seeded, and the blocks from there. */
  datatype World = World(decode: Decoder, first: int, opening: Db, chain: seq<Block>) {
    predicate Good() {
      1 <= first && GoodChain(chain, first) && IsOpening(opening, chain)
    }

    /** The ledger of the first `n` blocks. */
    function At(n: nat): Ledger
      requires n <= |chain|
    {
      Replay(decode, opening, chain[..n])
    }
  }

  lemma ReplayStart(w: World)
    ensures w.At(0) == Ledger(w.opening, Latest(w.opening.depths))
  {
  }

  lemma ReplayStep(w: World, n: nat)
    requires n < |w.chain|
    ensures w.At(n + 1) == Extend(w.decode, w.At(n), w.chain[n])
  {
    hide Extend;
    assert w.chain[..n + 1][..n] == w.chain[..n];
  }

  // ---- appending rows to the depth log ----

  /** The later of the best row so far and one more row. */
  function Better(best: Option<DepthRow>, row: DepthRow, pool: string, until: Option<int>): Option<DepthRow> {
    if row.pool == pool && Upto(row.timestamp, until) && (best.None? || best.value.timestamp <= row.timestamp)
    then Some(row) else best
  }

  lemma LatestStep(rows: seq<DepthRow>, row: DepthRow, pool: string, until: Option<int>)
    ensures LatestRow(rows + [row], pool, until) == Better(LatestRow(rows, pool, until), row, pool, until)
  {
    assert (rows + [row])[..|rows|] == rows;
  }

  lemma {:induction false} LatestNotAfter(rows: seq<DepthRow>, pool: string, until: Option<int>, t: int)
    requires forall i :: 0 <= i < |rows| ==> rows[i].timestamp <= t
    ensures var r := LatestRow(rows, pool, until); r.Some? ==> r.value.timestamp <= t
  {
    if rows != [] {
      LatestNotAfter(rows[..|rows| - 1], pool, until, t);
    }
  }

  lemma {:induction false} LatestAfterAppend(xs: seq<DepthRow>, ys: seq<DepthRow>, pool: string, until: Option<int>)
    requires forall i, j :: 0 <= i < |xs| && 0 <= j < |ys| ==> xs[i].timestamp <= ys[j].timestamp
    ensures LatestRow(xs + ys, pool, until)
         == var r := LatestRow(ys, pool, until); if r.Some? then r else LatestRow(xs, pool, until)
  {
    if ys == [] {
      assert xs + ys == xs;
    } else {
      hide LatestRow, Upto;
      var n := |ys| - 1;
      LatestAfterAppend(xs, ys[..n], pool, until);
      assert xs + ys == (xs + ys[..n]) + [ys[n]] && ys == ys[..n] + [ys[n]];
      LatestStep(xs + ys[..n], ys[n], pool, until);
      LatestStep(ys[..n], ys[n], pool, until);
      LatestNotAfter(xs, pool, until, ys[n].timestamp);
    }
  }

  lemma {:induction false} LatestIgnoresLater(xs: seq<DepthRow>, ys: seq<DepthRow>, pool: string, until: int)
    requires forall j :: 0 <= j < |ys| ==> until < ys[j].timestamp
    ensures LatestRow(xs + ys, pool, Some(until)) == LatestRow(xs, pool, Some(until))
  {
    if ys == [] {
      assert xs + ys == xs;
    } else {
      var n, both := |ys| - 1, xs + ys;
      LatestIgnoresLater(xs, ys[..n], pool, until);
      assert both[..|both| - 1] == xs + ys[..n] && both[|both| - 1] == ys[n];
    }
  }

  lemma {:induction false} LatestWhenAllEarly(rows: seq<DepthRow>, pool: string, until: int)
    requires forall j :: 0 <= j < |rows| ==> rows[j].timestamp <= until
    ensures LatestRow(rows, pool, Some(until)) == LatestRow(rows, pool, None)
  {
    if rows != [] {
      var n := |rows| - 1;
      assert forall j :: 0 <= j < n ==> rows[..n][j] == rows[j];
      LatestWhenAllEarly(rows[..n], pool, until);
    }
  }

  lemma {:induction false} LatestOfOneBlock(changed: seq<(string, Depth)>, timestamp: int, pool: string, d: Depth)
    requires forall k :: 0 <= k < |changed| && changed[k].0 == pool ==> changed[k].1 == d
    ensures var r := LatestRow(DepthRows(changed, timestamp), pool, None);
            (r.Some? ==> r.value.depth == d)
            && (r.Some? <==> exists k :: 0 <= k < |changed| && changed[k].0 == pool)
  {
    if changed != [] {
      var n, rows := |changed| - 1, DepthRows(changed, timestamp);
      assert rows[..n] == DepthRows(changed[..n], timestamp);
      assert forall k :: 0 <= k < n ==> changed[..n][k] == changed[k];
      LatestOfOneBlock(changed[..n], timestamp, pool, d);
      if exists k :: 0 <= k < n && changed[k].0 == pool {
        var k :| 0 <= k < n && changed[k].0 == pool;
        assert changed[..n][k].0 == pool;
      }
    }
  }

  // ---- what replay keeps ----

  lemma {:induction false} RowTimes(decode: Decoder, located: seq<Located>, timestamp: int)
    ensures forall k :: 0 <= k < |EventRows(decode, located, timestamp)| ==> EventRows(decode, located, timestamp)[k].timestamp == timestamp
  {
    if located != [] {
      RowTimes(decode, located[..|located| - 1], timestamp);
    }
  }

  /** What one block appends: rows with its own timestamp, at most one depth row per pool. */
  lemma ExtendAppends(decode: Decoder, l: Ledger, b: Block) returns (events: seq<EventRow>, depths: seq<DepthRow>)
    ensures Extend(decode, l, b).db == Db(l.db.log + [LogRowOf(b)], l.db.events + events, l.db.depths + depths)
    ensures forall k :: 0 <= k < |events| ==> events[k].timestamp == b.timestamp
    ensures forall k :: 0 <= k < |depths| ==> depths[k].timestamp == b.timestamp
    ensures forall i, j :: 0 <= i < j < |depths| ==> depths[i].pool != depths[j].pool
  {
    hide EventRows, Tracker.AfterAll, MovesOf;
    events := BlockRows(decode, b);
    RowTimes(decode, BlockEvents(b), b.timestamp);
    DirtyHasNoDuplicates(Tracker(l.current, []), MovesOf(events));
    depths := DepthRows(Tracker(l.current, []).AfterAll(MovesOf(events)).Changed(), b.timestamp);
  }

  /** All rows of `db` are older than block `j`. */
  predicate OlderThan(db: Db, timestamp: int) {
    && (forall k :: 0 <= k < |db.events| ==> db.events[k].timestamp < timestamp)
    && (forall k :: 0 <= k < |db.depths| ==> db.depths[k].timestamp < timestamp)
  }

  lemma AppendKeepsNoTies(xs: seq<DepthRow>, ys: seq<DepthRow>, timestamp: int)
    requires NoTies(xs)
    requires forall k :: 0 <= k < |xs| ==> xs[k].timestamp < timestamp
    requires forall k :: 0 <= k < |ys| ==> ys[k].timestamp == timestamp
    requires forall i, j :: 0 <= i < j < |ys| ==> ys[i].pool != ys[j].pool
    ensures NoTies(xs + ys)
  {
  }

  lemma ExtendKeepsOlder(decode: Decoder, l: Ledger, b: Block, timestamp: int)
    requires OlderThan(l.db, timestamp) && b.timestamp < timestamp
    ensures OlderThan(Extend(decode, l, b).db, timestamp)
  {
    hide Extend;
    var events, depths := ExtendAppends(decode, l, b);
  }

  lemma ExtendKeepsNoTies(decode: Decoder, l: Ledger, b: Block)
    requires NoTies(l.db.depths) && OlderThan(l.db, b.timestamp)
    ensures NoTies(Extend(decode, l, b).db.depths)
  {
    hide Extend;
    var events, depths := ExtendAppends(decode, l, b);
    AppendKeepsNoTies(l.db.depths, depths, b.timestamp);
  }

  /** Rows are older than every later block. */
  lemma {:induction false} ReplayIsOlder(w: World, n: nat, j: nat)
    requires w.Good() && n <= j < |w.chain|
    ensures OlderThan(w.At(n).db, w.chain[j].timestamp)
  {
    hide World.At, Extend, NoTies;
    if n == 0 {
      ReplayStart(w);
    } else {
      hide OlderThan, IsOpening;
      ReplayIsOlder(w, n - 1, j);
      ReplayStep(w, n - 1);
      ExtendKeepsOlder(w.decode, w.At(n - 1), w.chain[n - 1], w.chain[j].timestamp);
    }
  }

  /** No pool ever has two depth rows at one time. */
  lemma {:induction false} ReplayHasNoTies(w: World, n: nat)
    requires w.Good() && n <= |w.chain|
    ensures NoTies(w.At(n).db.depths)
  {
    hide World.At, Extend, NoTies;
    if n == 0 {
      ReplayStart(w);
    } else {
      hide OlderThan, IsOpening;
      ReplayHasNoTies(w, n - 1);
      ReplayStep(w, n - 1);
      ReplayIsOlder(w, n - 1, n - 1);
      ExtendKeepsNoTies(w.decode, w.At(n - 1), w.chain[n - 1]);
    }
  }

  /** Heights in the log are contiguous from the first. */
  lemma {:induction false} ReplayLog(w: World, n: nat)
    requires w.Good() && n <= |w.chain|
    ensures |w.At(n).db.log| == n
    ensures forall j :: 0 <= j < n ==> w.At(n).db.log[j] == LogRowOf(w.chain[j])
  {
    hide World.At, Extend, NoTies;
    if n == 0 {
      ReplayStart(w);
    } else {
      ReplayLog(w, n - 1);
      ReplayStep(w, n - 1);
      var events, depths := ExtendAppends(w.decode, w.At(n - 1), w.chain[n - 1]);
    }
  }

  /** The log has one row per block, with the block's own height, timestamp and hash. */
  lemma LogIsBlocks(w: World, n: nat)
    requires w.Good() && n <= |w.chain|
    ensures |w.At(n).db.log| == n
    ensures forall j :: 0 <= j < n ==>
              var row := w.At(n).db.log[j];
              row.height == w.chain[j].height && row.timestamp == w.chain[j].timestamp && row.hash == w.chain[j].hash
  {
    hide World.At, World.Good;
    ReplayLog(w, n);
  }

  /** The log and the tracker tell the same depth for a pool. */
  predicate AgreeOn(l: Ledger, pool: string) {
    && (LatestRow(l.db.depths, pool, None).Some? <==> pool in l.current)
    && DepthAt(l.db.depths, pool, None) == Tracker(l.current, []).Get(pool)
  }

  lemma ExtendKeepsAgreement(decode: Decoder, l: Ledger, b: Block, pool: string)
    requires AgreeOn(l, pool) && OlderThan(l.db, b.timestamp)
    ensures AgreeOn(Extend(decode, l, b), pool)
  {
    hide BlockRows, Tracker.AfterAll, MovesOf, LatestRow, Touches, Total;
    var t0, ms := Tracker(l.current, []), MovesOf(BlockRows(decode, b));
    var t := t0.AfterAll(ms);
    AfterAllEffect(t0, ms, pool);
    var rows := DepthRows(t.Changed(), b.timestamp);
    ChangedRowsTell(t, b.timestamp, pool);
    LatestAfterAppend(l.db.depths, rows, pool, None);
  }

  lemma ChangedRowsTell(t: Tracker, timestamp: int, pool: string)
    ensures var r := LatestRow(DepthRows(t.Changed(), timestamp), pool, None);
            (r.Some? <==> pool in t.dirty) && (r.Some? ==> r.value.depth == t.Get(pool))
  {
    hide LatestRow;
    var changed := t.Changed();
    LatestOfOneBlock(changed, timestamp, pool, t.Get(pool));
    if pool in t.dirty {
      var k :| 0 <= k < |t.dirty| && t.dirty[k] == pool;
      assert changed[k].0 == pool;
    }
  }

  /** The depth log read back is the live tracker. */
  lemma {:induction false} RestoreIsLive(w: World, n: nat, pool: string)
    requires w.Good() && n <= |w.chain|
    ensures AgreeOn(w.At(n), pool)
  {
    hide World.At, Extend, NoTies, AgreeOn, OlderThan;
    if n == 0 {
      ReplayStart(w);
      OpeningAgrees(w.opening, pool);
    } else {
      RestoreIsLive(w, n - 1, pool);
      ReplayStep(w, n - 1);
      ReplayIsOlder(w, n - 1, n - 1);
      ExtendKeepsAgreement(w.decode, w.At(n - 1), w.chain[n - 1], pool);
    }
  }

  lemma OpeningAgrees(opening: Db, pool: string)
    ensures AgreeOn(Ledger(opening, Latest(opening.depths)), pool)
  {
    LatestRowExists(opening.depths, pool);
  }

  /** `restore` after any committed block gives exactly the map the live tracker holds. */
  lemma RestoredMapIsLive(w: World, n: nat)
    requires w.Good() && n <= |w.chain|
    ensures Latest(w.At(n).db.depths) == w.At(n).current
  {
    hide World.At, World.Good;
    var l := w.At(n);
    forall p
      ensures (p in Latest(l.db.depths) <==> p in l.current) && (p in l.current ==> Latest(l.db.depths)[p] == l.current[p])
    {
      RestoreIsLive(w, n, p);
      LatestRowExists(l.db.depths, p);
    }
  }

  lemma ExtendMoves(decode: Decoder, l: Ledger, b: Block, pool: string)
    ensures Tracker(Extend(decode, l, b).current, []).Get(pool)
         == Tracker(l.current, []).Get(pool).Plus(Total(MovesOf(BlockRows(decode, b)), pool))
  {
    hide BlockRows, MovesOf, Tracker.AfterAll, Total;
    AfterAllEffect(Tracker(l.current, []), MovesOf(BlockRows(decode, b)), pool);
  }

  lemma ReplayMovesStep(decode: Decoder, blocks: seq<Block>, n: nat, pool: string)
    requires n < |blocks|
    ensures Total(ReplayMoves(decode, blocks[..n + 1]), pool)
         == Total(ReplayMoves(decode, blocks[..n]), pool).Plus(Total(MovesOf(BlockRows(decode, blocks[n])), pool))
  {
    hide BlockRows, MovesOf, Total;
    assert blocks[..n + 1][..n] == blocks[..n];
    TotalConcat(ReplayMoves(decode, blocks[..n]), MovesOf(BlockRows(decode, blocks[n])), pool);
  }

  lemma NothingMoved(decode: Decoder, blocks: seq<Block>, pool: string, d: Depth)
    ensures d.Plus(Total(ReplayMoves(decode, blocks[..0]), pool)) == d
  {
  }

  /** The live depth of a pool is its opening depth plus everything the blocks moved in it. */
  lemma {:induction false} CurrentIsSum(w: World, n: nat, pool: string)
    requires n <= |w.chain|
    ensures Tracker(w.At(n).current, []).Get(pool)
         == DepthAt(w.opening.depths, pool, None).Plus(Total(ReplayMoves(w.decode, w.chain[..n]), pool))
  {
    hide World.At, BlockRows, MovesOf, Extend, Total, ReplayMoves, DepthAt, Tracker.Get, Depth.Plus;
    if n == 0 {
      ReplayStart(w);
      OpeningAgrees(w.opening, pool);
      NothingMoved(w.decode, w.chain, pool, DepthAt(w.opening.depths, pool, None));
    } else {
      CurrentIsSum(w, n - 1, pool);
      ReplayStep(w, n - 1);
      ExtendMoves(w.decode, w.At(n - 1), w.chain[n - 1], pool);
      ReplayMovesStep(w.decode, w.chain, n - 1, pool);
      PlusAssociates(DepthAt(w.opening.depths, pool, None), Total(ReplayMoves(w.decode, w.chain[..n - 1]), pool),
                     Total(MovesOf(BlockRows(w.decode, w.chain[n - 1])), pool));
    }
  }

  /** `m` of the first `n` blocks are at or before second `until`. */
  predicate BlocksUpto(chain: seq<Block>, n: nat, m: nat, until: int) {
    && m <= n <= |chain|
    && (m > 0 ==> chain[m - 1].timestamp <= until)
    && (m < n ==> until < chain[m].timestamp)
  }

  /** The sparse log answers what dense replay would: the latest row at or before any time from the
      opening on is the opening depth plus every movement of the blocks up to that time. */
  lemma {:induction false} DepthLogIsDense(w: World, n: nat, m: nat, until: int, pool: string)
    requires w.Good() && BlocksUpto(w.chain, n, m, until)
    requires forall k :: 0 <= k < |w.opening.depths| ==> w.opening.depths[k].timestamp <= until
    ensures DepthAt(w.At(n).db.depths, pool, Some(until))
         == DepthAt(w.opening.depths, pool, None).Plus(Total(ReplayMoves(w.decode, w.chain[..m]), pool))
    decreases n
  {
    hide World.At, ReplayMoves, Extend, LatestRow, IsOpening, Total, NoTies, Depth.Plus;
    if m < n {
      var before := w.At(n - 1);
      ReplayStep(w, n - 1);
      ExtendIgnoredBefore(w.decode, before, w.chain[n - 1], until, pool);
      DepthLogIsDense(w, n - 1, m, until, pool);
    } else {
      AllUpto(w, n, until);
      LatestWhenAllEarly(w.At(n).db.depths, pool, until);
      RestoreIsLive(w, n, pool);
      CurrentIsSum(w, n, pool);
    }
  }

  lemma ExtendIgnoredBefore(decode: Decoder, l: Ledger, b: Block, until: int, pool: string)
    requires until < b.timestamp
    ensures DepthAt(Extend(decode, l, b).db.depths, pool, Some(until)) == DepthAt(l.db.depths, pool, Some(until))
  {
    hide Extend, LatestRow;
    var events, depths := ExtendAppends(decode, l, b);
    LatestIgnoresLater(l.db.depths, depths, pool, until);
  }

  lemma AllUpto(w: World, n: nat, until: int)
    requires w.Good() && n <= |w.chain|
    requires n > 0 ==> w.chain[n - 1].timestamp <= until
    requires forall k :: 0 <= k < |w.opening.depths| ==> w.opening.depths[k].timestamp <= until
    ensures forall k :: 0 <= k < |w.At(n).db.depths| ==> w.At(n).db.depths[k].timestamp <= until
  {
    hide World.At, Extend, NoTies, IsOpening;
    if n == 0 {
      ReplayStart(w);
    } else {
      ReplayStep(w, n - 1);
      ReplayIsOlder(w, n - 1, n - 1);
      var events, depths := ExtendAppends(w.decode, w.At(n - 1), w.chain[n - 1]);
    }
  }

  // ---- fork rollback ----

  function KeepEvents(rows: seq<EventRow>, timestamp: int): seq<EventRow> {
    if rows == [] then []
    else KeepEvents(rows[..|rows| - 1], timestamp)
         + if rows[|rows| - 1].timestamp >= timestamp then [] else [rows[|rows| - 1]]
  }

  function KeepDepths(rows: seq<DepthRow>, timestamp: int): seq<DepthRow> {
    if rows == [] then []
    else KeepDepths(rows[..|rows| - 1], timestamp)
         + if rows[|rows| - 1].timestamp >= timestamp then [] else [rows[|rows| - 1]]
  }

  function KeepLog(rows: seq<LogRow>, height: int): seq<LogRow> {
    if rows == [] then []
    else KeepLog(rows[..|rows| - 1], height) + if rows[|rows| - 1].height >= height then [] else [rows[|rows| - 1]]
  }

  /** Timestamp logged for a height. */
  function TimestampAt(log: seq<LogRow>, height: int): (r: Option<int>)
    ensures r.None? <==> forall k :: 0 <= k < |log| ==> log[k].height != height
    ensures r.Some? ==> exists k :: 0 <= k < |log| && log[k].height == height && log[k].timestamp == r.value
  {
    if log == [] then None
    else if log[|log| - 1].height == height then Some(log[|log| - 1].timestamp)
    else
      assert forall k :: 0 <= k < |log| - 1 ==> log[..|log| - 1][k] == log[k];
      TimestampAt(log[..|log| - 1], height)
  }

  function RolledBack(db: Db, height: int): Db {
    match TimestampAt(db.log, height)
    case None => db
    case Some(t) => Db(KeepLog(db.log, height), KeepEvents(db.events, t), KeepDepths(db.depths, t))
  }

  lemma {:induction false} KeepEventsConcat(xs: seq<EventRow>, ys: seq<EventRow>, t: int)
    requires forall k :: 0 <= k < |xs| ==> xs[k].timestamp < t
    requires forall k :: 0 <= k < |ys| ==> t <= ys[k].timestamp
    ensures KeepEvents(xs + ys, t) == xs
  {
    var both := xs + ys;
    if ys != [] {
      assert both[..|both| - 1] == xs + ys[..|ys| - 1];
      KeepEventsConcat(xs, ys[..|ys| - 1], t);
    } else if xs != [] {
      assert both[..|both| - 1] == xs[..|xs| - 1] + [];
      KeepEventsConcat(xs[..|xs| - 1], [], t);
    }
  }

  lemma {:induction false} KeepDepthsConcat(xs: seq<DepthRow>, ys: seq<DepthRow>, t: int)
    requires forall k :: 0 <= k < |xs| ==> xs[k].timestamp < t
    requires forall k :: 0 <= k < |ys| ==> t <= ys[k].timestamp
    ensures KeepDepths(xs + ys, t) == xs
  {
    var both := xs + ys;
    if ys != [] {
      assert both[..|both| - 1] == xs + ys[..|ys| - 1];
      KeepDepthsConcat(xs, ys[..|ys| - 1], t);
    } else if xs != [] {
      assert both[..|both| - 1] == xs[..|xs| - 1] + [];
      KeepDepthsConcat(xs[..|xs| - 1], [], t);
    }
  }

  lemma {:induction false} KeepLogConcat(xs: seq<LogRow>, ys: seq<LogRow>, h: int)
    requires forall k :: 0 <= k < |xs| ==> xs[k].height < h
    requires forall k :: 0 <= k < |ys| ==> h <= ys[k].height
    ensures KeepLog(xs + ys, h) == xs
  {
    var both := xs + ys;
    if ys != [] {
      assert both[..|both| - 1] == xs + ys[..|ys| - 1];
      KeepLogConcat(xs, ys[..|ys| - 1], h);
    } else if xs != [] {
      assert both[..|both| - 1] == xs[..|xs| - 1] + [];
      KeepLogConcat(xs[..|xs| - 1], [], h);
    }
  }

  /** Later blocks only append, and what they append is at or after their own timestamps. */
  lemma {:induction false} ReplayAppends(w: World, k: nat, n: nat)
    requires w.Good() && k <= n <= |w.chain| && k < |w.chain|
    ensures var a, b := w.At(k).db, w.At(n).db;
            && a.events <= b.events && a.depths <= b.depths
            && (forall j :: |a.events| <= j < |b.events| ==> w.chain[k].timestamp <= b.events[j].timestamp)
            && (forall j :: |a.depths| <= j < |b.depths| ==> w.chain[k].timestamp <= b.depths[j].timestamp)
    decreases n
  {
    hide World.At, Extend, NoTies, IsOpening;
    if k < n {
      ReplayAppends(w, k, n - 1);
      ReplayStep(w, n - 1);
      var events, depths := ExtendAppends(w.decode, w.At(n - 1), w.chain[n - 1]);
    }
  }

  /** The log up to a height and from it on. */
  lemma LogSplits(w: World, n: nat, k: nat)
    requires w.Good() && k < n <= |w.chain|
    ensures TimestampAt(w.At(n).db.log, w.first + k) == Some(w.chain[k].timestamp)
    ensures KeepLog(w.At(n).db.log, w.first + k) == w.At(k).db.log
  {
    hide World.At, World.Good, KeepLog, TimestampAt;
    var a, b := w.At(k).db.log, w.At(n).db.log;
    ReplayLog(w, k);
    ReplayLog(w, n);
    assert b[..k] == a;
    LogHeights(w, n);
    SplitLog(b, k, w.first);
  }

  lemma LogHeights(w: World, n: nat)
    requires w.Good() && n <= |w.chain|
    ensures |w.At(n).db.log| == n
    ensures forall j :: 0 <= j < n ==> w.At(n).db.log[j].height == w.first + j
  {
    hide World.At, IsOpening;
    ReplayLog(w, n);
  }

  lemma SplitLog(log: seq<LogRow>, k: nat, first: int)
    requires k < |log|
    requires forall j :: 0 <= j < |log| ==> log[j].height == first + j
    ensures TimestampAt(log, first + k) == Some(log[k].timestamp)
    ensures KeepLog(log, first + k) == log[..k]
  {
    hide TimestampAt, KeepLog;
    assert log == log[..k] + log[k..];
    KeepLogConcat(log[..k], log[k..], first + k);
    assert log[k].height == first + k;
  }

  /** Rolling back a logged height leaves exactly the database of the blocks below it. */
  lemma RollbackIsUndo(w: World, n: nat, k: nat)
    requires w.Good() && k < n <= |w.chain|
    ensures RolledBack(w.At(n).db, w.first + k) == w.At(k).db
  {
    hide World.At, KeepEvents, KeepDepths, KeepLog, TimestampAt, NoTies, World.Good;
    var a, b, t := w.At(k).db, w.At(n).db, w.chain[k].timestamp;
    ReplayAppends(w, k, n);
    ReplayIsOlder(w, k, k);
    KeepEventsConcat(a.events, b.events[|a.events|..], t);
    KeepDepthsConcat(a.depths, b.depths[|a.depths|..], t);
    assert b.events == a.events + b.events[|a.events|..];
    assert b.depths == a.depths + b.depths[|a.depths|..];
    LogSplits(w, n, k);
  }

  /** A height that is not logged rolls nothing back. */
  lemma RollbackOfUnknownHeight(w: World, n: nat, height: int)
    requires w.Good() && n <= |w.chain| && !(w.first <= height < w.first + n)
    ensures RolledBack(w.At(n).db, height) == w.At(n).db
  {
    hide World.At, World.Good, KeepLog, KeepEvents, KeepDepths, TimestampAt;
    LogHeights(w, n);
  }

  /** Replay depends only on the blocks replayed, so chains that agree below a fork share its past. */
  lemma ReplayAgrees(w: World, other: seq<Block>, k: nat)
    requires k <= |w.chain| && k <= |other| && w.chain[..k] == other[..k]
    ensures w.(chain := other).At(k) == w.At(k)
  {
  }
}
