/** Where every event row in the database comes from: one record of one visited event. */
module Origins {
  import opened Wrappers
  import opened EventIds
  import opened Blocks
  import opened Depths
  import opened Ledgers
  import opened LedgerTheorems

  /** Decoding gives `record` in `place`. */
  predicate Gives(d: Decoded, place: nat, record: Recorded) {
    match d
    case OneRecord(r) => place == 0 && record == r
    case ManyRecords(rs) => place < |rs| && record == rs[place]
    case _ => false
  }

  /** A block by its place in the chain, an event visited in it, and a record decoded from that. */
  datatype Origin = Origin(block: nat, at: Located, place: nat)

  ghost predicate IsOrigin(w: World, n: nat, o: Origin, record: Recorded) {
    o.block < n <= |w.chain| && Visited(w.chain[o.block], o.at) && Gives(w.decode(o.at.event), o.place, record)
  }

  predicate Earlier(o: Origin, p: Origin) {
    || o.block < p.block
    || (o.block == p.block && Before(o.at.id, p.at.id))
    || (o.block == p.block && o.at == p.at && o.place < p.place)
  }

  /** `row` records `o`, under its event's id and its block's timestamp. */
  ghost predicate RowOf(w: World, n: nat, o: Origin, row: EventRow) {
    && IsOrigin(w, n, o, row.record)
    && row.eventId == ToI64(o.at.id) && row.timestamp == w.chain[o.block].timestamp
  }

  // ---- the origins of a block's rows ----

  function OriginsOf(decode: Decoder, block: nat, located: seq<Located>): seq<Origin> {
    if located == [] then []
    else
      var last := located[|located| - 1];
      OriginsOf(decode, block, located[..|located| - 1])
      + Places(block, last, |RecordsOf(decode(last.event))|)
  }

  function Places(block: nat, x: Located, count: nat): seq<Origin> {
    seq(count, h requires 0 <= h < count => Origin(block, x, h))
  }

  predicate InOrder(os: seq<Origin>) {
    forall i, j :: 0 <= i < j < |os| ==> Earlier(os[i], os[j])
  }

  lemma InOrderConcat(xs: seq<Origin>, ys: seq<Origin>)
    requires InOrder(xs) && InOrder(ys)
    requires forall i, j :: 0 <= i < |xs| && 0 <= j < |ys| ==> Earlier(xs[i], ys[j])
    ensures InOrder(xs + ys)
  {
    hide Earlier;
  }

  lemma GivesIsRecord(d: Decoded, place: nat, record: Recorded)
    ensures Gives(d, place, record) <==> place < |RecordsOf(d)| && RecordsOf(d)[place] == record
  {
  }

  lemma {:induction false} OriginsMatch(decode: Decoder, block: nat, located: seq<Located>, timestamp: int)
    ensures var os, rows := OriginsOf(decode, block, located), EventRows(decode, located, timestamp);
            && |os| == |rows|
            && forall i :: 0 <= i < |os| ==>
                 && os[i].block == block && os[i].at in located && Gives(decode(os[i].at.event), os[i].place, rows[i].record)
                 && rows[i].eventId == ToI64(os[i].at.id) && rows[i].timestamp == timestamp
  {
    hide ToI64, RecordsOf, Gives;
    if located != [] {
      var n := |located| - 1;
      OriginsMatch(decode, block, located[..n], timestamp);
      var last := located[n];
      var records := RecordsOf(decode(last.event));
      forall h | 0 <= h < |records| ensures Gives(decode(last.event), h, records[h]) {
        GivesIsRecord(decode(last.event), h, records[h]);
      }
    }
  }

  lemma {:induction false} OriginsAscend(decode: Decoder, block: nat, located: seq<Located>)
    requires Ascending(located)
    ensures InOrder(OriginsOf(decode, block, located))
    ensures forall o :: o in OriginsOf(decode, block, located) ==> o.block == block && o.at in located
  {
    hide Before, RecordsOf;
    if located != [] {
      var n := |located| - 1;
      OriginsAscend(decode, block, located[..n]);
      var os, more := OriginsOf(decode, block, located[..n]), Places(block, located[n], |RecordsOf(decode(located[n].event))|);
      forall i | 0 <= i < |os| ensures Before(os[i].at.id, located[n].id) {
        assert os[i] in os;
        var k :| 0 <= k < n && located[..n][k] == os[i].at;
        assert located[k] == os[i].at;
      }
      InOrderConcat(os, more);
    }
  }

  lemma {:induction false} OriginsComplete(decode: Decoder, block: nat, located: seq<Located>, x: Located, place: nat, record: Recorded)
    requires x in located && Gives(decode(x.event), place, record)
    ensures Origin(block, x, place) in OriginsOf(decode, block, located)
  {
    hide RecordsOf, Gives;
    var n := |located| - 1;
    if x == located[n] {
      GivesIsRecord(decode(x.event), place, record);
      var more := Places(block, x, |RecordsOf(decode(x.event))|);
      assert more[place] == Origin(block, x, place);
    } else {
      assert x in located[..n];
      OriginsComplete(decode, block, located[..n], x, place, record);
    }
  }

  // ---- the origins of a run's rows ----

  function OriginsUpto(w: World, n: nat): seq<Origin>
    requires n <= |w.chain|
  {
    if n == 0 then [] else OriginsUpto(w, n - 1) + OriginsOf(w.decode, n - 1, BlockEvents(w.chain[n - 1]))
  }

  /** The event rows a run has added to the seeded ones. */
  function NewRows(w: World, n: nat): seq<EventRow>
    requires n <= |w.chain|
  {
    if n == 0 then [] else NewRows(w, n - 1) + BlockRows(w.decode, w.chain[n - 1])
  }

  lemma {:induction false} RowsAreNewRows(w: World, n: nat)
    requires n <= |w.chain|
    ensures w.At(n).db.events == w.opening.events + NewRows(w, n)
  {
    hide World.At, BlockRows, MovesOf, Tracker.AfterAll;
    if n == 0 {
      ReplayStart(w);
    } else {
      RowsAreNewRows(w, n - 1);
      ReplayStep(w, n - 1);
    }
  }

  lemma {:induction false} NewRowsMatch(w: World, n: nat)
    requires n <= |w.chain|
    ensures var os, rows := OriginsUpto(w, n), NewRows(w, n);
            |os| == |rows| && forall i :: 0 <= i < |os| ==> RowOf(w, n, os[i], rows[i])
  {
    hide Visited, Gives, ToI64, BlockEvents, EventRows, OriginsOf;
    if n > 0 {
      NewRowsMatch(w, n - 1);
      var b := w.chain[n - 1];
      OriginsMatch(w.decode, n - 1, BlockEvents(b), b.timestamp);
      BlockEventsExact(b);
    }
  }

  lemma {:induction false} NewRowsAscend(w: World, n: nat)
    requires n <= |w.chain|
    ensures InOrder(OriginsUpto(w, n))
    ensures forall o :: o in OriginsUpto(w, n) ==> o.block < n
  {
    hide Before, BlockEvents, OriginsOf, Ascending;
    if n > 0 {
      NewRowsAscend(w, n - 1);
      BlockEventsExact(w.chain[n - 1]);
      OriginsAscend(w.decode, n - 1, BlockEvents(w.chain[n - 1]));
      var xs, ys := OriginsUpto(w, n - 1), OriginsOf(w.decode, n - 1, BlockEvents(w.chain[n - 1]));
      forall i, j | 0 <= i < |xs| && 0 <= j < |ys| ensures Earlier(xs[i], ys[j]) {
        assert xs[i] in xs && ys[j] in ys;
      }
      InOrderConcat(xs, ys);
    }
  }

  lemma {:induction false} NewRowsComplete(w: World, n: nat, o: Origin, record: Recorded)
    requires IsOrigin(w, n, o, record)
    ensures o in OriginsUpto(w, n)
  {
    hide Visited, Gives, BlockEvents, OriginsOf;
    if o.block < n - 1 {
      NewRowsComplete(w, n - 1, o, record);
    } else {
      BlockEventsExact(w.chain[n - 1]);
      OriginsComplete(w.decode, n - 1, BlockEvents(w.chain[n - 1]), o.at, o.place, record);
    }
  }

  // ---- main results ----

  /** The database of `n` blocks holds, after the seeded rows, one row for each record decoded from
      each visited event of each of the blocks, in the order they were visited, and no other row. */
  lemma RowsHaveOrigins(w: World, n: nat) returns (os: seq<Origin>)
    requires n <= |w.chain|
    ensures var rows, seeded := w.At(n).db.events, |w.opening.events|;
            && seeded <= |rows| && rows[..seeded] == w.opening.events && |os| == |rows| - seeded
            && (forall i :: 0 <= i < |os| ==> RowOf(w, n, os[i], rows[seeded + i]))
            && InOrder(os)
            && (forall o, record :: IsOrigin(w, n, o, record) ==> o in os)
  {
    hide World.At, OriginsUpto, NewRows, RowOf, IsOrigin, Earlier;
    os := OriginsUpto(w, n);
    RowsAreNewRows(w, n);
    NewRowsMatch(w, n);
    NewRowsAscend(w, n);
    forall o, record | IsOrigin(w, n, o, record) ensures o in os {
      NewRowsComplete(w, n, o, record);
    }
  }

  /** Over a whole run, rows of different events carry strictly increasing ids; rows share an id only
      when one event gave them all. */
  lemma RowIdsIncrease(w: World, n: nat, os: seq<Origin>)
    requires n <= |w.chain| && GoodChain(w.chain, w.first)
    requires forall j :: 0 <= j < n ==> BlockInBudget(w.chain[j])
    requires var rows, seeded := w.At(n).db.events, |w.opening.events|;
             && |os| == |rows| - seeded
             && (forall i :: 0 <= i < |os| ==> RowOf(w, n, os[i], rows[seeded + i]))
             && InOrder(os)
    ensures var rows, seeded := w.At(n).db.events, |w.opening.events|;
            forall i, j :: 0 <= i < j < |os| ==>
              if os[i].block == os[j].block && os[i].at == os[j].at then rows[seeded + i].eventId == rows[seeded + j].eventId
              else rows[seeded + i].eventId < rows[seeded + j].eventId
  {
    hide World.At, ToI64, Visited, Gives, BlockInBudget, InBudget;
    var rows, seeded := w.At(n).db.events, |w.opening.events|;
    forall i, j | 0 <= i < j < |os|
      ensures if os[i].block == os[j].block && os[i].at == os[j].at then rows[seeded + i].eventId == rows[seeded + j].eventId
              else rows[seeded + i].eventId < rows[seeded + j].eventId
    {
      var o, p := os[i], os[j];
      assert RowOf(w, n, o, rows[seeded + i]) && RowOf(w, n, p, rows[seeded + j]) && Earlier(o, p);
      VisitedInBudget(w.chain[o.block], o.at);
      VisitedInBudget(w.chain[p.block], p.at);
      OrderIsChainOrder(o.at.id, p.at.id);
      EarlierIds(w, o, p);
    }
  }

  lemma VisitedInBudget(b: Block, x: Located)
    requires BlockInBudget(b) && Visited(b, x)
    ensures InBudget(x.id) && x.id.height == b.height
  {
    BlockEventsExact(b);
    IdsInBudget(b);
    hide *;
  }

  lemma EarlierIds(w: World, o: Origin, p: Origin)
    requires o.block < |w.chain| && p.block < |w.chain| && GoodChain(w.chain, w.first) && Earlier(o, p)
    requires o.at.id.height == w.chain[o.block].height && p.at.id.height == w.chain[p.block].height
    ensures Before(o.at.id, p.at.id) || (o.block == p.block && o.at == p.at)
    ensures Before(o.at.id, p.at.id) ==> o.at != p.at
  {
  }

  // ---- the depths follow the rows ----

  lemma {:induction false} CurrentIgnoresDirty(t: Tracker, u: Tracker, ms: seq<Move>)
    requires t.current == u.current
    ensures t.AfterAll(ms).current == u.AfterAll(ms).current
  {
    if ms != [] {
      CurrentIgnoresDirty(t, u, ms[..|ms| - 1]);
    }
  }

  function TrackerAfter(w: World, rows: seq<EventRow>): Tracker {
    Tracker(Latest(w.opening.depths), []).AfterAll(MovesOf(rows))
  }

  lemma {:induction false} CurrentFollowsRows(w: World, n: nat)
    requires n <= |w.chain|
    ensures w.At(n).current == TrackerAfter(w, NewRows(w, n)).current
  {
    hide World.At, BlockRows, MovesOf, Tracker.AfterAll, Latest;
    if n == 0 {
      ReplayStart(w);
      NoMoves(Tracker(Latest(w.opening.depths), []));
    } else {
      CurrentFollowsRows(w, n - 1);
      ReplayStep(w, n - 1);
      var before, rows := NewRows(w, n - 1), BlockRows(w.decode, w.chain[n - 1]);
      var t := Tracker(Latest(w.opening.depths), []);
      MovesOfConcat(before, rows);
      AfterAllConcat(t, MovesOf(before), MovesOf(rows));
      CurrentIgnoresDirty(Tracker(w.At(n - 1).current, []), TrackerAfter(w, before), MovesOf(rows));
    }
  }

  /** The live depths are what the rows, one after another, do to the opening depths. */
  lemma DepthsFollowRows(w: World, n: nat) returns (states: seq<Tracker>)
    requires n <= |w.chain|
    ensures var rows, seeded := w.At(n).db.events, |w.opening.events|;
            && seeded <= |rows| && |states| == |rows| - seeded + 1 && states[0] == Tracker(Latest(w.opening.depths), [])
            && states[|states| - 1].current == w.At(n).current
            && forall i :: 0 <= i < |states| - 1 ==> Applied(rows[seeded + i].record, states[i], states[i + 1])
  {
    hide World.At, Applied, NewRows, MovesOf, Moves, Tracker.AfterAll, Latest;
    var rows := NewRows(w, n);
    RowsAreNewRows(w, n);
    CurrentFollowsRows(w, n);
    states := seq(|rows| + 1, i requires 0 <= i <= |rows| => TrackerAfter(w, rows[..i]));
    assert rows[..|rows|] == rows && rows[..0] == [];
    NoMoves(Tracker(Latest(w.opening.depths), []));
    forall i | 0 <= i < |rows| ensures Applied(rows[i].record, states[i], states[i + 1]) {
      OneRowMore(w, rows, i);
      MovesApply(states[i], rows[i].record);
    }
  }

  lemma OneRowMore(w: World, rows: seq<EventRow>, i: nat)
    requires i < |rows|
    ensures TrackerAfter(w, rows[..i + 1]) == TrackerAfter(w, rows[..i]).AfterAll(Moves(rows[i].record))
  {
    hide Moves, Tracker.AfterAll, Latest;
    assert rows[..i + 1][..i] == rows[..i];
    AfterAllConcat(Tracker(Latest(w.opening.depths), []), MovesOf(rows[..i]), Moves(rows[i].record));
  }
}
