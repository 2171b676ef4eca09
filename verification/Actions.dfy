/** The actions feed: three tables merged newest first, paged by event id. */
module Actions {
  import opened Wrappers
  import opened Text

  /** One action. `addresses` are the columns the address filter looks at in the row's table. */
  datatype Row = Row(eventId: int, addresses: seq<string>, pool: string, action: string)

  datatype Tables = Tables(swaps: seq<Row>, deposits: seq<Row>, withdrawals: seq<Row>)

  datatype Filter = Filter(address: Option<string>, asset: Option<string>)

  const DEFAULT_LIMIT: int := 50

  // ---- the queries ----

  predicate Selects(f: Filter, before: Option<int>, r: Row) {
    && (before.Some? ==> r.eventId < before.value)
    && (f.address.Some? ==> f.address.value in r.addresses)
    && (f.asset.Some? ==> r.pool == f.asset.value)
  }

  function Keep(rows: seq<Row>, f: Filter, before: Option<int>): seq<Row> {
    if rows == [] then []
    else (if Selects(f, before, rows[0]) then [rows[0]] else []) + Keep(rows[1..], f, before)
  }

  /** Newest first; equal ids keep their order. */
  function Insert(r: Row, sorted: seq<Row>): seq<Row> {
    if sorted == [] || r.eventId >= sorted[0].eventId then [r] + sorted else [sorted[0]] + Insert(r, sorted[1..])
  }

  function Sorted(rows: seq<Row>): seq<Row> {
    if rows == [] then [] else Insert(rows[0], Sorted(rows[1..]))
  }

  function Take(rows: seq<Row>, n: nat): seq<Row> {
    if |rows| <= n then rows else rows[..n]
  }

  /** `WHERE ... ORDER BY event_id DESC LIMIT limit` on one table. */
  function Query(table: seq<Row>, f: Filter, before: Option<int>, limit: nat): seq<Row> {
    Take(Sorted(Keep(table, f, before)), limit)
  }

  // ---- the endpoint ----

  /** Whether the `type` parameter asks for this kind of action. */
  predicate Wants(filter: Option<string>, kind: string) {
    filter.None? || exists k :: 0 <= k < |Split(filter.value, ',')| && Upper(Trim(Split(filter.value, ',')[k])) == Upper(kind)
  }

  /** `Failure` carries the rejected value. */
  function LimitOf(requested: Option<int>, max: nat): (r: Result<int, int>)
    ensures r.Success? && max >= 1 ==> 1 <= r.value <= max
    ensures requested.None? ==> r.Success? && r.value <= 50 && (r.value < 50 ==> r.value == max)
    ensures requested.Some? ==> (r.Success? <==> 1 <= requested.value <= max) && (r.Success? ==> r.value == requested.value)
  {
    match requested
    case None => Success(if DEFAULT_LIMIT < max then DEFAULT_LIMIT else max)
    case Some(l) => if 1 <= l <= max then Success(l) else Failure(l)
  }

  /** All rows of the tables asked for. */
  function Wanted(t: Tables, actionType: Option<string>): seq<Row> {
    (if Wants(actionType, "swap") then t.swaps else [])
    + (if Wants(actionType, "addLiquidity") then t.deposits else [])
    + (if Wants(actionType, "withdraw") then t.withdrawals else [])
  }

  /** Everything that matches, newest first. */
  function Feed(rows: seq<Row>, f: Filter, before: Option<int>): seq<Row> {
    Sorted(Keep(rows, f, before))
  }

  /** The newest `limit` of them. */
  function Page(t: Tables, actionType: Option<string>, f: Filter, token: Option<int>, limit: nat): seq<Row> {
    Take(Feed(Wanted(t, actionType), f, token), limit)
  }

  method GetActions(t: Tables, actionType: Option<string>, f: Filter, token: Option<int>, limit: nat)
    returns (rows: seq<Row>, nextPageToken: int)
    ensures rows == Page(t, actionType, f, token, limit)
    ensures nextPageToken == if rows == [] then 0 else rows[|rows| - 1].eventId
  {
    hide Wants, Query, Sorted, Take;
    rows := [];
    if Wants(actionType, "swap") {
      rows := rows + Query(t.swaps, f, token, limit);
    }
    if Wants(actionType, "addLiquidity") {
      rows := rows + Query(t.deposits, f, token, limit);
    }
    if Wants(actionType, "withdraw") {
      rows := rows + Query(t.withdrawals, f, token, limit);
    }
    ghost var swaps := if Wants(actionType, "swap") then t.swaps else [];
    ghost var deposits := if Wants(actionType, "addLiquidity") then t.deposits else [];
    ghost var withdrawals := if Wants(actionType, "withdraw") then t.withdrawals else [];
    QueryOfNothing(f, token, limit);
    assert rows == Query(swaps, f, token, limit) + Query(deposits, f, token, limit) + Query(withdrawals, f, token, limit);
    ThreeTables(swaps, deposits, withdrawals, f, token, limit);
    rows := Sorted(rows);
    rows := Take(rows, limit);
    nextPageToken := if rows == [] then 0 else rows[|rows| - 1].eventId;
  }

  // ---- merging limited tables ----

  lemma QueryOfNothing(f: Filter, before: Option<int>, limit: nat)
    ensures Query([], f, before, limit) == []
  {
  }

  function Merge(a: seq<Row>, b: seq<Row>): seq<Row>
    decreases |a| + |b|
  {
    if a == [] then b
    else if b == [] then a
    else if a[0].eventId >= b[0].eventId then [a[0]] + Merge(a[1..], b)
    else [b[0]] + Merge(a, b[1..])
  }

  lemma {:induction false} InsertMerge(r: Row, a: seq<Row>, b: seq<Row>)
    ensures Insert(r, Merge(a, b)) == Merge(Insert(r, a), b)
    decreases |a| + |b|
  {
    var ra := Insert(r, a);
    if a == [] {
      if b != [] && r.eventId < b[0].eventId {
        InsertMerge(r, a, b[1..]);
        assert Merge(ra, b) == [b[0]] + Merge(ra, b[1..]);
      } else {
        assert ra[1..] == [];
      }
    } else if b == [] {
    } else if r.eventId >= Merge(a, b)[0].eventId {
      assert ra == [r] + a && ra[1..] == a;
    } else if a[0].eventId >= b[0].eventId {
      assert ra == [a[0]] + Insert(r, a[1..]) && ra[1..] == Insert(r, a[1..]);
      InsertMerge(r, a[1..], b);
      assert Merge(a, b)[1..] == Merge(a[1..], b);
    } else {
      InsertMerge(r, a, b[1..]);
      assert Merge(a, b)[1..] == Merge(a, b[1..]);
      assert Merge(ra, b) == [b[0]] + Merge(ra, b[1..]);
    }
  }

  lemma {:induction false} SortedConcat(xs: seq<Row>, ys: seq<Row>)
    ensures Sorted(xs + ys) == Merge(Sorted(xs), Sorted(ys))
  {
    if xs == [] {
      assert xs + ys == ys;
    } else {
      SortedConcat(xs[1..], ys);
      assert (xs + ys)[0] == xs[0] && (xs + ys)[1..] == xs[1..] + ys;
      InsertMerge(xs[0], Sorted(xs[1..]), Sorted(ys));
      hide Insert, Merge;
    }
  }

  /** The first `n` of a merge need only the first `n` of each side. */
  lemma {:induction false} TakeMerge(a: seq<Row>, b: seq<Row>, i: nat, j: nat, n: nat)
    requires n <= i && n <= j
    ensures Take(Merge(Take(a, i), Take(b, j)), n) == Take(Merge(a, b), n)
    decreases |a| + |b|
  {
    var a', b' := Take(a, i), Take(b, j);
    if n == 0 || a == [] || b == [] {
    } else if a[0].eventId >= b[0].eventId {
      TakeMerge(a[1..], b, i - 1, j, n - 1);
      assert a'[0] == a[0] && a'[1..] == Take(a[1..], i - 1);
      TakeHead(a[0], Merge(a[1..], b), n);
      TakeHead(a[0], Merge(a'[1..], b'), n);
    } else {
      TakeMerge(a, b[1..], i, j - 1, n - 1);
      assert b'[0] == b[0] && b'[1..] == Take(b[1..], j - 1);
      TakeHead(b[0], Merge(a, b[1..]), n);
      TakeHead(b[0], Merge(a', b'[1..]), n);
    }
  }

  lemma TakeHead(r: Row, rows: seq<Row>, n: nat)
    requires n > 0
    ensures Take([r] + rows, n) == [r] + Take(rows, n - 1)
  {
  }

  lemma KeepHead(r: Row, rows: seq<Row>, f: Filter, before: Option<int>)
    ensures Keep([r] + rows, f, before) == (if Selects(f, before, r) then [r] else []) + Keep(rows, f, before)
  {
    assert ([r] + rows)[1..] == rows;
  }

  lemma {:induction false} KeepConcat(xs: seq<Row>, ys: seq<Row>, f: Filter, before: Option<int>)
    ensures Keep(xs + ys, f, before) == Keep(xs, f, before) + Keep(ys, f, before)
  {
    hide Selects, Keep;
    if xs == [] {
      assert xs + ys == ys;
      KeepNothing(f, before);
    } else {
      KeepConcat(xs[1..], ys, f, before);
      KeepHead(xs[0], xs[1..], f, before);
      KeepHead(xs[0], xs[1..] + ys, f, before);
      assert xs == [xs[0]] + xs[1..] && xs + ys == [xs[0]] + (xs[1..] + ys);
    }
  }

  lemma KeepNothing(f: Filter, before: Option<int>)
    ensures Keep([], f, before) == []
  {
  }

  predicate IsDescending(rows: seq<Row>) {
    forall i, j :: 0 <= i < j < |rows| ==> rows[i].eventId >= rows[j].eventId
  }

  lemma {:induction false} InsertKeepsOrder(r: Row, rows: seq<Row>)
    requires IsDescending(rows)
    ensures IsDescending(Insert(r, rows))
    ensures forall x :: x in Insert(r, rows) <==> x == r || x in rows
  {
    if rows != [] && r.eventId < rows[0].eventId {
      InsertKeepsOrder(r, rows[1..]);
      var rest := Insert(r, rows[1..]);
      assert forall x :: x in rows <==> x == rows[0] || x in rows[1..];
      forall j | 0 <= j < |rest| ensures rows[0].eventId >= rest[j].eventId {
        assert rest[j] in rest;
      }
    }
  }

  lemma {:induction false} SortedIsSorted(rows: seq<Row>)
    ensures IsDescending(Sorted(rows)) && |Sorted(rows)| == |rows|
    ensures forall x :: x in Sorted(rows) <==> x in rows
  {
    if rows != [] {
      SortedIsSorted(rows[1..]);
      InsertKeepsOrder(rows[0], Sorted(rows[1..]));
      InsertLength(rows[0], Sorted(rows[1..]));
    }
  }

  lemma {:induction false} InsertLength(r: Row, rows: seq<Row>)
    ensures |Insert(r, rows)| == |rows| + 1
  {
    if rows != [] {
      InsertLength(r, rows[1..]);
    }
  }

  lemma {:induction false} SortedTwice(rows: seq<Row>)
    requires IsDescending(rows)
    ensures Sorted(rows) == rows
  {
    if rows != [] {
      SortedTwice(rows[1..]);
    }
  }

  /** Two limited queries, sorted together and cut, are the query over both tables. */
  lemma TwoTables(xs: seq<Row>, ys: seq<Row>, i: nat, n: nat)
    requires n <= i
    ensures Take(Sorted(Take(Sorted(xs), i) + Take(Sorted(ys), n)), n) == Take(Sorted(xs + ys), n)
  {
    hide Sorted, Merge;
    var a, b := Take(Sorted(xs), i), Take(Sorted(ys), n);
    SortedIsSorted(xs);
    SortedIsSorted(ys);
    SortedTwice(a);
    SortedTwice(b);
    SortedConcat(a, b);
    SortedConcat(xs, ys);
    TakeMerge(Sorted(xs), Sorted(ys), i, n, n);
  }

  /** Merging the three limited queries gives the newest `limit` rows of all three tables. */
  lemma ThreeTables(xs: seq<Row>, ys: seq<Row>, zs: seq<Row>, f: Filter, before: Option<int>, limit: nat)
    ensures Take(Sorted(Query(xs, f, before, limit) + Query(ys, f, before, limit) + Query(zs, f, before, limit)), limit)
         == Take(Feed(xs + ys + zs, f, before), limit)
  {
    hide Sorted, Keep, Take;
    var x, y, z := Keep(xs, f, before), Keep(ys, f, before), Keep(zs, f, before);
    KeepConcat(xs, ys, f, before);
    KeepConcat(xs + ys, zs, f, before);
    var qx, qy, qz := Take(Sorted(x), limit), Take(Sorted(y), limit), Take(Sorted(z), limit);
    TwoTables(x, y, limit, limit);
    TwoTables(x + y, z, limit, limit);
    CutFirst(qx + qy, qz, limit);
  }

  /** Cutting the first part early does not change the first `n` of the whole. */
  lemma CutFirst(p: seq<Row>, q: seq<Row>, n: nat)
    ensures Take(Sorted(Take(Sorted(p), n) + q), n) == Take(Sorted(p + q), n)
  {
    hide Sorted, Merge;
    SortedIsSorted(p);
    SortedIsSorted(q);
    var a := Take(Sorted(p), n);
    SortedTwice(a);
    SortedConcat(a, q);
    SortedConcat(p, q);
    TakeMerge(Sorted(p), Sorted(q), n, if |Sorted(q)| < n then n else |Sorted(q)|, n);
  }

  // ---- paging ----

  predicate DistinctIds(rows: seq<Row>) {
    forall i, j :: 0 <= i < j < |rows| ==> rows[i].eventId != rows[j].eventId
  }

  predicate StrictlyDescending(rows: seq<Row>) {
    forall i, j :: 0 <= i < j < |rows| ==> rows[i].eventId > rows[j].eventId
  }

  lemma {:induction false} KeepExactly(rows: seq<Row>, f: Filter, before: Option<int>)
    ensures forall x :: x in Keep(rows, f, before) <==> x in rows && Selects(f, before, x)
  {
    hide Selects;
    if rows != [] {
      KeepExactly(rows[1..], f, before);
      assert forall x :: x in rows <==> x == rows[0] || x in rows[1..];
    }
  }

  /** With distinct ids the feed lists each matching row once, newest first. */
  lemma {:induction false} FeedIsStrict(rows: seq<Row>, f: Filter, before: Option<int>)
    requires DistinctIds(rows)
    ensures StrictlyDescending(Feed(rows, f, before))
    ensures forall x :: x in Feed(rows, f, before) <==> x in rows && Selects(f, before, x)
  {
    KeepExactly(rows, f, before);
    SortedIsSorted(Keep(rows, f, before));
    if rows != [] {
      FeedIsStrict(rows[1..], f, before);
      if Selects(f, before, rows[0]) {
        var rest := Feed(rows[1..], f, before);
        assert Keep(rows, f, before)[1..] == Keep(rows[1..], f, before);
        assert Feed(rows, f, before) == Insert(rows[0], rest);
        forall j | 0 <= j < |rest| ensures rest[j].eventId != rows[0].eventId {
          assert rest[j] in rest;
        }
        hide Feed, Keep, Sorted, Selects;
        InsertStrict(rows[0], rest);
      } else {
        assert Keep(rows, f, before) == Keep(rows[1..], f, before);
      }
    }
  }

  lemma {:induction false} InsertStrict(r: Row, rows: seq<Row>)
    requires StrictlyDescending(rows) && forall j :: 0 <= j < |rows| ==> rows[j].eventId != r.eventId
    ensures StrictlyDescending(Insert(r, rows))
  {
    if rows != [] && r.eventId < rows[0].eventId {
      InsertStrict(r, rows[1..]);
      InsertKeepsOrder(r, rows[1..]);
      var rest := Insert(r, rows[1..]);
      forall j | 0 <= j < |rest| ensures rows[0].eventId > rest[j].eventId {
        assert rest[j] in rest;
      }
    }
  }

  /** A strictly descending list is determined by what it contains. */
  lemma {:induction false} SameRows(xs: seq<Row>, ys: seq<Row>)
    requires StrictlyDescending(xs) && StrictlyDescending(ys)
    requires forall x :: x in xs <==> x in ys
    ensures xs == ys
  {
    if xs == [] {
      assert forall j :: 0 <= j < |ys| ==> ys[j] in ys;
    } else {
      assert xs[0] in ys && ys[0] in xs;
      var i :| 0 <= i < |ys| && ys[i] == xs[0];
      var j :| 0 <= j < |xs| && xs[j] == ys[0];
      assert xs[0] == ys[0];
      forall x ensures x in xs[1..] <==> x in ys[1..] {
        InTail(xs, x);
        InTail(ys, x);
      }
      SameRows(xs[1..], ys[1..]);
    }
  }

  lemma InTail(xs: seq<Row>, x: Row)
    requires xs != [] && StrictlyDescending(xs)
    ensures x in xs[1..] <==> x in xs && x != xs[0]
  {
    assert xs == [xs[0]] + xs[1..];
    if x in xs[1..] {
      var k :| 0 <= k < |xs[1..]| && xs[1..][k] == x;
      assert xs[k + 1] == x;
    }
  }

  /** What a feed lists does not depend on the order its rows are stored in. */
  lemma FeedOfSameRows(xs: seq<Row>, ys: seq<Row>, f: Filter, before: Option<int>)
    requires DistinctIds(xs) && DistinctIds(ys)
    requires forall x :: x in xs && Selects(f, before, x) <==> x in ys && Selects(f, before, x)
    ensures Feed(xs, f, before) == Feed(ys, f, before)
  {
    FeedIsStrict(xs, f, before);
    FeedIsStrict(ys, f, before);
    hide Feed, Selects;
    SameRows(Feed(xs, f, before), Feed(ys, f, before));
  }

  lemma FeedBelow(rows: seq<Row>, f: Filter, before: Option<int>, k: nat)
    requires DistinctIds(rows) && 0 < k <= |Feed(rows, f, before)|
    ensures Feed(rows, f, Some(Feed(rows, f, before)[k - 1].eventId)) == Feed(rows, f, before)[k..]
  {
    var feed := Feed(rows, f, before);
    var t := feed[k - 1].eventId;
    FeedIsStrict(rows, f, before);
    FeedIsStrict(rows, f, Some(t));
    hide Feed, Keep;
    assert feed[k - 1] in feed;
    forall x ensures x in Feed(rows, f, Some(t)) <==> x in feed[k..] {
      if x in feed[k..] {
        var j :| 0 <= j < |feed[k..]| && feed[k..][j] == x;
        assert feed[k + j] == x && x in feed;
      }
      if x in Feed(rows, f, Some(t)) {
        assert x in feed;
        var j :| 0 <= j < |feed| && feed[j] == x;
        assert j >= k;
        assert feed[k..][j - k] == x;
      }
    }
    SameRows(Feed(rows, f, Some(t)), feed[k..]);
  }

  /** `later` holds every row of `rows`, in any order, and otherwise only rows newer than where the
      feed over `rows` starts. */
  predicate GrownFrom(rows: seq<Row>, start: Option<int>, later: seq<Row>) {
    && DistinctIds(later)
    && (forall x :: x in rows ==> x in later)
    && (forall x :: x in later && x !in rows ==> NewerThan(x.eventId, rows, start))
  }

  predicate NewerThan(id: int, rows: seq<Row>, start: Option<int>) {
    if start.Some? then id >= start.value else forall y :: y in rows ==> id > y.eventId
  }

  /** Rows that have arrived since do not change what is listed below a row of the feed. */
  lemma FeedOfGrown(rows: seq<Row>, start: Option<int>, later: seq<Row>, f: Filter, token: int)
    requires DistinctIds(rows) && GrownFrom(rows, start, later)
    requires (start.Some? ==> token <= start.value) && (start.None? ==> exists y :: y in rows && token <= y.eventId)
    ensures Feed(later, f, Some(token)) == Feed(rows, f, Some(token))
  {
    forall x ensures x in later && Selects(f, Some(token), x) <==> x in rows && Selects(f, Some(token), x) {
      if x in later && x !in rows {
        assert NewerThan(x.eventId, rows, start);
      }
    }
    FeedOfSameRows(later, rows, f, Some(token));
  }

  /** The feed below a page's token is the rest of the feed, rows that have arrived since included. */
  lemma FeedAfterToken(rows: seq<Row>, start: Option<int>, later: seq<Row>, f: Filter, k: nat)
    requires DistinctIds(rows) && GrownFrom(rows, start, later) && 0 < k <= |Feed(rows, f, start)|
    ensures Feed(later, f, Some(Feed(rows, f, start)[k - 1].eventId)) == Feed(rows, f, start)[k..]
  {
    hide Feed, GrownFrom;
    TokenInFeed(rows, f, start, k);
    FeedOfGrown(rows, start, later, f, Feed(rows, f, start)[k - 1].eventId);
    FeedBelow(rows, f, start, k);
  }

  lemma TokenInFeed(rows: seq<Row>, f: Filter, start: Option<int>, k: nat)
    requires DistinctIds(rows) && 0 < k <= |Feed(rows, f, start)|
    ensures var x := Feed(rows, f, start)[k - 1]; x in rows && (start.Some? ==> x.eventId < start.value)
  {
    FeedIsStrict(rows, f, start);
    hide Feed;
    assert Feed(rows, f, start)[k - 1] in Feed(rows, f, start);
  }

  /** Following `nextPageToken` until a page is empty; request `i` is answered from `tables[i]`. */
  function Follow(tables: seq<Tables>, actionType: Option<string>, f: Filter, token: Option<int>, limit: nat): seq<Row>
    decreases |tables|
  {
    if tables == [] then []
    else
      var page := Page(tables[0], actionType, f, token, limit);
      if page == [] then []
      else page + Follow(tables[1..], actionType, f, Some(page[|page| - 1].eventId), limit)
  }

  lemma PageOf(feed: seq<Row>, k: nat, limit: nat)
    requires k <= |feed| && limit > 0
    ensures var page := Take(feed[k..], limit);
            (page == [] <==> k == |feed|) && feed[k..] == page + feed[k + |page|..]
            && (page != [] ==> page[|page| - 1] == feed[k + |page| - 1])
  {
  }

  /** From the `k`-th row of the feed on. */
  lemma {:induction false} FollowFrom(rows: seq<Row>, tables: seq<Tables>, actionType: Option<string>, f: Filter,
                                      start: Option<int>, token: Option<int>, limit: nat, k: nat)
    requires DistinctIds(rows) && limit > 0 && k <= |Feed(rows, f, start)| && |tables| > |Feed(rows, f, start)| - k
    requires forall i :: 0 <= i < |tables| ==> GrownFrom(rows, start, Wanted(tables[i], actionType))
    requires k == 0 ==> token == start && Feed(Wanted(tables[0], actionType), f, start) == Feed(rows, f, start)
    requires k > 0 ==> token == Some(Feed(rows, f, start)[k - 1].eventId)
    ensures Follow(tables, actionType, f, token, limit) == Feed(rows, f, start)[k..]
    decreases |tables|
  {
    hide Feed, Take, GrownFrom, Wanted;
    var feed := Feed(rows, f, start);
    if k > 0 {
      FeedAfterToken(rows, start, Wanted(tables[0], actionType), f, k);
    }
    assert Feed(Wanted(tables[0], actionType), f, token) == feed[k..];
    var page := Page(tables[0], actionType, f, token, limit);
    PageOf(feed, k, limit);
    if page != [] {
      FollowFrom(rows, tables[1..], actionType, f, start, Some(page[|page| - 1].eventId), limit, k + |page|);
    }
  }

  /** Asking the endpoint page after page until one is empty lists every matching row of the tables
      asked for that was there at the start, each once, newest first, whatever newer rows are inserted
      into any of the tables in between; one request more than there are rows is always enough. */
  lemma PagingIsExact(tables: seq<Tables>, actionType: Option<string>, f: Filter, start: Option<int>, limit: nat)
    requires tables != [] && limit > 0
    requires var rows := Wanted(tables[0], actionType);
             && DistinctIds(rows) && |tables| > |Feed(rows, f, start)|
             && forall i :: 0 <= i < |tables| ==> GrownFrom(rows, start, Wanted(tables[i], actionType))
    ensures var listed := Follow(tables, actionType, f, start, limit);
            && StrictlyDescending(listed)
            && forall x :: x in listed <==> Asks(tables[0], actionType, f, start, x)
  {
    var rows := Wanted(tables[0], actionType);
    FeedIsStrict(rows, f, start);
    forall x ensures x in rows && Selects(f, start, x) <==> Asks(tables[0], actionType, f, start, x) {
      AsksMeans(tables[0], actionType, f, start, x);
    }
    hide Feed, Wanted, Follow, Asks, Selects;
    FollowFrom(rows, tables, actionType, f, start, start, limit, 0);
    assert Feed(rows, f, start)[0..] == Feed(rows, f, start);
  }

  /** Every row is kept, and the added ones are newer. */
  predicate TableGrown(table: seq<Row>, grown: seq<Row>, rows: seq<Row>, start: Option<int>) {
    && (forall x :: x in table ==> x in grown)
    && (forall x :: x in grown && x !in table ==> NewerThan(x.eventId, rows, start))
  }

  /** Inserting newer rows into any of the three tables, at any place, is such growth. */
  lemma InsertedAnywhere(t: Tables, u: Tables, actionType: Option<string>, start: Option<int>)
    requires var rows := Wanted(t, actionType);
             && DistinctIds(Wanted(u, actionType)) && TableGrown(t.swaps, u.swaps, rows, start)
             && TableGrown(t.deposits, u.deposits, rows, start) && TableGrown(t.withdrawals, u.withdrawals, rows, start)
    ensures GrownFrom(Wanted(t, actionType), start, Wanted(u, actionType))
  {
    hide Wants, NewerThan;
  }

  // ---- what a request asks for ----

  /** The same letters but for ASCII case. */
  predicate SameLetters(s: string, t: string) {
    |s| == |t| && forall k :: 0 <= k < |s| ==> UpperChar(s[k]) == UpperChar(t[k])
  }

  /** The kind, with only white space around it. */
  ghost predicate IsKind(piece: string, kind: string) {
    exists a, b :: PaddedAround(piece, a, b) && SameLetters(piece[a..b], kind)
  }

  /** It stands between two commas or ends of the list. */
  ghost predicate Lists(list: string, kind: string) {
    exists c, d :: IsPiece(list, ',', c, d) && IsKind(list[c..d], kind)
  }

  lemma UpperIsSameLetters(s: string, t: string)
    ensures Upper(s) == Upper(t) <==> SameLetters(s, t)
  {
    if Upper(s) == Upper(t) {
      assert forall k :: 0 <= k < |s| ==> Upper(s)[k] == UpperChar(s[k]) && Upper(t)[k] == UpperChar(t[k]);
    }
  }

  lemma TrimmedIsKind(piece: string, kind: string)
    requires IsTrimmed(kind)
    ensures Upper(Trim(piece)) == Upper(kind) <==> IsKind(piece, kind)
  {
    hide Trim, Upper, SameLetters, IsTrimmed;
    if Upper(Trim(piece)) == Upper(kind) {
      UpperIsSameLetters(Trim(piece), kind);
      KindIsTrimmed(Trim(piece), kind);
      TrimIs(piece, Trim(piece));
    }
    if IsKind(piece, kind) {
      var a, b :| PaddedAround(piece, a, b) && SameLetters(piece[a..b], kind);
      KindIsTrimmed(piece[a..b], kind);
      TrimIs(piece, piece[a..b]);
      UpperIsSameLetters(piece[a..b], kind);
    }
  }

  /** A kind is asked for when there is no list or the list names it. */
  lemma WantsMeans(filter: Option<string>, kind: string)
    requires IsTrimmed(kind)
    ensures Wants(filter, kind) <==> filter.None? || Lists(filter.value, kind)
  {
    hide Split, Trim, Upper, IsKind, IsTrimmed, HasPiece;
    if filter.Some? {
      var list := filter.value;
      var pieces := Split(list, ',');
      forall p ensures p in pieces <==> HasPiece(list, ',', p) {
        SplitIs(list, ',', p);
      }
      if Wants(filter, kind) {
        var k :| 0 <= k < |pieces| && Upper(Trim(pieces[k])) == Upper(kind);
        TrimmedIsKind(pieces[k], kind);
        PieceAt(list, pieces[k]);
      }
      if Lists(list, kind) {
        var c, d :| IsPiece(list, ',', c, d) && IsKind(list[c..d], kind);
        PieceIs(list, c, d);
        TrimmedIsKind(list[c..d], kind);
        var k :| 0 <= k < |pieces| && pieces[k] == list[c..d];
      }
    }
  }

  lemma PieceAt(list: string, p: string)
    requires HasPiece(list, ',', p)
    ensures exists c, d :: IsPiece(list, ',', c, d) && list[c..d] == p
  {
  }

  lemma PieceIs(list: string, c: int, d: int)
    requires IsPiece(list, ',', c, d)
    ensures HasPiece(list, ',', list[c..d])
  {
  }

  lemma KindIsTrimmed(s: string, kind: string)
    requires SameLetters(s, kind) && IsTrimmed(kind)
    ensures IsTrimmed(s)
  {
  }

  /** The rows a request is about: its tables, the address and the asset, and ids below the token. */
  ghost predicate Asks(t: Tables, actionType: Option<string>, f: Filter, token: Option<int>, x: Row) {
    && (|| (x in t.swaps && (actionType.None? || Lists(actionType.value, "swap")))
        || (x in t.deposits && (actionType.None? || Lists(actionType.value, "addLiquidity")))
        || (x in t.withdrawals && (actionType.None? || Lists(actionType.value, "withdraw"))))
    && (f.address.Some? ==> f.address.value in x.addresses)
    && (f.asset.Some? ==> x.pool == f.asset.value)
    && (token.Some? ==> x.eventId < token.value)
  }

  lemma AsksMeans(t: Tables, actionType: Option<string>, f: Filter, token: Option<int>, x: Row)
    ensures x in Wanted(t, actionType) && Selects(f, token, x) <==> Asks(t, actionType, f, token, x)
  {
    hide Wants, Lists, IsTrimmed;
    KindsAreTrimmed();
    WantsMeans(actionType, "swap");
    WantsMeans(actionType, "addLiquidity");
    WantsMeans(actionType, "withdraw");
    WantedIs(t, actionType, x);
  }

  lemma KindsAreTrimmed()
    ensures IsTrimmed("swap") && IsTrimmed("addLiquidity") && IsTrimmed("withdraw")
  {
  }

  lemma WantedIs(t: Tables, actionType: Option<string>, x: Row)
    ensures x in Wanted(t, actionType)
       <==> || (x in t.swaps && Wants(actionType, "swap")) || (x in t.deposits && Wants(actionType, "addLiquidity"))
            || (x in t.withdrawals && Wants(actionType, "withdraw"))
  {
    hide Wants;
  }

  /** A page is the newest `limit` of the rows asked for, newest first. */
  lemma PageIsNewest(t: Tables, actionType: Option<string>, f: Filter, token: Option<int>, limit: nat)
    requires DistinctIds(Wanted(t, actionType))
    ensures var page := Page(t, actionType, f, token, limit);
            && |page| <= limit && StrictlyDescending(page)
            && (forall x :: x in page ==> Asks(t, actionType, f, token, x))
            && (forall y :: Asks(t, actionType, f, token, y) && y !in page ==> |page| == limit && OlderThanAll(y, page))
  {
    var rows := Wanted(t, actionType);
    FeedIsStrict(rows, f, token);
    var feed := Feed(rows, f, token);
    forall x ensures x in feed <==> Asks(t, actionType, f, token, x) {
      AsksMeans(t, actionType, f, token, x);
    }
    hide Feed, Wanted, Asks, Selects;
    TakeNewest(feed, limit);
  }

  predicate OlderThanAll(y: Row, page: seq<Row>) {
    forall k :: 0 <= k < |page| ==> y.eventId < page[k].eventId
  }

  lemma TakeNewest(feed: seq<Row>, limit: nat)
    requires StrictlyDescending(feed)
    ensures var page := Take(feed, limit);
            && |page| <= limit && StrictlyDescending(page)
            && (forall x :: x in page ==> x in feed)
            && (forall y :: y in feed && y !in page ==> |page| == limit && OlderThanAll(y, page))
  {
    var page := Take(feed, limit);
    forall y | y in feed && y !in page ensures |page| == limit && OlderThanAll(y, page) {
      var j :| 0 <= j < |feed| && feed[j] == y;
      assert forall k :: 0 <= k < |page| ==> page[k] == feed[k];
      assert |page| <= j;
    }
  }
}
