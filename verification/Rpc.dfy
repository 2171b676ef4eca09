/** JSON-RPC batches: responses arrive in any order and are reassembled by id. */
module Rpc {
  import opened Wrappers

  datatype RpcError =
    | HttpFailed
    | NotAnArray
    | WrongCount
    | UnusableId
    | NoResponse(id: int)
    | Reported(code: int)
    | NoResult
    | BadResult

  datatype Body<T> = Missing | Garbled | Value(value: T)

  /** One response: its id when usable, the error it reports if any, and its result. */
  datatype Envelope<T> = Envelope(id: Option<int>, error: Option<int>, result: Body<T>)

  datatype Reply<T> = Broken | Bare | Entries(entries: seq<Envelope<T>>)

  function ExtractResult<T>(e: Envelope<T>): Result<T, RpcError> {
    if e.error.Some? then Failure(Reported(e.error.value))
    else match e.result
      case Missing => Failure(NoResult)
      case Garbled => Failure(BadResult)
      case Value(v) => Success(v)
  }

  // ---- specification ----

  function ById<T>(entries: seq<Envelope<T>>): map<int, Envelope<T>>
    requires forall k :: 0 <= k < |entries| ==> entries[k].id.Some?
  {
    if entries == [] then map[]
    else
      var last := entries[|entries| - 1];
      ById(entries[..|entries| - 1])[last.id.value := last]
  }

  /** Results for ids `from..n`, or the first thing wrong with them. */
  function Collect<T>(byId: map<int, Envelope<T>>, from: nat, n: nat): Result<seq<T>, RpcError>
    requires from <= n
    decreases n - from
  {
    if from == n then Success([])
    else if from !in byId then Failure(NoResponse(from))
    else match ExtractResult(byId[from])
      case Failure(e) => Failure(e)
      case Success(v) =>
        match Collect(byId, from + 1, n)
        case Failure(e) => Failure(e)
        case Success(rest) => Success([v] + rest)
  }

  function BatchResult<T>(n: nat, reply: Reply<T>): Result<seq<T>, RpcError> {
    if n == 0 then Success([])
    else match reply
      case Broken => Failure(HttpFailed)
      case Bare => Failure(NotAnArray)
      case Entries(entries) =>
        if |entries| != n then Failure(WrongCount)
        else if exists k :: 0 <= k < n && entries[k].id.None? then Failure(UnusableId)
        else Collect(ById(entries), 0, n)
  }

  // ---- the call ----

  method CallBatch<T>(n: nat, reply: Reply<T>) returns (r: Result<seq<T>, RpcError>)
    ensures r == BatchResult(n, reply)
  {
    if n == 0 {
      return Success([]);
    }
    if reply.Broken? {
      return Failure(HttpFailed);
    }
    if reply.Bare? {
      return Failure(NotAnArray);
    }
    var entries := reply.entries;
    if |entries| != n {
      return Failure(WrongCount);
    }
    var indexed := IndexById(entries);
    if indexed.Failure? {
      return Failure(indexed.error);
    }
    r := Drain(indexed.value, n);
  }

  /** Index the responses by id; a missing or unusable id fails the batch. */
  method IndexById<T>(entries: seq<Envelope<T>>) returns (r: Result<map<int, Envelope<T>>, RpcError>)
    ensures r == if exists k :: 0 <= k < |entries| && entries[k].id.None? then Failure(UnusableId) else Success(ById(entries))
  {
    var byId: map<int, Envelope<T>> := map[];
    var k := 0;
    while k < |entries|
      invariant 0 <= k <= |entries|
      invariant forall j :: 0 <= j < k ==> entries[j].id.Some?
      invariant byId == ById(entries[..k])
    {
      if entries[k].id.None? {
        return Failure(UnusableId);
      }
      assert entries[..k + 1][..k] == entries[..k];
      byId := byId[entries[k].id.value := entries[k]];
      k := k + 1;
    }
    assert entries[..k] == entries;
    return Success(byId);
  }

  /** Take the responses to requests `0..n` out of the index, in order. */
  method Drain<T>(indexed: map<int, Envelope<T>>, n: nat) returns (r: Result<seq<T>, RpcError>)
    ensures r == Collect(indexed, 0, n)
  {
    var byId := indexed;
    var out: seq<T> := [];
    var i := 0;
    ghost var all := byId;
    ghost var whole := Collect(all, 0, n);
    assert whole.Success? ==> out + whole.value == whole.value;
    while i < n
      invariant 0 <= i <= n
      invariant forall j :: i <= j ==> (j in byId <==> j in all) && (j in byId ==> byId[j] == all[j])
      invariant Collect(all, 0, n)
             == match Collect(all, i, n) case Failure(e) => Failure(e) case Success(rest) => Success(out + rest)
    {
      if i !in byId {
        return Failure(NoResponse(i));
      }
      var entry := byId[i];
      byId := byId - {i};
      var v := ExtractResult(entry);
      if v.Failure? {
        return Failure(v.error);
      }
      var next := Collect(all, i + 1, n);
      assert next.Success? ==> out + ([v.value] + next.value) == (out + [v.value]) + next.value;
      out := out + [v.value];
      i := i + 1;
    }
    assert out + [] == out;
    r := Success(out);
  }

  // ---- every success is an order-correct permutation ----

  predicate HasId<T>(entries: seq<Envelope<T>>, i: int) {
    exists k :: 0 <= k < |entries| && entries[k].id == Some(i)
  }

  predicate Covers<T>(entries: seq<Envelope<T>>, n: nat) {
    forall i :: 0 <= i < n ==> HasId(entries, i)
  }

  function Ids<T>(entries: seq<Envelope<T>>): set<Option<int>> {
    set k | 0 <= k < |entries| :: entries[k].id
  }

  function Upto(n: nat): (s: set<Option<int>>)
    ensures |s| == n
    ensures forall x :: x in s <==> x.Some? && 0 <= x.value < n
  {
    if n == 0 then {} else Upto(n - 1) + {Some(n - 1)}
  }

  lemma {:induction false} FewIds<T>(entries: seq<Envelope<T>>)
    ensures |Ids(entries)| <= |entries|
  {
    if entries != [] {
      var n := |entries| - 1;
      FewIds(entries[..n]);
      assert Ids(entries) == Ids(entries[..n]) + {entries[n].id};
    }
  }

  /** `n` responses that cover the ids `0..n` carry each of them exactly once and no other id. */
  lemma Pigeonhole<T>(entries: seq<Envelope<T>>)
    requires Covers(entries, |entries|)
    ensures forall k :: 0 <= k < |entries| ==> entries[k].id.Some? && 0 <= entries[k].id.value < |entries|
    ensures forall a, b :: 0 <= a < b < |entries| ==> entries[a].id != entries[b].id
  {
    CoveredIds(entries, |entries|);
    FewIds(entries);
    hide Covers, Ids, Upto;
    SubsetOfSameSize(Upto(|entries|), Ids(entries));
    forall k | 0 <= k < |entries| ensures entries[k].id in Upto(|entries|) {
      IdIsAmongIds(entries, k);
    }
    forall a, b | 0 <= a < b < |entries| ensures entries[a].id != entries[b].id {
      if entries[a].id == entries[b].id {
        RepeatedId(entries, a, b);
      }
    }
  }

  lemma IdIsAmongIds<T>(entries: seq<Envelope<T>>, k: nat)
    requires k < |entries|
    ensures entries[k].id in Ids(entries)
  {
  }

  lemma CoveredIds<T>(entries: seq<Envelope<T>>, n: nat)
    requires Covers(entries, n)
    ensures Upto(n) <= Ids(entries)
  {
    forall x | x in Upto(n) ensures x in Ids(entries) {
      assert HasId(entries, x.value);
      var k :| 0 <= k < |entries| && entries[k].id == Some(x.value);
    }
  }

  /** A repeated id leaves fewer different ids than responses. */
  lemma RepeatedId<T>(entries: seq<Envelope<T>>, a: nat, b: nat)
    requires a < b < |entries| && entries[a].id == entries[b].id
    ensures |Ids(entries)| < |entries|
  {
    var fewer := entries[..b] + entries[b + 1..];
    forall x | x in Ids(entries) ensures x in Ids(fewer) {
      var k :| 0 <= k < |entries| && entries[k].id == x;
      var j := if k < b then k else if k == b then a else k - 1;
      assert fewer[j].id == x;
    }
    FewIds(fewer);
    SubsetIsSmaller(Ids(entries), Ids(fewer));
  }

  lemma SubsetIsSmaller<T>(a: set<T>, b: set<T>)
    requires a <= b
    ensures |a| <= |b|
  {
    if a != {} {
      var x :| x in a;
      SubsetIsSmaller(a - {x}, b - {x});
    }
  }

  lemma SubsetOfSameSize<T>(a: set<T>, b: set<T>)
    requires a <= b && |b| <= |a|
    ensures a == b
  {
    assert |b - a| == |b| - |a| by {
      assert b == a + (b - a);
    }
  }

  lemma {:induction false} ByIdHolds<T>(entries: seq<Envelope<T>>, i: int)
    requires forall k :: 0 <= k < |entries| ==> entries[k].id.Some?
    ensures i in ById(entries) <==> HasId(entries, i)
    ensures i in ById(entries) ==> exists k :: 0 <= k < |entries| && entries[k].id == Some(i) && ById(entries)[i] == entries[k]
  {
    if entries != [] {
      var n := |entries| - 1;
      var init := entries[..n];
      assert forall k :: 0 <= k < n ==> init[k] == entries[k];
      ByIdHolds(init, i);
      assert entries[n].id.Some?;
      if entries[n].id == Some(i) {
        assert ById(entries)[i] == entries[n];
      } else if i in ById(init) {
        var k :| 0 <= k < n && init[k].id == Some(i) && ById(init)[i] == init[k];
        assert entries[k].id == Some(i) && ById(entries)[i] == entries[k];
      }
    }
  }

  lemma {:induction false} CollectHolds<T>(byId: map<int, Envelope<T>>, from: nat, n: nat)
    requires from <= n
    ensures var r := Collect(byId, from, n);
            && (r.Success? <==> forall i :: from <= i < n ==> i in byId && ExtractResult(byId[i]).Success?)
            && (r.Success? ==> |r.value| == n - from)
            && (r.Success? ==> forall i :: from <= i < n ==> Success(r.value[i - from]) == ExtractResult(byId[i]))
    decreases n - from
  {
    if from < n {
      CollectHolds(byId, from + 1, n);
    }
  }

  /** The result at the response's id is the response's result. */
  predicate AnswersItsRequest<T(==)>(results: seq<T>, e: Envelope<T>) {
    e.id.Some? && 0 <= e.id.value < |results| && e.error.None? && e.result == Value(results[e.id.value])
  }

  /** A batch succeeds exactly when there are as many responses as requests, every request's id is
      answered, and every response carries a result. Then no id is answered twice or out of range,
      and result `i` is the result in the response to request `i`. */
  lemma BatchIsOrderCorrect<T>(n: nat, entries: seq<Envelope<T>>)
    requires n > 0
    ensures var r := BatchResult(n, Entries(entries));
            && (r.Success? <==> (|entries| == n && Covers(entries, n)
                                 && forall k :: 0 <= k < n ==> entries[k].error.None? && entries[k].result.Value?))
            && (r.Success? ==> |r.value| == n)
            && (r.Success? ==> forall a, b :: 0 <= a < b < n ==> entries[a].id != entries[b].id)
            && (r.Success? ==> forall k :: 0 <= k < n ==> AnswersItsRequest(r.value, entries[k]))
  {
    hide ById, Collect, Covers;
    if |entries| == n && forall k :: 0 <= k < n ==> entries[k].id.Some? {
      var byId := ById(entries);
      CollectHolds(byId, 0, n);
      CoversIsById(entries, byId);
      if Covers(entries, n) {
        Pigeonhole(entries);
        ByIdOfCovered(entries, byId);
      }
    } else if |entries| == n && Covers(entries, n) {
      Pigeonhole(entries);
    }
  }

  lemma CoversIsById<T>(entries: seq<Envelope<T>>, byId: map<int, Envelope<T>>)
    requires forall k :: 0 <= k < |entries| ==> entries[k].id.Some?
    requires byId == ById(entries)
    ensures Covers(entries, |entries|) <==> forall i :: 0 <= i < |entries| ==> i in byId
  {
    hide ById, HasId;
    forall i | 0 <= i < |entries| ensures i in byId <==> HasId(entries, i) {
      ByIdHolds(entries, i);
    }
  }

  /** When the ids are exactly `0..n`, looking up by id is a bijection with the responses. */
  lemma ByIdOfCovered<T>(entries: seq<Envelope<T>>, byId: map<int, Envelope<T>>)
    requires Covers(entries, |entries|)
    requires forall k :: 0 <= k < |entries| ==> entries[k].id.Some? && 0 <= entries[k].id.value < |entries|
    requires forall a, b :: 0 <= a < b < |entries| ==> entries[a].id != entries[b].id
    requires byId == ById(entries)
    ensures forall k :: 0 <= k < |entries| ==> entries[k].id.value in byId && byId[entries[k].id.value] == entries[k]
    ensures forall i :: 0 <= i < |entries| ==> i in byId && byId[i] in entries
  {
    hide ById;
    forall k | 0 <= k < |entries| ensures entries[k].id.value in byId && byId[entries[k].id.value] == entries[k] {
      var id := entries[k].id.value;
      ByIdHolds(entries, id);
      assert entries[k].id == Some(id);
      var j :| 0 <= j < |entries| && entries[j].id == Some(id) && byId[id] == entries[j];
      assert j == k;
    }
    forall i | 0 <= i < |entries| ensures i in byId && byId[i] in entries {
      ByIdHolds(entries, i);
      assert HasId(entries, i);
    }
  }

  /** What a response that carries no result reports. */
  predicate Reports<T>(e: Envelope<T>, error: RpcError) {
    if e.error.Some? then error == Reported(e.error.value)
    else (e.result.Missing? && error == NoResult) || (e.result.Garbled? && error == BadResult)
  }

  predicate Carries<T>(e: Envelope<T>) {
    e.error.None? && e.result.Value?
  }

  /** The first id whose response is missing or carries no result decides the error. */
  predicate FirstFault<T>(byId: map<int, Envelope<T>>, from: nat, n: nat, i: int, error: RpcError) {
    && from <= i < n && (forall j :: from <= j < i ==> j in byId && Carries(byId[j]))
    && if i in byId then Reports(byId[i], error) else error == NoResponse(i)
  }

  lemma {:induction false} CollectFaults<T>(byId: map<int, Envelope<T>>, from: nat, n: nat)
    requires from <= n
    ensures var r := Collect(byId, from, n); r.Failure? ==> exists i :: FirstFault(byId, from, n, i, r.error)
    decreases n - from
  {
    if from < n && from in byId && Carries(byId[from]) {
      CollectFaults(byId, from + 1, n);
      var r := Collect(byId, from + 1, n);
      if r.Failure? {
        var i :| FirstFault(byId, from + 1, n, i, r.error);
        assert FirstFault(byId, from, n, i, r.error);
      }
    } else if from < n {
      assert FirstFault(byId, from, n, from, Collect(byId, from, n).error);
    }
  }

  /** What a batch that fails reports. */
  lemma BatchFaults<T>(n: nat, reply: Reply<T>)
    requires n > 0
    ensures var r := BatchResult(n, reply);
            && (reply.Broken? ==> r == Failure(HttpFailed))
            && (reply.Bare? ==> r == Failure(NotAnArray))
            && (reply.Entries? && |reply.entries| != n ==> r == Failure(WrongCount))
    ensures reply.Entries? && |reply.entries| == n ==>
              var r, es := BatchResult(n, reply), reply.entries;
              if exists k :: 0 <= k < n && es[k].id.None? then r == Failure(UnusableId)
              else r.Failure? ==> exists i :: FirstFault(ById(es), 0, n, i, r.error)
  {
    hide ById, Collect, FirstFault;
    if reply.Entries? && |reply.entries| == n && forall k :: 0 <= k < n ==> reply.entries[k].id.Some? {
      CollectFaults(ById(reply.entries), 0, n);
    }
  }

  /** Nothing asked, nothing sent. */
  lemma EmptyBatch<T>(reply: Reply<T>)
    ensures BatchResult(0, reply) == Success([])
  {
  }
}
