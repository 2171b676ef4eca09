/** Blocks, their three event phases, and the ids the events get. */
module Blocks {
  import opened Wrappers
  import opened EventIds

  /** `None` stands for a key or value that is not valid text. */
  datatype Attribute = Attribute(key: Option<string>, value: Option<string>)

  datatype Event = Event(kind: string, attributes: seq<Attribute>)

  datatype TxResult = TxResult(failed: bool, events: seq<Event>)

  datatype Block = Block(height: int, timestamp: int, hash: string, finalizeEvents: seq<Event>,
                         txResults: Option<seq<TxResult>>)

  /** The first readable attribute with this key. */
  function Attr(attributes: seq<Attribute>, key: string): Option<string> {
    if attributes == [] then None
    else if attributes[0].key == Some(key) && attributes[0].value.Some? then attributes[0].value
    else Attr(attributes[1..], key)
  }

  predicate IsBegin(e: Event) {
    var mode := Attr(e.attributes, "mode");
    mode.None? || mode.value == "BeginBlock"
  }

  predicate IsEnd(e: Event) {
    Attr(e.attributes, "mode") == Some("EndBlock")
  }

  datatype Located = Located(id: EventId, event: Event)

  // The index of an event is its position in the original list, not in the filtered one.

  function BeginBlockEvents(b: Block, from: nat): seq<Located>
    decreases |b.finalizeEvents| - from
  {
    if from >= |b.finalizeEvents| then []
    else
      var e := b.finalizeEvents[from];
      (if IsBegin(e) then [Located(BeginBlockId(b.height).(eventIndex := from + 1), e)] else [])
      + BeginBlockEvents(b, from + 1)
  }

  function EndBlockEvents(b: Block, from: nat): seq<Located>
    decreases |b.finalizeEvents| - from
  {
    if from >= |b.finalizeEvents| then []
    else
      var e := b.finalizeEvents[from];
      (if IsEnd(e) then [Located(EndBlockId(b.height, from + 1), e)] else []) + EndBlockEvents(b, from + 1)
  }

  function EventsOfTx(height: int, txIndex: int, events: seq<Event>): seq<Located> {
    seq(|events|, j requires 0 <= j < |events| => Located(TxEventId(height, txIndex, j + 1), events[j]))
  }

  function Txs(b: Block): seq<TxResult> {
    b.txResults.GetOr([])
  }

  function SuccessfulTxEvents(b: Block, from: nat): seq<Located>
    decreases |Txs(b)| - from
  {
    if from >= |Txs(b)| then []
    else
      var tx := Txs(b)[from];
      (if tx.failed then [] else EventsOfTx(b.height, from + 1, tx.events)) + SuccessfulTxEvents(b, from + 1)
  }

  /** Everything `add` looks at, in the order it looks at it. */
  function BlockEvents(b: Block): seq<Located> {
    BeginBlockEvents(b, 0) + SuccessfulTxEvents(b, 0) + EndBlockEvents(b, 0)
  }

  // ---- order ----

  predicate Ascending(xs: seq<Located>) {
    forall i, j :: 0 <= i < j < |xs| ==> Before(xs[i].id, xs[j].id)
  }

  /** Begin-block events from index `from` on, and nothing else. */
  predicate BeginsAt(b: Block, from: nat, x: Located) {
    && x.id.height == b.height && x.id.location.BeginBlock? && x.id.txIndex == 0
    && from < x.id.eventIndex <= |b.finalizeEvents|
    && x.event == b.finalizeEvents[x.id.eventIndex - 1] && IsBegin(x.event)
  }

  predicate EndsAt(b: Block, from: nat, x: Located) {
    && x.id.height == b.height && x.id.location.EndBlock? && x.id.txIndex == 0
    && from < x.id.eventIndex <= |b.finalizeEvents|
    && x.event == b.finalizeEvents[x.id.eventIndex - 1] && IsEnd(x.event)
  }

  predicate InTxAt(b: Block, from: nat, x: Located) {
    && x.id.height == b.height && x.id.location.TxsResults?
    && from < x.id.txIndex <= |Txs(b)|
    && var tx := Txs(b)[x.id.txIndex - 1];
       && !tx.failed && 1 <= x.id.eventIndex <= |tx.events| && x.event == tx.events[x.id.eventIndex - 1]
  }

  lemma AscendingConcat(xs: seq<Located>, ys: seq<Located>)
    requires Ascending(xs) && Ascending(ys)
    requires forall i, j :: 0 <= i < |xs| && 0 <= j < |ys| ==> Before(xs[i].id, ys[j].id)
    ensures Ascending(xs + ys)
  {
    hide Before;
  }

  lemma {:induction false} BeginsExactly(b: Block, from: nat)
    ensures forall x :: x in BeginBlockEvents(b, from) <==> BeginsAt(b, from, x)
    ensures Ascending(BeginBlockEvents(b, from))
    decreases |b.finalizeEvents| - from
  {
    if from < |b.finalizeEvents| {
      BeginsExactly(b, from + 1);
      var e := b.finalizeEvents[from];
      var head := if IsBegin(e) then [Located(BeginBlockId(b.height).(eventIndex := from + 1), e)] else [];
      var rest := BeginBlockEvents(b, from + 1);
      forall j | 0 <= j < |rest| ensures BeginsAt(b, from + 1, rest[j]) {
        assert rest[j] in rest;
      }
      AscendingConcat(head, rest);
    }
  }

  lemma {:induction false} EndsExactly(b: Block, from: nat)
    ensures forall x :: x in EndBlockEvents(b, from) <==> EndsAt(b, from, x)
    ensures Ascending(EndBlockEvents(b, from))
    decreases |b.finalizeEvents| - from
  {
    if from < |b.finalizeEvents| {
      EndsExactly(b, from + 1);
      var e := b.finalizeEvents[from];
      var head := if IsEnd(e) then [Located(EndBlockId(b.height, from + 1), e)] else [];
      var rest := EndBlockEvents(b, from + 1);
      forall j | 0 <= j < |rest| ensures EndsAt(b, from + 1, rest[j]) {
        assert rest[j] in rest;
      }
      AscendingConcat(head, rest);
    }
  }

  predicate InThisTx(b: Block, from: nat, x: Located) {
    InTxAt(b, from, x) && x.id.txIndex == from + 1
  }

  lemma OneTxExactly(b: Block, from: nat)
    requires from < |Txs(b)|
    ensures var tx := Txs(b)[from];
            var head := if tx.failed then [] else EventsOfTx(b.height, from + 1, tx.events);
            (forall x :: x in head <==> InThisTx(b, from, x)) && Ascending(head)
  {
    var tx := Txs(b)[from];
    if !tx.failed {
      var head := EventsOfTx(b.height, from + 1, tx.events);
      forall x | InThisTx(b, from, x) ensures x in head {
        assert head[x.id.eventIndex - 1] == x;
      }
    }
  }

  lemma {:induction false} TxsExactly(b: Block, from: nat)
    ensures forall x :: x in SuccessfulTxEvents(b, from) <==> InTxAt(b, from, x)
    ensures Ascending(SuccessfulTxEvents(b, from))
    decreases |Txs(b)| - from
  {
    if from < |Txs(b)| {
      TxsExactly(b, from + 1);
      var tx := Txs(b)[from];
      var head := if tx.failed then [] else EventsOfTx(b.height, from + 1, tx.events);
      var rest := SuccessfulTxEvents(b, from + 1);
      forall j | 0 <= j < |rest| ensures InTxAt(b, from + 1, rest[j]) {
        assert rest[j] in rest;
      }
      OneTxExactly(b, from);
      assert forall x :: InTxAt(b, from, x) <==> InThisTx(b, from, x) || InTxAt(b, from + 1, x);
      AscendingConcat(head, rest);
    }
  }

  lemma PhasesExactly(b: Block)
    ensures forall x :: x in BlockEvents(b) <==> BeginsAt(b, 0, x) || InTxAt(b, 0, x) || EndsAt(b, 0, x)
    ensures Ascending(BlockEvents(b))
  {
    BeginsExactly(b, 0);
    TxsExactly(b, 0);
    EndsExactly(b, 0);
    hide BeginBlockEvents, SuccessfulTxEvents, EndBlockEvents;
    var begins, txs, ends := BeginBlockEvents(b, 0), SuccessfulTxEvents(b, 0), EndBlockEvents(b, 0);
    assert forall i :: 0 <= i < |begins| ==> begins[i] in begins;
    assert forall i :: 0 <= i < |txs| ==> txs[i] in txs;
    assert forall i :: 0 <= i < |ends| ==> ends[i] in ends;
    AscendingConcat(begins, txs);
    AscendingConcat(begins + txs, ends);
  }

  // ---- the mode of an event ----

  /** Attribute `k` is a "mode" with a value that can be read. */
  predicate IsMode(attributes: seq<Attribute>, k: int) {
    0 <= k < |attributes| && attributes[k].key == Some("mode") && attributes[k].value.Some?
  }

  /** The first such attribute has this value. */
  predicate FirstMode(attributes: seq<Attribute>, value: string) {
    exists k :: 0 <= k < |attributes| && IsMode(attributes, k) && attributes[k].value == Some(value)
                && forall j :: 0 <= j < k ==> !IsMode(attributes, j)
  }

  predicate NoMode(attributes: seq<Attribute>) {
    forall k :: 0 <= k < |attributes| ==> !IsMode(attributes, k)
  }

  lemma {:induction false} AttrFindsMode(attributes: seq<Attribute>, value: string)
    ensures Attr(attributes, "mode") == None <==> NoMode(attributes)
    ensures Attr(attributes, "mode") == Some(value) <==> FirstMode(attributes, value)
  {
    if attributes != [] {
      var rest := attributes[1..];
      AttrFindsMode(rest, value);
      assert forall k :: 0 <= k < |rest| ==> (IsMode(rest, k) <==> IsMode(attributes, k + 1));
      assert forall k :: 0 < k < |attributes| ==> (IsMode(attributes, k) <==> IsMode(rest, k - 1));
      if IsMode(attributes, 0) {
        assert forall v :: FirstMode(attributes, v) <==> attributes[0].value == Some(v);
      } else {
        ModeOfRest(attributes, value);
      }
    }
  }

  lemma ModeOfRest(attributes: seq<Attribute>, value: string)
    requires attributes != [] && !IsMode(attributes, 0)
    ensures FirstMode(attributes, value) <==> FirstMode(attributes[1..], value)
  {
    var rest := attributes[1..];
    if FirstMode(attributes, value) {
      var k :| 0 <= k < |attributes| && IsMode(attributes, k) && attributes[k].value == Some(value)
               && forall j :: 0 <= j < k ==> !IsMode(attributes, j);
      assert IsMode(rest, k - 1);
      forall j | 0 <= j < k - 1 ensures !IsMode(rest, j) {
        assert !IsMode(attributes, j + 1);
      }
    }
    if FirstMode(rest, value) {
      var k :| 0 <= k < |rest| && IsMode(rest, k) && rest[k].value == Some(value)
               && forall j :: 0 <= j < k ==> !IsMode(rest, j);
      assert IsMode(attributes, k + 1);
      forall j | 0 <= j < k + 1 ensures !IsMode(attributes, j) {
        assert j > 0 ==> !IsMode(rest, j - 1);
      }
    }
  }

  /** The places `add` looks at: a block event at its position, under its begin-block or its end-block
      id by its mode, and the events of the transactions that did not fail. */
  predicate Visited(b: Block, x: Located) {
    && x.id.height == b.height
    && match x.id.location
       case BeginBlock =>
         && x.id.txIndex == 0 && 1 <= x.id.eventIndex <= |b.finalizeEvents|
         && x.event == b.finalizeEvents[x.id.eventIndex - 1]
         && (NoMode(x.event.attributes) || FirstMode(x.event.attributes, "BeginBlock"))
       case EndBlock =>
         && x.id.txIndex == 0 && 1 <= x.id.eventIndex <= |b.finalizeEvents|
         && x.event == b.finalizeEvents[x.id.eventIndex - 1]
         && FirstMode(x.event.attributes, "EndBlock")
       case TxsResults =>
         && b.txResults.Some? && 1 <= x.id.txIndex <= |b.txResults.value|
         && var tx := b.txResults.value[x.id.txIndex - 1];
            !tx.failed && 1 <= x.id.eventIndex <= |tx.events| && x.event == tx.events[x.id.eventIndex - 1]
  }

  /** Exactly those places are visited, in strict chain order, so none twice. */
  lemma BlockEventsExact(b: Block)
    ensures forall x :: x in BlockEvents(b) <==> Visited(b, x)
    ensures Ascending(BlockEvents(b))
  {
    PhasesExactly(b);
    hide BlockEvents, Attr, FirstMode, NoMode;
    forall x ensures x in BlockEvents(b) <==> Visited(b, x) {
      AttrFindsMode(x.event.attributes, "BeginBlock");
      AttrFindsMode(x.event.attributes, "EndBlock");
    }
  }

  /** The event at position `k` of a block: when it is visited, and under which ids. */
  lemma VisitsByMode(b: Block, k: nat)
    requires k < |b.finalizeEvents|
    ensures var e := b.finalizeEvents[k];
            && (Located(EventId(b.height, EndBlock, 0, k + 1), e) in BlockEvents(b) <==> FirstMode(e.attributes, "EndBlock"))
            && (Located(EventId(b.height, BeginBlock, 0, k + 1), e) in BlockEvents(b)
                <==> NoMode(e.attributes) || FirstMode(e.attributes, "BeginBlock"))
    ensures forall x :: x in BlockEvents(b) && !x.id.location.TxsResults? && x.id.eventIndex == k + 1
              ==> x.event == b.finalizeEvents[k]
                  && (FirstMode(x.event.attributes, "EndBlock") || FirstMode(x.event.attributes, "BeginBlock")
                      || NoMode(x.event.attributes))
  {
    hide BlockEvents, FirstMode, NoMode;
    BlockEventsExact(b);
  }

  /** A block within the budget of the id encoding. */
  predicate BlockInBudget(b: Block) {
    && 0 <= b.height <= 922_337_202 && |b.finalizeEvents| < TYPE_DIGIT && |Txs(b)| <= 799_999
    && forall i :: 0 <= i < |Txs(b)| ==> |Txs(b)[i].events| <= 9_999
  }

  lemma IdsInBudget(b: Block)
    requires BlockInBudget(b)
    ensures forall x :: x in BlockEvents(b) ==> InBudget(x.id) && x.id.height == b.height
  {
    BlockEventsExact(b);
    hide BlockEvents;
  }

  /** Everything a run of blocks visits. */
  function RunEvents(blocks: seq<Block>): seq<Located> {
    if blocks == [] then [] else RunEvents(blocks[..|blocks| - 1]) + BlockEvents(blocks[|blocks| - 1])
  }

  lemma {:induction false} RunEventsAscend(blocks: seq<Block>)
    requires forall i, j :: 0 <= i < j < |blocks| ==> blocks[i].height < blocks[j].height
    requires forall i :: 0 <= i < |blocks| ==> BlockInBudget(blocks[i])
    ensures Ascending(RunEvents(blocks))
    ensures forall x :: x in RunEvents(blocks) ==> InBudget(x.id) && exists i :: 0 <= i < |blocks| && x.id.height == blocks[i].height
  {
    hide BlockEvents, BlockInBudget, Before, InBudget;
    if blocks != [] {
      var n := |blocks| - 1;
      RunEventsAscend(blocks[..n]);
      BlockEventsExact(blocks[n]);
      IdsInBudget(blocks[n]);
      var xs, ys := RunEvents(blocks[..n]), BlockEvents(blocks[n]);
      forall i, j | 0 <= i < |xs| && 0 <= j < |ys| ensures Before(xs[i].id, ys[j].id) {
        assert xs[i] in xs && ys[j] in ys;
        HeightFirst(xs[i].id, ys[j].id);
      }
      AscendingConcat(xs, ys);
    }
  }

  lemma HeightFirst(a: EventId, b: EventId)
    requires a.height < b.height
    ensures Before(a, b)
  {
  }

  /** Over a whole run of blocks the encoded ids strictly increase from event to event. */
  lemma RunIdsIncrease(blocks: seq<Block>, i: nat, j: nat)
    requires forall i, j :: 0 <= i < j < |blocks| ==> blocks[i].height < blocks[j].height
    requires forall i :: 0 <= i < |blocks| ==> BlockInBudget(blocks[i])
    requires i < j < |RunEvents(blocks)|
    ensures ToI64(RunEvents(blocks)[i].id) < ToI64(RunEvents(blocks)[j].id) <= I64_MAX
  {
    RunEventsAscend(blocks);
    hide Before, InBudget, ToI64, RunEvents;
    var xs := RunEvents(blocks);
    assert xs[i] in xs && xs[j] in xs;
    OrderIsChainOrder(xs[i].id, xs[j].id);
    FitsInI64(xs[j].id);
  }
}
