/** Event identifiers: one integer per event, in chain order. */
module EventIds {
  import opened Time

  datatype Location = BeginBlock | TxsResults | EndBlock

  datatype EventId = EventId(height: int, location: Location, txIndex: int, eventIndex: int)

  const HEIGHT_SCALE: int := 10_000_000_000
  const TYPE_DIGIT: int := 1_000_000_000
  const TX_INDEX_SCALE: int := 10_000
  const END_BLOCK_PSEUDO_TX: int := 999_999
  const I64_MAX: int := 0x7FFF_FFFF_FFFF_FFFF

  function BeginBlockId(height: int): EventId {
    EventId(height, BeginBlock, 0, 1)
  }

  function TxEventId(height: int, txIndex: int, eventIndex: int): EventId {
    EventId(height, TxsResults, txIndex, eventIndex)
  }

  function EndBlockId(height: int, eventIndex: int): EventId {
    EventId(height, EndBlock, 0, eventIndex)
  }

  function ToI64(id: EventId): int {
    match id.location
    case BeginBlock => id.height * HEIGHT_SCALE + id.eventIndex
    case TxsResults => id.height * HEIGHT_SCALE + TYPE_DIGIT + id.txIndex * TX_INDEX_SCALE + id.eventIndex
    case EndBlock => id.height * HEIGHT_SCALE + 9 * TYPE_DIGIT + id.eventIndex
  }

  function Parse(encoded: int): EventId {
    var height := TruncDiv(encoded, HEIGHT_SCALE);
    var rest := TruncMod(encoded, HEIGHT_SCALE);
    if rest < TYPE_DIGIT then EventId(height, BeginBlock, 0, rest)
    else if rest < 9 * TYPE_DIGIT then
      EventId(height, TxsResults, TruncDiv(rest - TYPE_DIGIT, TX_INDEX_SCALE), TruncMod(rest, TX_INDEX_SCALE))
    else EventId(height, EndBlock, END_BLOCK_PSEUDO_TX, TruncMod(rest, TYPE_DIGIT))
  }

  function HeightOf(encoded: int): int {
    TruncDiv(encoded, HEIGHT_SCALE)
  }

  function FirstIdAtHeight(height: int): int {
    height * HEIGHT_SCALE
  }

  function FirstIdAfterHeight(height: int): int {
    (height + 1) * HEIGHT_SCALE
  }

  /** The documented budget of the encoding. */
  predicate InBudget(id: EventId) {
    && 0 <= id.height <= 922_337_202
    && match id.location
       case BeginBlock => id.txIndex == 0 && 0 <= id.eventIndex < TYPE_DIGIT
       case TxsResults => 0 <= id.txIndex <= 799_999 && 0 <= id.eventIndex <= 9_999
       case EndBlock => id.txIndex == 0 && 0 <= id.eventIndex < TYPE_DIGIT
  }

  function Phase(l: Location): int {
    match l
    case BeginBlock => 0
    case TxsResults => 1
    case EndBlock => 2
  }

  /** Chain order: height, then phase, then transaction, then event. */
  predicate Before(a: EventId, b: EventId) {
    || a.height < b.height
    || (a.height == b.height && Phase(a.location) < Phase(b.location))
    || (a.height == b.height && a.location == b.location && a.txIndex < b.txIndex)
    || (a.height == b.height && a.location == b.location && a.txIndex == b.txIndex && a.eventIndex < b.eventIndex)
  }

  /** Where an id falls inside its block. */
  function Offset(id: EventId): int {
    ToI64(id) - id.height * HEIGHT_SCALE
  }

  lemma OffsetInBlock(id: EventId)
    requires InBudget(id)
    ensures 0 <= Offset(id) < HEIGHT_SCALE
    ensures Phase(id.location) == 0 <==> Offset(id) < TYPE_DIGIT
    ensures Phase(id.location) == 2 <==> Offset(id) >= 9 * TYPE_DIGIT
  {
  }

  /** Within the budget an id is a positive 64-bit integer inside its block's range. */
  lemma FitsInI64(id: EventId)
    requires InBudget(id)
    ensures 0 <= ToI64(id) <= I64_MAX
    ensures FirstIdAtHeight(id.height) <= ToI64(id) < FirstIdAfterHeight(id.height)
    ensures HeightOf(ToI64(id)) == id.height
  {
    OffsetInBlock(id);
    hide ToI64;
  }

  /** Comparing encoded ids is comparing positions in the chain. */
  lemma OrderIsChainOrder(a: EventId, b: EventId)
    requires InBudget(a) && InBudget(b)
    ensures ToI64(a) < ToI64(b) <==> Before(a, b)
  {
    OffsetInBlock(a);
    OffsetInBlock(b);
    if a.height != b.height || a.location != b.location {
      hide ToI64;
    }
  }

  /** `Parse` undoes the encoding, except that an end-block event reports the pseudo transaction. */
  lemma ParseInverts(id: EventId)
    requires InBudget(id)
    ensures Parse(ToI64(id)) == if id.location.EndBlock? then id.(txIndex := END_BLOCK_PSEUDO_TX) else id
  {
    OffsetInBlock(id);
    FitsInI64(id);
  }
}
