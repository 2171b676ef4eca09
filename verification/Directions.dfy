/** Which way a swap went. */
module Directions {
  import opened Wrappers
  import opened Assets

  datatype Direction =
    | RuneToAsset | AssetToRune | RuneToSynth | SynthToRune
    | RuneToTrade | TradeToRune | RuneToSecure | SecureToRune

  /** Classify by the two assets; a pair without RUNE on exactly one side is not classified. */
  function Classify(from: string, to: string): Option<Direction> {
    match (CoinTypeOf(from), CoinTypeOf(to))
    case (Rune, Synth) => Some(RuneToSynth)
    case (Synth, Rune) => Some(SynthToRune)
    case (Rune, Trade) => Some(RuneToTrade)
    case (Trade, Rune) => Some(TradeToRune)
    case (Rune, Secure) => Some(RuneToSecure)
    case (Secure, Rune) => Some(SecureToRune)
    case (Rune, Native) => Some(RuneToAsset)
    case (Rune, Derived) => Some(RuneToAsset)
    case (Native, Rune) => Some(AssetToRune)
    case (Derived, Rune) => Some(AssetToRune)
    case _ => None
  }

  function AsI16(d: Direction): int {
    match d
    case RuneToAsset => 0
    case AssetToRune => 1
    case RuneToSynth => 2
    case SynthToRune => 3
    case RuneToTrade => 4
    case TradeToRune => 5
    case RuneToSecure => 6
    case SecureToRune => 7
  }

  predicate IsFromRune(d: Direction) {
    d.RuneToAsset? || d.RuneToSynth? || d.RuneToTrade? || d.RuneToSecure?
  }

  /** The direction a swap event is recorded with. */
  function RecordedDirection(from: string, to: string): int {
    var d := Classify(from, to);
    if d.Some? then AsI16(d.value) else AsI16(RuneToAsset)
  }

  /** A pair is classified exactly when RUNE is on one side and a known coin on the other; the
      reverse trade gets the other direction of the same pair, and out of RUNE is the even one. */
  lemma ClassifyMeans(from: string, to: string)
    ensures Classify(from, to).Some? <==>
              (IsRune(from) != IsRune(to) && !CoinTypeOf(from).Unknown? && !CoinTypeOf(to).Unknown?)
    ensures Classify(from, to).Some? ==>
              && Classify(to, from).Some?
              && AsI16(Classify(from, to).value) / 2 == AsI16(Classify(to, from).value) / 2
              && AsI16(Classify(from, to).value) != AsI16(Classify(to, from).value)
              && (IsFromRune(Classify(from, to).value) <==> IsRune(from))
              && (IsFromRune(Classify(from, to).value) <==> AsI16(Classify(from, to).value) % 2 == 0)
  {
    RuneIsRune(from);
    RuneIsRune(to);
    hide CoinTypeOf, IsRune;
  }

  lemma RuneIsRune(asset: string)
    ensures CoinTypeOf(asset).Rune? <==> IsRune(asset)
  {
  }
}
