/** Go-style duration strings. */
module Duration {
  import opened Wrappers
  import opened Text

  datatype Error = Empty | Negative | MissingUnit | MissingNumber | BadNumber | UnknownUnit | Overflow | NoComponents

  const NANOS_PER_MILLI: int := 1_000_000
  const NANOS_PER_SECOND: int := 1_000_000_000
  const U64_COUNT: int := 0x1_0000_0000_0000_0000
  const U128_COUNT: int := 0x1_0000_0000_0000_0000_0000_0000_0000_0000

  /** Whole nanoseconds of a numeral times a unit, as double precision arithmetic rounds it. */
  type Scaling = (string, nat) -> nat

  // ---- specification ----

  function UnitNanos(name: string): Option<nat> {
    if name == "ns" then Some(1)
    else if name == "us" || name == "\U{00B5}s" || name == "\U{03BC}s" then Some(1_000)
    else if name == "ms" then Some(NANOS_PER_MILLI)
    else if name == "s" then Some(NANOS_PER_SECOND)
    else if name == "m" then Some(60 * NANOS_PER_SECOND)
    else if name == "h" then Some(3_600 * NANOS_PER_SECOND)
    else None
  }

  predicate IsDigit(c: char) {
    '0' <= c <= '9'
  }

  /** Where the number at the front ends. */
  function NumberEnd(s: string): (k: nat)
    ensures k <= |s|
    ensures forall i :: 0 <= i < k ==> IsDigit(s[i]) || s[i] == '.'
    ensures k < |s| ==> !IsDigit(s[k]) && s[k] != '.'
  {
    if s == "" || !(IsDigit(s[0]) || s[0] == '.') then 0 else 1 + NumberEnd(s[1..])
  }

  /** Where the unit at the front ends: at the next digit. */
  function UnitEnd(s: string): (k: nat)
    ensures k <= |s|
    ensures forall i :: 0 <= i < k ==> !IsDigit(s[i])
    ensures k < |s| ==> IsDigit(s[k])
  {
    if s == "" || IsDigit(s[0]) then 0 else 1 + UnitEnd(s[1..])
  }

  /** Digits with at most one point among or beside them. */
  predicate IsNumeral(s: string) {
    (exists i :: 0 <= i < |s| && IsDigit(s[i])) && forall i, j :: 0 <= i < j < |s| ==> s[i] != '.' || s[j] != '.'
  }

  datatype Component = Component(number: string, scale: nat, rest: string)

  /** The number and unit at the front, and what follows them. */
  function Front(s: string): (r: Result<Component, Error>)
    ensures r.Success? ==> |r.value.rest| < |s|
  {
    var n := NumberEnd(s);
    if n == |s| then Failure(MissingUnit)
    else if n == 0 then Failure(MissingNumber)
    else if !IsNumeral(s[..n]) then Failure(BadNumber)
    else
      var u := UnitEnd(s[n..]);
      match UnitNanos(s[n..][..u])
      case None => Failure(UnknownUnit)
      case Some(scale) => Success(Component(s[..n], scale, s[n..][u..]))
  }

  /** `total` and the nanoseconds of all components of `s`. */
  function Components(scaled: Scaling, s: string, total: nat): Result<nat, Error>
    decreases |s|
  {
    if s == "" then Success(total)
    else
      match Front(s)
      case Failure(e) => Failure(e)
      case Success(c) =>
        var sum := total + scaled(c.number, c.scale);
        if sum >= U128_COUNT then Failure(Overflow) else Components(scaled, c.rest, sum)
  }

  /** Seconds are kept in 64 bits. */
  function Wrap(nanos: nat): nat {
    nanos / NANOS_PER_SECOND % U64_COUNT * NANOS_PER_SECOND + nanos % NANOS_PER_SECOND
  }

  function ParseSpec(scaled: Scaling, input: string): Result<nat, Error> {
    var s := Trim(input);
    if s == "" then Failure(Empty)
    else if s == "0" then Success(0)
    else if s[0] == '-' then Failure(Negative)
    else
      var rest := if s[0] == '+' then s[1..] else s;
      if rest == "" then Failure(NoComponents)
      else
        match Components(scaled, rest, 0)
        case Failure(e) => Failure(e)
        case Success(total) => Success(Wrap(total))
  }

  lemma ComponentsStep(scaled: Scaling, s: string, total: nat)
    requires s != ""
    ensures Components(scaled, s, total) == match Front(s)
              case Failure(e) => Failure(e)
              case Success(c) =>
                var sum := total + scaled(c.number, c.scale);
                if sum >= U128_COUNT then Failure(Overflow) else Components(scaled, c.rest, sum)
  {
    hide Front;
  }

  lemma NoMoreComponents(scaled: Scaling, total: nat)
    ensures Components(scaled, "", total) == Success(total)
  {
  }

  lemma WrapIs(nanos: nat)
    ensures Wrap(nanos) == nanos / NANOS_PER_SECOND % U64_COUNT * NANOS_PER_SECOND + nanos % NANOS_PER_SECOND
  {
  }

  /** Keeping the seconds in 64 bits counts nanoseconds modulo 2^64 seconds. */
  lemma WrapIsModulo(nanos: nat)
    ensures Wrap(nanos) < U64_COUNT * NANOS_PER_SECOND
    ensures exists k: nat :: nanos == Wrap(nanos) + k * 18_446_744_073_709_551_616_000_000_000
  {
    var secs := nanos / NANOS_PER_SECOND;
    var k: nat := secs / U64_COUNT;
    assert secs == U64_COUNT * k + secs % U64_COUNT;
    assert nanos == Wrap(nanos) + k * 18_446_744_073_709_551_616_000_000_000;
  }

  // ---- operations ----

  method Parse(scaled: Scaling, input: string) returns (r: Result<nat, Error>)
    ensures r == ParseSpec(scaled, input)
  {
    hide NumberEnd, UnitEnd, IsNumeral, UnitNanos, Trim, Components, Wrap;
    var s := Trim(input);
    if s == "" {
      return Failure(Empty);
    }
    if s == "0" {
      return Success(0);
    }
    if s[0] == '-' {
      return Failure(Negative);
    }
    var rest := if s[0] == '+' then s[1..] else s;
    ghost var all := rest;
    var totalNanos: nat := 0;
    var sawComponent := false;
    while rest != ""
      invariant Components(scaled, rest, totalNanos) == Components(scaled, all, 0)
      invariant sawComponent <==> rest != all
      invariant |rest| <= |all|
      decreases |rest|
    {
      ComponentsStep(scaled, rest, totalNanos);
      var numEnd := NumberEnd(rest);
      if numEnd == |rest| {
        return Failure(MissingUnit);
      }
      if numEnd == 0 {
        return Failure(MissingNumber);
      }
      var num, tail := rest[..numEnd], rest[numEnd..];
      if !IsNumeral(num) {
        return Failure(BadNumber);
      }
      var unitEnd := UnitEnd(tail);
      var scale := UnitNanos(tail[..unitEnd]);
      if scale.None? {
        return Failure(UnknownUnit);
      }
      var sum := totalNanos + scaled(num, scale.value);
      if sum >= U128_COUNT {
        return Failure(Overflow);
      }
      totalNanos, sawComponent, rest := sum, true, tail[unitEnd..];
    }
    if !sawComponent {
      return Failure(NoComponents);
    }
    NoMoreComponents(scaled, totalNanos);
    WrapIs(totalNanos);
    var secs := totalNanos / NANOS_PER_SECOND % U64_COUNT;
    var nanos := totalNanos % NANOS_PER_SECOND;
    return Success(secs * NANOS_PER_SECOND + nanos);
  }

  function Decimal(n: nat): string {
    if n < 10 then [('0' as int + n) as char] else Decimal(n / 10) + [('0' as int + n % 10) as char]
  }

  /** The number and unit a duration is printed with: the largest of h, m, s, ms, ns that divides it,
      and seconds for zero. */
  function Printed(total: nat): (nat, string) {
    if total == 0 then (0, "s")
    else if total % NANOS_PER_SECOND == 0 then PrintedSeconds(total / NANOS_PER_SECOND)
    else if total % NANOS_PER_MILLI == 0 then (total / NANOS_PER_MILLI, "ms")
    else (total, "ns")
  }

  function PrintedSeconds(secs: nat): (nat, string) {
    if secs % 3_600 == 0 then (secs / 3_600, "h")
    else if secs % 60 == 0 then (secs / 60, "m")
    else (secs, "s")
  }

  function Display(total: nat): string {
    var (number, name) := Printed(total);
    Decimal(number) + name
  }

  // ---- printing and parsing undo each other ----

  function DigitValue(c: char): nat
    requires IsDigit(c)
  {
    c as int - '0' as int
  }

  predicate AllDigits(s: string) {
    s != "" && forall i :: 0 <= i < |s| ==> IsDigit(s[i])
  }

  function Value(s: string): nat
    requires forall i :: 0 <= i < |s| ==> IsDigit(s[i])
  {
    if s == "" then 0 else 10 * Value(s[..|s| - 1]) + DigitValue(s[|s| - 1])
  }

  lemma {:induction false} DecimalValue(n: nat)
    ensures AllDigits(Decimal(n)) && Value(Decimal(n)) == n
  {
    if n >= 10 {
      DecimalValue(n / 10);
      assert Decimal(n)[..|Decimal(n)| - 1] == Decimal(n / 10);
    } else {
      assert Decimal(n)[..0] == "";
    }
  }

  /** A number and unit at the front are read back, whatever follows, if that is empty or starts with a digit. */
  lemma FrontOf(number: string, name: string, rest: string)
    requires AllDigits(number) && UnitNanos(name).Some?
    requires rest == "" || IsDigit(rest[0])
    ensures Front(number + name + rest) == Success(Component(number, UnitNanos(name).value, rest))
  {
    var s := number + name + rest;
    UnitsHaveNoDigits(name);
    NumberEndIs(s, |number|);
    assert s[|number|..] == name + rest && s[..|number|] == number;
    UnitEndIs(name + rest, |name|);
    assert IsDigit(number[0]);
    assert (name + rest)[..|name|] == name && (name + rest)[|name|..] == rest;
  }

  lemma UnitsHaveNoDigits(name: string)
    requires UnitNanos(name).Some?
    ensures name != "" && name[0] != '.' && name[|name| - 1] in "smh"
    ensures forall i :: 0 <= i < |name| ==> !IsDigit(name[i])
  {
  }

  lemma NumberEndIs(s: string, k: nat)
    requires k < |s| && (forall i :: 0 <= i < k ==> IsDigit(s[i]) || s[i] == '.') && !IsDigit(s[k]) && s[k] != '.'
    ensures NumberEnd(s) == k
  {
    var e := NumberEnd(s);
  }

  lemma UnitEndIs(s: string, k: nat)
    requires k <= |s| && (forall i :: 0 <= i < k ==> !IsDigit(s[i])) && (k < |s| ==> IsDigit(s[k]))
    ensures UnitEnd(s) == k
  {
    var e := UnitEnd(s);
  }

  lemma TrimKeeps(s: string)
    requires s != "" && !IsWhitespace(s[0]) && !IsWhitespace(s[|s| - 1])
    ensures Trim(s) == s
  {
  }

  /** Parsing what was printed gives the printed number times the printed unit. */
  lemma ParseOfDisplay(scaled: Scaling, d: nat)
    ensures var (number, name) := Printed(d);
            && UnitNanos(name).Some? && number * UnitNanos(name).value == d
            && var total := scaled(Decimal(number), UnitNanos(name).value);
               ParseSpec(scaled, Display(d)) == if total >= U128_COUNT then Failure(Overflow) else Success(Wrap(total))
  {
    hide Trim, Front, Decimal, Wrap, Components, UnitNanos, Printed;
    var (number, name) := Printed(d);
    PrintedIsWhole(d);
    DecimalValue(number);
    var s := Decimal(number) + name;
    assert s + "" == s;
    FrontOf(Decimal(number), name, "");
    UnitsHaveNoDigits(name);
    assert s[0] == Decimal(number)[0] && s[|s| - 1] == name[|name| - 1];
    TrimKeeps(s);
    ComponentsStep(scaled, s, 0);
    NoMoreComponents(scaled, scaled(Decimal(number), UnitNanos(name).value));
  }

  lemma PrintedIsWhole(d: nat)
    ensures var (number, name) := Printed(d); UnitNanos(name).Some? && number * UnitNanos(name).value == d
  {
  }

  /** Double precision is exact on whole numbers below 2^53. */
  ghost predicate ExactBelow53(scaled: Scaling) {
    forall number: string, scale: nat ::
      AllDigits(number) && Value(number) * scale < 0x20_0000_0000_0000 ==> scaled(number, scale) == Value(number) * scale
  }

  lemma ParseUndoesDisplay(scaled: Scaling, d: nat)
    requires ExactBelow53(scaled) && d < 0x20_0000_0000_0000
    ensures ParseSpec(scaled, Display(d)) == Success(d)
  {
    hide ParseSpec, Display, Decimal, UnitNanos;
    var (number, name) := Printed(d);
    ParseOfDisplay(scaled, d);
    DecimalValue(number);
    assert scaled(Decimal(number), UnitNanos(name).value) == d;
    WrapKeeps(d);
  }

  lemma WrapKeeps(d: nat)
    requires d < U64_COUNT * NANOS_PER_SECOND
    ensures Wrap(d) == d
  {
  }

  // ---- parsing adds ----

  /** What a string adds does not depend on the total it is added to. */
  lemma {:induction false} StartIsLinear(scaled: Scaling, s: string, t: nat, u: nat)
    requires Components(scaled, s, t).Success? && u < U128_COUNT
    ensures var added := Components(scaled, s, t).value - t;
            added >= 0 && Components(scaled, s, u) == if u + added >= U128_COUNT then Failure(Overflow) else Success(u + added)
    decreases |s|
  {
    hide Front, Components;
    if s == "" {
      NoMoreComponents(scaled, t);
      NoMoreComponents(scaled, u);
    } else {
      ComponentsStep(scaled, s, t);
      ComponentsStep(scaled, s, u);
      var c := Front(s).value;
      var more := scaled(c.number, c.scale);
      if u + more < U128_COUNT {
        StartIsLinear(scaled, c.rest, t + more, u + more);
      } else {
        StartIsLinear(scaled, c.rest, t + more, 0);
      }
    }
  }

  lemma FrontOfConcat(a: string, b: string)
    requires Front(a).Success? && b != "" && IsDigit(b[0])
    ensures Front(a + b) == Success(Front(a).value.(rest := Front(a).value.rest + b))
  {
    hide NumberEnd, UnitEnd, IsNumeral, UnitNanos;
    var n := NumberEnd(a);
    NumberEndIs(a + b, n);
    assert (a + b)[..n] == a[..n] && (a + b)[n..] == a[n..] + b;
    var tail := a[n..];
    var u := UnitEnd(tail);
    UnitEndIs(tail + b, u);
    assert (tail + b)[..u] == tail[..u] && (tail + b)[u..] == tail[u..] + b;
  }

  lemma {:induction false} ComponentsOfConcat(scaled: Scaling, a: string, b: string, total: nat)
    requires Components(scaled, a, total).Success? && b != "" && IsDigit(b[0])
    ensures Components(scaled, a + b, total) == Components(scaled, b, Components(scaled, a, total).value)
    decreases |a|
  {
    hide Front, Components;
    if a == "" {
      assert a + b == b;
      NoMoreComponents(scaled, total);
    } else {
      ComponentsStep(scaled, a, total);
      FrontOfConcat(a, b);
      ComponentsStep(scaled, a + b, total);
      var c := Front(a).value;
      ComponentsOfConcat(scaled, c.rest, b, total + scaled(c.number, c.scale));
    }
  }

  lemma {:induction false} ComponentsAreTrimmed(scaled: Scaling, s: string, total: nat)
    requires s != "" && Components(scaled, s, total).Success?
    ensures (IsDigit(s[0]) || s[0] == '.') && s[|s| - 1] in "smh"
    decreases |s|
  {
    hide Components, UnitNanos, IsNumeral;
    ComponentsStep(scaled, s, total);
    var c := Front(s).value;
    var n := NumberEnd(s);
    var tail := s[n..];
    UnitsHaveNoDigits(tail[..UnitEnd(tail)]);
    if c.rest != "" {
      ComponentsAreTrimmed(scaled, c.rest, total + scaled(c.number, c.scale));
      assert c.rest[|c.rest| - 1] == s[|s| - 1];
    } else {
      assert tail[..UnitEnd(tail)] == tail;
    }
  }

  /** A string of components parses to their sum. */
  lemma ParseOfComponents(scaled: Scaling, s: string)
    requires s != "" && (IsDigit(s[0]) || s[0] == '.') && s[|s| - 1] in "smh"
    ensures ParseSpec(scaled, s)
         == match Components(scaled, s, 0)
            case Failure(e) => Failure(e)
            case Success(total) => Success(Wrap(total))
  {
    hide Components, Trim, Wrap;
    TrimKeeps(s);
  }

  /** Concatenating two strings of components adds what they parse to. */
  lemma ParseAdds(scaled: Scaling, a: string, b: string)
    requires a != "" && Components(scaled, a, 0).Success?
    requires b != "" && Components(scaled, b, 0).Success? && IsDigit(b[0])
    ensures var x, y := Components(scaled, a, 0).value, Components(scaled, b, 0).value;
            && ParseSpec(scaled, a) == Success(Wrap(x)) && ParseSpec(scaled, b) == Success(Wrap(y))
            && ParseSpec(scaled, a + b) == (if x + y >= U128_COUNT then Failure(Overflow) else Success(Wrap(x + y)))
            && (x + y < U64_COUNT * NANOS_PER_SECOND ==> Wrap(x + y) == Wrap(x) + Wrap(y))
  {
    hide Components, Trim, Wrap, ParseSpec;
    var x, y := Components(scaled, a, 0).value, Components(scaled, b, 0).value;
    ComponentsAreTrimmed(scaled, a, 0);
    ComponentsAreTrimmed(scaled, b, 0);
    ParseOfComponents(scaled, a);
    ParseOfComponents(scaled, b);
    assert (a + b)[|a + b| - 1] == b[|b| - 1];
    ParseOfComponents(scaled, a + b);
    ComponentsOfConcat(scaled, a, b, 0);
    StartIsLinear(scaled, a, 0, 0);
    StartIsLinear(scaled, b, 0, x);
    if x + y < U64_COUNT * NANOS_PER_SECOND {
      WrapKeeps(x);
      WrapKeeps(y);
      WrapKeeps(x + y);
    }
  }

  // ---- what is accepted and what is refused ----

  /** The units, and how they relate. */
  lemma UnitsAre(name: string)
    ensures UnitNanos(name).Some? <==> name in {"ns", "us", "\U{00B5}s", "\U{03BC}s", "ms", "s", "m", "h"}
    ensures UnitNanos("ns") == Some(1)
    ensures forall micro :: micro in {"us", "\U{00B5}s", "\U{03BC}s"} ==> UnitNanos(micro) == Some(1_000)
    ensures UnitNanos("ms").value == 1_000 * UnitNanos("us").value
    ensures UnitNanos("s").value == 1_000 * UnitNanos("ms").value
    ensures UnitNanos("m").value == 60 * UnitNanos("s").value
    ensures UnitNanos("h").value == 60 * UnitNanos("m").value
  {
  }

  /** White space around the string is ignored. */
  lemma SpaceIsIgnored(scaled: Scaling, input: string, a: int, b: int)
    requires PaddedAround(input, a, b) && IsTrimmed(input[a..b])
    ensures ParseSpec(scaled, input) == ParseSpec(scaled, input[a..b])
  {
    var t := input[a..b];
    hide Trim, Components, PaddedAround, IsTrimmed;
    TrimIs(input, t);
    TrimIs(t, t);
    assert t[0..|t|] == t;
    assert PaddedAround(t, 0, |t|) by { NoPadding(t); }
  }

  lemma NoPadding(t: string)
    ensures PaddedAround(t, 0, |t|)
  {
  }

  /** A leading minus is refused, a leading plus makes no difference to a string of components. */
  lemma Signs(scaled: Scaling, s: string)
    requires IsTrimmed(s)
    ensures s[0] == '-' ==> ParseSpec(scaled, s) == Failure(Negative)
    ensures (IsDigit(s[0]) || s[0] == '.') && s != "0" ==> ParseSpec(scaled, "+" + s) == ParseSpec(scaled, s)
  {
    hide Trim, Components;
    TrimKeeps(s);
    TrimKeeps("+" + s);
    assert ("+" + s)[1..] == s;
  }

  predicate OnlyNumber(s: string) {
    forall k :: 0 <= k < |s| ==> IsDigit(s[k]) || s[k] == '.'
  }

  /** Strings that are not components: nothing, the bare zero, a lone plus, a number without a unit,
      and anything that does not start with a number. */
  lemma NotComponents(scaled: Scaling, s: string)
    ensures ParseSpec(scaled, "") == Failure(Empty) && ParseSpec(scaled, "0") == Success(0)
    ensures ParseSpec(scaled, "+") == Failure(NoComponents)
    ensures IsTrimmed(s) && s != "0" && OnlyNumber(s) ==> ParseSpec(scaled, s) == Failure(MissingUnit)
    ensures IsTrimmed(s) && !IsDigit(s[0]) && s[0] !in ".-+" ==> ParseSpec(scaled, s) == Failure(MissingNumber)
  {
    hide UnitEnd, IsNumeral, UnitNanos, Trim;
    TrimKeeps("0");
    TrimKeeps("+");
    TrimOfNothing();
    if IsTrimmed(s) {
      TrimKeeps(s);
      if s[0] != '-' && s[0] != '+' && s != "0" {
        ComponentsStep(scaled, s, 0);
        var e := NumberEnd(s);
      }
    }
  }

  lemma TrimOfNothing()
    ensures Trim("") == ""
  {
  }
}
