module Wrappers {

  datatype Option<+T> = None | Some(value: T) {
    function GetOr(default: T): T {
      if Some? then value else default
    }
  }

  datatype Result<+T, +E> = Success(value: T) | Failure(error: E)
}

/** Block time. Seconds to nanoseconds is exact; nanoseconds to seconds truncates toward zero. */
module Time {

  const NANOS_PER_SECOND: int := 1_000_000_000

  function TruncDiv(n: int, d: int): int
    requires d > 0
  {
    if n >= 0 then n / d else -((-n) / d)
  }

  function TruncMod(n: int, d: int): int
    requires d > 0
  {
    n - TruncDiv(n, d) * d
  }

  function ToSecond(nano: int): int {
    TruncDiv(nano, NANOS_PER_SECOND)
  }

  function ToNano(second: int): int {
    second * NANOS_PER_SECOND
  }
}
