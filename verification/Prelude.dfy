// Small vocabulary shared by the other modules.
module Prelude {
  datatype Option<+T> = None | Some(value: T)

  newtype byte = x: int | 0 <= x < 0x100

  // The source's instants: nanoseconds on one clock.  Never is the zero time.
  datatype Expiry = Never | At(t: int)

  // Up to and including the instant of expiry.
  predicate Live(e: Expiry, now: int) {
    e.Never? || now <= e.t
  }

  const SECOND: int := 1_000_000_000

  const MIN_INT64: int := -0x8000_0000_0000_0000
  const MAX_INT64: int := 0x7FFF_FFFF_FFFF_FFFF

  // The int64 that two's-complement arithmetic leaves for the exact result x.
  function Wrap64(x: int): (r: int)
    ensures MIN_INT64 <= r <= MAX_INT64
    ensures (r - x) % 0x1_0000_0000_0000_0000 == 0
    ensures MIN_INT64 <= x <= MAX_INT64 ==> r == x
  {
    (x - MIN_INT64) % 0x1_0000_0000_0000_0000 + MIN_INT64
  }
}
