/** Timed input events, as every search component stores them. */
module Inputs {

  datatype Event = Event(timeMs: int, action: nat, valueKind: nat, value: int)

  /** Event times are 32 bits wide; window times are 64 bits wide. */
  predicate IsTime32(timeMs: int) {
    -0x8000_0000 <= timeMs < 0x8000_0000
  }

  /** The cast of a 64-bit time to 32 bits. */
  function ToTime32(timeMs: int): (t: int)
    ensures IsTime32(t)
    ensures IsTime32(timeMs) ==> t == timeMs
  {
    (timeMs + 0x8000_0000) % 0x1_0000_0000 - 0x8000_0000
  }

  const INT64_MIN: int := -0x8000_0000_0000_0000
}
