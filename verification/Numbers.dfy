/** Number types and functions that the source takes from its language. */
module Numbers {
  type Byte = x: int | 0 <= x < 0x100
  type Word = x: int | 0 <= x < 0x1_0000

  function Clamp(low: int, x: int, high: int): int {
    if x < low then low else if high < x then high else x
  }

  function ClampReal(low: real, x: real, high: real): real {
    if x < low then low else if high < x then high else x
  }

  /** Rounds half away from zero, like std::round. */
  function Round(x: real): (n: int)
    ensures x - 0.5 <= n as real <= x + 0.5
  {
    if x >= 0.0 then (x + 0.5).Floor else -(0.5 - x).Floor
  }
}
