/** The bot's fixed numbers and the Math.Max / Math.Min it uses. */
module BotConstants {
  /** The score bound the search starts from and the hash move's ordering score. */
  const Infinity := 99999999

  /** Search depth of every Think call (`byte botDepth = 6`). */
  const BotDepth := 6

  /** A side checkmated at ply count n scores n * 100 - MateBase. */
  const MateBase := 9999999

  function Max(a: int, b: int): (m: int)
    ensures m >= a && m >= b && (m == a || m == b)
  {
    if a >= b then a else b
  }

  function Min(a: int, b: int): (m: int)
    ensures m <= a && m <= b && (m == a || m == b)
  {
    if a <= b then a else b
  }
}
