/** The integer width of the target and the effects the core asks of the board's peripherals. */
module Board {

  /** Number of values of the target's 32-bit `unsigned int`. */
  const U32_LIMIT: int := 0x1_0000_0000

  /** The target's `unsigned int`; arithmetic on it wraps modulo U32_LIMIT. */
  type U32 = x: int | 0 <= x < 0x1_0000_0000

  datatype Option<T> = None | Some(value: T)

  /** The three indicator LEDs of the booster board. */
  datatype Led = RedLed | GreenLed | BlueLed

  /**
   * One call into a peripheral: an LED switched, a character drawn at a row and column,
   * the one-shot timer started with a wait in milliseconds, or one of the four screens drawn.
   */
  datatype Action =
    | LedOn(led: Led)
    | LedOff(led: Led)
    | DrawChar(row: U32, col: U32, ch: char)
    | StartTimer(waitMs: nat)
    | DrawOpeningScreen
    | DrawInstructionsScreen
    | DrawTestScreen
    | DrawEndTestScreen(correct: bool)
}
