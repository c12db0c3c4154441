/** Board geometry and timing constants of the game (the `Constants` class of main.py). */
module Constants {
  /** Number of columns; valid columns are 1..BoardWidth. */
  const BoardWidth: int := 10
  /** Number of visible rows; rows count upwards from 1. */
  const BoardHeight: int := 20
  /** Gravity interval in milliseconds. */
  const FallSpeedMs: int := 1000
  /** Delay before a held left/right key starts to auto-repeat, in milliseconds. */
  const AutoRepeatDelayMs: int := 300
}
