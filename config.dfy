/**
 Compiled-in configuration of the temperature monitor and the small value
 types shared by the other modules.
 */
module Config {

  /** The C `int16_t` that holds each sensor reading (a scaled integer as the sensor driver delivers it). */
  newtype int16 = x: int | -0x8000 <= x < 0x8000

  /** A temperature reading at or above this value is an alarm. */
  const TEMPERATURE_THRESHOLD: int16 := 150
  /** A humidity reading at or above this value is an alarm. */
  const HUMIDITY_THRESHOLD: int16 := 800

  /** Repeat count handed to the buzzer task for a temperature alarm. */
  const TEMPERATURE_BEEPS: int := 3
  /** Repeat count handed to the buzzer task for a humidity alarm. */
  const HUMIDITY_BEEPS: int := 2

  datatype Option<+T> = None | Some(value: T)
}
