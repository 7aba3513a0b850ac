/** Units of time in milliseconds, the resolution of every instant and
    duration in the model. */
module Time {
  const SecondMs: int := 1000
  const MinuteMs: int := 60 * SecondMs
  const HourMs: int := 60 * MinuteMs
  const DayMs: int := 24 * HourMs
}
