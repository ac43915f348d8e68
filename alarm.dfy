/**
 The alarm evaluator `check_alarm`: two persistent flags and a fixed priority
 order, temperature first, humidity only when temperature did not beep.
 */
module Alarm {
  import opened Config

  /** The two process-wide "is currently alarming" flags. */
  datatype Flags = Flags(temperatureAlarm: bool, humidityAlarm: bool)

  /** Both flags false: the state at process start. */
  const Quiet := Flags(false, false)

  /** What one evaluation decides: the beep requested (if any) and the flags after it. */
  datatype Verdict = Verdict(beep: Option<int>, flags: Flags)

  /**
   One call of `check_alarm`, statement by statement: compute the temperature
   alarm, store it, and on a fresh alarm request three beeps, clear the flag
   and return early; otherwise do the same for humidity with two beeps.
   */
  function Evaluate(temperature: int16, humidity: int16, flags: Flags): (v: Verdict)
    // temperature has priority: a fresh temperature alarm (inclusive threshold) gives three beeps
    ensures (v.beep == Some(TEMPERATURE_BEEPS)) <==>
              temperature >= TEMPERATURE_THRESHOLD && !flags.temperatureAlarm
    // humidity is looked at only when temperature did not beep
    ensures (v.beep == Some(HUMIDITY_BEEPS)) <==>
              !(temperature >= TEMPERATURE_THRESHOLD && !flags.temperatureAlarm)
              && humidity >= HUMIDITY_THRESHOLD && !flags.humidityAlarm
    // at most one beep, and no other count is ever requested
    ensures v.beep.None? || v.beep == Some(TEMPERATURE_BEEPS) || v.beep == Some(HUMIDITY_BEEPS)
    // the temperature flag survives only when it was already set and the reading is still high
    ensures v.flags.temperatureAlarm == (temperature >= TEMPERATURE_THRESHOLD && flags.temperatureAlarm)
    // a temperature beep leaves the humidity flag untouched; otherwise it survives as above
    ensures v.flags.humidityAlarm
              == if temperature >= TEMPERATURE_THRESHOLD && !flags.temperatureAlarm
                 then flags.humidityAlarm
                 else humidity >= HUMIDITY_THRESHOLD && flags.humidityAlarm
    // the flags never latch: starting quiet, the call ends quiet
    ensures flags == Quiet ==> v.flags == Quiet
  {
    var isAlarm := temperature >= TEMPERATURE_THRESHOLD;
    var runBeep := isAlarm && !flags.temperatureAlarm;
    var afterTemperature := flags.(temperatureAlarm := isAlarm);
    if runBeep then
      Verdict(Some(TEMPERATURE_BEEPS), afterTemperature.(temperatureAlarm := false))
    else
      var isAlarm := humidity >= HUMIDITY_THRESHOLD;
      var runBeep := isAlarm && !afterTemperature.humidityAlarm;
      var afterHumidity := afterTemperature.(humidityAlarm := isAlarm);
      if runBeep then
        Verdict(Some(HUMIDITY_BEEPS), afterHumidity.(humidityAlarm := false))
      else
        Verdict(None, afterHumidity)
  }

  /**
   A call in which temperature triggers returns before humidity is read: the
   humidity reading has no effect on its outcome.
   */
  lemma TemperatureBeepIgnoresHumidity(temperature: int16, h1: int16, h2: int16, flags: Flags)
    requires temperature >= TEMPERATURE_THRESHOLD && !flags.temperatureAlarm
    ensures Evaluate(temperature, h1, flags) == Evaluate(temperature, h2, flags)
              == Verdict(Some(TEMPERATURE_BEEPS), flags.(temperatureAlarm := false))
  {
  }

  /** One pair of readings as the evaluator sees them. */
  datatype Reading = Reading(temperature: int16, humidity: int16)

  /**
   The beep a call would request if the flags did not exist: the plain
   threshold test in priority order.
   */
  function Expected(r: Reading): Option<int>
  {
    if r.temperature >= TEMPERATURE_THRESHOLD then Some(TEMPERATURE_BEEPS)
    else if r.humidity >= HUMIDITY_THRESHOLD then Some(HUMIDITY_BEEPS)
    else None
  }

  /** Successive calls of the evaluator over a series of readings: the beeps requested and the final flags. */
  function Run(readings: seq<Reading>, flags: Flags): (r: (seq<Option<int>>, Flags))
    ensures |r.0| == |readings|
    decreases |readings|
  {
    if readings == [] then ([], flags)
    else
      var v := Evaluate(readings[0].temperature, readings[0].humidity, flags);
      var rest := Run(readings[1..], v.flags);
      ([v.beep] + rest.0, rest.1)
  }

  /**
   The flags never latch across calls: starting from the initial (quiet) flags,
   every call requests exactly the beep the plain threshold test gives, so a
   reading that stays over a threshold beeps again on every call, and the flags
   end quiet.
   */
  lemma {:induction false} NeverLatches(readings: seq<Reading>)
    ensures Run(readings, Quiet).1 == Quiet
    ensures forall i :: 0 <= i < |readings| ==> Run(readings, Quiet).0[i] == Expected(readings[i])
    decreases |readings|
  {
    if readings != [] {
      NeverLatches(readings[1..]);
      var v := Evaluate(readings[0].temperature, readings[0].humidity, Quiet);
      assert v.flags == Quiet;
      var rest := Run(readings[1..], Quiet);
      assert Run(readings, Quiet).0 == [v.beep] + rest.0;
      forall i | 0 <= i < |readings|
        ensures Run(readings, Quiet).0[i] == Expected(readings[i])
      {
        if i > 0 {
          assert Run(readings, Quiet).0[i] == rest.0[i - 1];
          assert readings[i] == readings[1..][i - 1];
        }
      }
    }
  }

  /**
   A temperature flag that is already set suppresses the temperature beep for as
   long as the reading stays high, and the evaluation then falls through to
   humidity on every such call.
   */
  lemma {:induction false} LatchedTemperatureFallsThrough(readings: seq<Reading>, flags: Flags)
    requires flags.temperatureAlarm
    requires forall i :: 0 <= i < |readings| ==> readings[i].temperature >= TEMPERATURE_THRESHOLD
    ensures Run(readings, flags).1.temperatureAlarm
    ensures forall i :: 0 <= i < |readings| ==> Run(readings, flags).0[i] != Some(TEMPERATURE_BEEPS)
    // each call falls through to the humidity test, which (with its flag clear) beeps on every high reading
    ensures !flags.humidityAlarm ==>
              forall i :: 0 <= i < |readings| ==>
                Run(readings, flags).0[i]
                == if readings[i].humidity >= HUMIDITY_THRESHOLD then Some(HUMIDITY_BEEPS) else None
    decreases |readings|
  {
    if readings != [] {
      var v := Evaluate(readings[0].temperature, readings[0].humidity, flags);
      LatchedTemperatureFallsThrough(readings[1..], v.flags);
      var rest := Run(readings[1..], v.flags);
      assert Run(readings, flags).0 == [v.beep] + rest.0;
      forall i | 0 <= i < |readings|
        ensures Run(readings, flags).0[i] == if i == 0 then v.beep else rest.0[i - 1]
        ensures 0 < i ==> readings[i] == readings[1..][i - 1]
      {
      }
    }
  }
}
