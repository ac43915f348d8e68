/**
 One iteration of the sampler task `dht11Task`: read the sensor and, on
 success, run the alarm evaluator and then request one upload task. The task
 creations it requests are recorded as events, so that order and "nothing else"
 can be stated.
 */
module Sampler {
  import opened Config
  import Alarm

  /**
   The outcome of `dht_read_data`. The driver is handed pointers to the two
   readings, so on failure too the readings hold whatever it left there
   (which may be the previous values).
   */
  datatype SensorRead =
    | ReadOk(humidity: int16, temperature: int16)
    | ReadFailed(humidity: int16, temperature: int16)

  /** What the firmware does that another part of the system can observe. */
  datatype Event =
    | AlarmChecked(temperature: int16, humidity: int16)  // check_alarm ran on these readings
    | BeepSpawned(count: int)                            // creation of a buzzer task with this repeat count was requested
    | UploadSpawned                                      // creation of an upload task was requested

  /** The module-level statics of the firmware. */
  datatype Statics = Statics(temperature: int16, humidity: int16, flags: Alarm.Flags)

  /** Zero readings and both flags false, as at process start. */
  const Boot := Statics(0, 0, Alarm.Quiet)

  /** The events of one `check_alarm` call: the check itself, then the buzzer task if one is requested. */
  function AlarmEvents(temperature: int16, humidity: int16, flags: Alarm.Flags): (e: seq<Event>)
  {
    var v := Alarm.Evaluate(temperature, humidity, flags);
    [AlarmChecked(temperature, humidity)] + (if v.beep.Some? then [BeepSpawned(v.beep.value)] else [])
  }

  /** Number of upload task requests among the events. */
  function Uploads(e: seq<Event>): nat
  {
    if e == [] then 0 else Uploads(e[..|e| - 1]) + (if e[|e| - 1].UploadSpawned? then 1 else 0)
  }

  /** Number of buzzer task requests among the events. */
  function Beeps(e: seq<Event>): nat
  {
    if e == [] then 0 else Beeps(e[..|e| - 1]) + (if e[|e| - 1].BeepSpawned? then 1 else 0)
  }

  lemma {:induction false} CountsAppend(a: seq<Event>, b: seq<Event>)
    ensures Uploads(a + b) == Uploads(a) + Uploads(b)
    ensures Beeps(a + b) == Beeps(a) + Beeps(b)
    decreases |b|
  {
    if b != [] {
      CountsAppend(a, b[..|b| - 1]);
      assert (a + b)[..|a + b| - 1] == a + b[..|b| - 1];
    } else {
      assert a + b == a;
    }
  }

  /**
   One pass of the sampler loop: the driver writes the readings; on success
   the alarm check runs and one upload task follows; on failure nothing else
   happens.
   */
  function Cycle(s: Statics, read: SensorRead): (r: (Statics, seq<Event>))
    ensures r.0.temperature == read.temperature && r.0.humidity == read.humidity
    // a failed read runs neither the check nor the upload, and leaves the flags alone
    ensures read.ReadFailed? ==> r.1 == [] && r.0.flags == s.flags
    // a successful read checks the new readings first and ends with the upload
    ensures read.ReadOk? ==>
              && 2 <= |r.1| <= 3
              && r.1[0] == AlarmChecked(read.temperature, read.humidity)
              && r.1[|r.1| - 1] == UploadSpawned
              && r.0.flags == Alarm.Evaluate(read.temperature, read.humidity, s.flags).flags
    // the buzzer task is requested exactly when the evaluator asks for it, with its repeat count
    ensures read.ReadOk? ==>
              (|r.1| == 3 <==> Alarm.Evaluate(read.temperature, read.humidity, s.flags).beep.Some?)
    ensures read.ReadOk? && |r.1| == 3 ==>
              r.1[1] == BeepSpawned(Alarm.Evaluate(read.temperature, read.humidity, s.flags).beep.value)
    // exactly one upload per successful read, none otherwise
    ensures Uploads(r.1) == if read.ReadOk? then 1 else 0
    // at most one buzzer task per cycle, and only on a successful read
    ensures Beeps(r.1) <= if read.ReadOk? then 1 else 0
  {
    var s' := s.(temperature := read.temperature, humidity := read.humidity);
    if read.ReadFailed? then (s', [])
    else
      var v := Alarm.Evaluate(read.temperature, read.humidity, s.flags);
      var e := AlarmEvents(read.temperature, read.humidity, s.flags) + [UploadSpawned];
      CountsAppend(AlarmEvents(read.temperature, read.humidity, s.flags), [UploadSpawned]);
      CountsAppend([AlarmChecked(read.temperature, read.humidity)],
                   if v.beep.Some? then [BeepSpawned(v.beep.value)] else []);
      (s'.(flags := v.flags), e)
  }

  /** Successive passes of the sampler loop over a series of sensor reads. */
  function Trace(s: Statics, samples: seq<SensorRead>): (r: (Statics, seq<Event>))
    // the flags never latch, however many cycles run
    ensures s.flags == Alarm.Quiet ==> r.0.flags == Alarm.Quiet
    decreases |samples|
  {
    if samples == [] then (s, [])
    else
      var c := Cycle(s, samples[0]);
      var rest := Trace(c.0, samples[1..]);
      (rest.0, c.1 + rest.1)
  }

  /** Number of successful sensor reads. */
  function Successes(samples: seq<SensorRead>): nat
  {
    if samples == [] then 0 else (if samples[0].ReadOk? then 1 else 0) + Successes(samples[1..])
  }

  /** Number of successful sensor reads whose readings are over a threshold. */
  function Alarming(samples: seq<SensorRead>): nat
  {
    if samples == [] then 0
    else
      var hit := samples[0].ReadOk?
                 && Alarm.Expected(Alarm.Reading(samples[0].temperature, samples[0].humidity)).Some?;
      (if hit then 1 else 0) + Alarming(samples[1..])
  }

  /** Over any number of cycles, exactly one upload task is requested per successful read. */
  lemma {:induction false} OneUploadPerSuccess(s: Statics, samples: seq<SensorRead>)
    ensures Uploads(Trace(s, samples).1) == Successes(samples)
    decreases |samples|
  {
    if samples != [] {
      var c := Cycle(s, samples[0]);
      OneUploadPerSuccess(c.0, samples[1..]);
      CountsAppend(c.1, Trace(c.0, samples[1..]).1);
    }
  }

  /**
   Starting with quiet flags (as at boot), every successful read whose readings
   are over a threshold requests a buzzer task, and no other read does: the
   flags never suppress a beep across cycles.
   */
  lemma {:induction false} BeepPerAlarmingRead(s: Statics, samples: seq<SensorRead>)
    requires s.flags == Alarm.Quiet
    ensures Beeps(Trace(s, samples).1) == Alarming(samples)
    decreases |samples|
  {
    if samples != [] {
      var c := Cycle(s, samples[0]);
      BeepPerAlarmingRead(c.0, samples[1..]);
      CountsAppend(c.1, Trace(c.0, samples[1..]).1);
      if samples[0].ReadOk? {
        var t, h := samples[0].temperature, samples[0].humidity;
        var v := Alarm.Evaluate(t, h, s.flags);
        assert v.beep == Alarm.Expected(Alarm.Reading(t, h));
        CountsAppend([AlarmChecked(t, h)], if v.beep.Some? then [BeepSpawned(v.beep.value)] else []);
        CountsAppend(AlarmEvents(t, h, s.flags), [UploadSpawned]);
      }
    }
  }
}
