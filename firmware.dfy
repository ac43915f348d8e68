/**
 The firmware's module-level statics as one object, with `check_alarm` and one
 pass of the sampler loop as methods that update them in place. Each method is
 proved against the pure definitions in `Alarm` and `Sampler`.
 */
module Device {
  import opened Config
  import Alarm
  import Sampler

  class Firmware {
    var temperature: int16
    var humidity: int16
    var temperatureAlarm: bool
    var humidityAlarm: bool
    /** The alarm checks run and task creations requested so far, oldest first. */
    ghost var trace: seq<Sampler.Event>

    function Flags(): (f: Alarm.Flags)
      reads this
    {
      Alarm.Flags(temperatureAlarm, humidityAlarm)
    }

    function Statics(): (s: Sampler.Statics)
      reads this
    {
      Sampler.Statics(temperature, humidity, Flags())
    }

    /** Static storage at process start: zero readings, both flags false, nothing done yet. */
    constructor ()
      ensures Statics() == Sampler.Boot && trace == []
    {
      temperature, humidity := 0, 0;
      temperatureAlarm, humidityAlarm := false, false;
      trace := [];
    }

    /**
     `check_alarm`: returns the repeat count of the buzzer task it requests, if
     any. The readings are not changed.
     */
    method CheckAlarm() returns (beep: Option<int>)
      modifies this
      ensures beep == Alarm.Evaluate(old(temperature), old(humidity), old(Flags())).beep
      ensures Flags() == Alarm.Evaluate(old(temperature), old(humidity), old(Flags())).flags
      ensures temperature == old(temperature) && humidity == old(humidity)
      ensures trace == old(trace) + Sampler.AlarmEvents(old(temperature), old(humidity), old(Flags()))
      // the flags never latch
      ensures old(Flags()) == Alarm.Quiet ==> Flags() == Alarm.Quiet
    {
      trace := trace + [Sampler.AlarmChecked(temperature, humidity)];
      var isAlarm := temperature >= TEMPERATURE_THRESHOLD;
      var runBeep := isAlarm && !temperatureAlarm;
      temperatureAlarm := isAlarm;
      if runBeep {
        trace := trace + [Sampler.BeepSpawned(TEMPERATURE_BEEPS)];
        temperatureAlarm := false;
        return Some(TEMPERATURE_BEEPS);
      }

      isAlarm := humidity >= HUMIDITY_THRESHOLD;
      runBeep := isAlarm && !humidityAlarm;
      humidityAlarm := isAlarm;
      if runBeep {
        trace := trace + [Sampler.BeepSpawned(HUMIDITY_BEEPS)];
        humidityAlarm := false;
        return Some(HUMIDITY_BEEPS);
      }
      return None;
    }

    /**
     One iteration of `dht11Task`: the driver writes both readings; on success
     the alarm check runs and then one upload task is requested.
     */
    method SampleOnce(read: Sampler.SensorRead)
      modifies this
      ensures Statics() == Sampler.Cycle(old(Statics()), read).0
      ensures trace == old(trace) + Sampler.Cycle(old(Statics()), read).1
    {
      humidity, temperature := read.humidity, read.temperature;
      if read.ReadOk? {
        var _ := CheckAlarm();
        trace := trace + [Sampler.UploadSpawned];
      }
    }
  }

  /** The two end-to-end cases: a temperature exactly at its threshold, and humidity alone over its threshold. */
  method Scenarios()
  {
    var fw := new Firmware();
    fw.SampleOnce(Sampler.ReadOk(500, 150));
    assert fw.trace == [Sampler.AlarmChecked(150, 500), Sampler.BeepSpawned(3), Sampler.UploadSpawned];
    assert fw.Flags() == Alarm.Quiet;

    fw.SampleOnce(Sampler.ReadFailed(500, 150));
    assert |fw.trace| == 3;

    fw.SampleOnce(Sampler.ReadOk(900, 100));
    assert fw.trace[3..] == [Sampler.AlarmChecked(100, 900), Sampler.BeepSpawned(2), Sampler.UploadSpawned];
  }
}
