# ESP32 temperature monitor: alarm evaluator, buzzer loop and sampler cycle

A Dafny model of the original logic in the firmware of an ESP32 board that
samples a DHT11 humidity/temperature sensor, sounds a buzzer when a reading
reaches a compiled-in threshold, and hands each reading to an upload task.

- `Config` (config.dfy): the `int16_t` reading type, the two inclusive
  thresholds (temperature 150, humidity 800) and the buzzer repeat counts
  (3 for temperature, 2 for humidity).
- `Alarm` (alarm.dfy): `check_alarm` as a pure function `Evaluate` of the two
  readings and the two persistent flags, with temperature evaluated first and
  an early return after a beep. `Run` applies it to a series of readings. The
  flags are cleared right after they trigger, so they never latch: starting
  from the initial flags, every over-threshold reading beeps again.
- `Buzzer` (buzzer.dfy): the toggle loop of the `beep` task as a method that
  returns the pin levels it writes, proved equal to the closed form "`2*n`
  levels, high at even positions".
- `Sampler` (sampler.dfy): one iteration of the `dht11Task` loop as a pure
  function `Cycle` over the statics and the sensor outcome, producing the
  events the iteration causes (`AlarmChecked`, `BeepSpawned(n)`,
  `UploadSpawned`, each a task-creation request); `Trace` chains any number of iterations.
- `Device` (firmware.dfy): the class `Firmware`, whose fields are the
  module-level statics `temperature`, `humidity`, `temperature_alarm` and
  `humidity_alarm` plus a ghost event trace. `CheckAlarm` and `SampleOnce`
  update them in place, step by step as the C code does, and are proved
  against `Alarm.Evaluate` and `Sampler.Cycle`.

The sensor read is an input: success with the two readings, or failure. The
driver receives `&humidity, &temperature` (src/main.c:138), and nothing in the
code says what it leaves there when it fails, so a failed read also carries
whatever values it left in the two statics. The model therefore does not
promise that a failed read keeps the previous readings; a caller may pass the
old values to get that behaviour.

The events record task-creation requests: the program ignores what
`xTaskCreate` and `xTaskCreatePinnedToCore` return (src/main.c:101, 111, 141),
so a request is not a guarantee that the task exists.

## Model

| member | source | states |
|---|---|---|
| `Alarm.Evaluate` | src/main.c:95-116 | A fresh temperature alarm (reading >= 150, flag clear) requests exactly 3 beeps; 2 beeps are requested exactly when temperature did not trigger and humidity >= 800 with its flag clear; otherwise none. The temperature flag ends set only if it was set and the reading is still high; a temperature beep leaves the humidity flag untouched; both flags clear before means both clear after. |
| `Alarm.TemperatureBeepIgnoresHumidity` | src/main.c:96-103 | When temperature triggers, the outcome is the same for every humidity reading: 3 beeps, temperature flag cleared, humidity flag unchanged. |
| `Alarm.NeverLatches` | src/main.c:95-116 | From the initial flags (both false), every call over any series of readings requests exactly the beep of the plain threshold test in priority order (so a reading that stays high beeps on every call), and the flags end false. |
| `Alarm.LatchedTemperatureFallsThrough` | src/main.c:96-108 | With the temperature flag already set and the temperature staying high, no call requests a temperature beep and the flag stays set; evaluation goes on to humidity, so with the humidity flag clear each call requests 2 beeps exactly when humidity >= 800 and nothing otherwise. |
| `Buzzer.Beep` | src/main.c:119-131 | The loop writes exactly `2*n` levels (none when `n <= 0`), the i-th high exactly when i is even, the last one low when `n >= 1`, and the level variable ends true, where it started. |
| `Buzzer.HighForHalf` | src/main.c:121-127 | Of the `2*n` levels written, exactly `n` are high. |
| `Sampler.Cycle` | src/main.c:136-154 | Both readings take the values the driver wrote. A failed read causes no event and keeps the flags. A successful read first checks the new readings and ends with the upload request: 2 or 3 events, exactly one upload; the buzzer request sits between them exactly when `Evaluate` asks for a beep, with its repeat count; flags as `Evaluate` leaves them. |
| `Sampler.Trace` | src/main.c:136-154 | Over any number of loop iterations the flags, both false at start, stay false. |
| `Sampler.OneUploadPerSuccess` | src/main.c:138-146 | Over any number of iterations, the number of upload task requests equals the number of successful reads. |
| `Sampler.BeepPerAlarmingRead` | src/main.c:138-146 | Starting from the initial flags, the number of buzzer task requests equals the number of successful reads with a reading over a threshold. |
| `Device.Firmware.constructor` | src/main.c:49-52 | The statics start with zero readings, both flags false and nothing done. |
| `Device.Firmware.CheckAlarm` | src/main.c:95-116 | Updates the flags in place exactly as `Evaluate` says, returns its beep count, leaves the readings alone, records the check and the buzzer task it requests, and keeps both flags false when they were false. |
| `Device.Firmware.SampleOnce` | src/main.c:136-146 | Updates the statics and the event trace exactly as `Cycle` says. |

## Left out

- Wi-Fi station start, NVS flash init and erase, and `app_main` (src/main.c:57-88), and `init_hw` (src/main.c:91-93): vendor SDK calls with no logic of this program.
- The upload task `https_get_task`: its code is not part of this model; it appears only as the `UploadSpawned` event.
- The DHT11 single-wire protocol inside `dht_read_data`: its code is not part of this model; its outcome is an input.
- FreeRTOS scheduling: task stacks, priorities, core pinning, `vTaskDelete`, and the 100 ms and 5000 ms delays. The infinite sampler loop is modelled as any finite series of iterations (`Sampler.Trace`).
- Concurrency: the buzzer and upload tasks run beside the sampler and read or drive shared state without locks; the model records when their creation is requested, not how their effects interleave (two buzzer tasks can overlap on the pin).
- Logging through `ESP_LOGI`.
- Task-creation failure: the return values of `xTaskCreate` and `xTaskCreatePinnedToCore` are ignored by the program, so the events record requests and the model says nothing about whether the tasks run.
- Buzzer.Beep: does not model 32-bit overflow of `2 * count`, because the only counts the program passes are 2 and 3.
