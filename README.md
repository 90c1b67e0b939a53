# Weather station reading pipeline

A Dafny model of the reactive core of an Android Things weather station. A BMX280 sensor
reports temperature and pressure; two buttons choose which quantity to show (SPACE) and in
which unit (ENTER); a two-stage combineLatest pipeline turns these three event sources into the
strings written to a four-character alphanumeric display.

- `wrappers.dfy` — `Option`, used for Kotlin's nullable values and the empty latest-value slots.
- `sensors.dfy` (module `Sensors`, from `Bmx280Observable.kt`) — `ReadingType`, `SensorReading`,
  the classification of sensor events, the drop rule, the sensor-type test for newly connected
  sensors, and the class `Bmx280Observable` with its delivered readings, listener list and
  completion flag.
- `display.dfy` (module `Display`, from `displayString`) — the conversion and suffix table and
  the five-character rendering. Float arithmetic is done over reals; `Float.toString` is the
  parameter `toText`.
- `pipeline.dfy` (module `Pipeline`) — the pipeline as a pure fold over an event trace: `State`
  holds the selection, the unit preference, Stage A's single latest-reading slot, Stage A's last
  forwarded reading (Stage B's latest reading) and whether the source is closed; `Step` handles
  one event; `Run` folds a trace. The lemmas state the kind filter, the absence of output before
  a reading is forwarded, latest-wins over whole traces (`LatestWins`, against the independent
  definitions `Delivered` and `Presses`), the toggles, and what happens after teardown.
- `station.dfy` (module `Station`, from `WeatherStationActivity.kt`) — the class
  `WeatherStation`, one method per event kind, each proved to move its abstract state exactly as
  `Pipeline.Step` and to append exactly the strings Stage B renders.

Two behaviours of the code are made explicit. Stage A keeps one latest reading, not one per kind:
after SPACE, output appears at once only if the last reading overall already has the new kind
(`Pipeline.SelectionUsesSingleSlot`). ENTER re-renders the last *forwarded* reading, which can be
of the previously selected kind (`Pipeline.UnitToggleRendersPreviousKind`).

Two more points of the code's behaviour:
- `destroy` completes only the reading source. The pipeline's subscription is never disposed,
  so RxJava's combineLatest keeps the stored values. In the app, `onDestroy` then closes the
  display and unregisters and closes both buttons (WeatherStationActivity.kt lines 79-93), so no
  key press arrives afterwards. The model leaves that out (see below): its `closed` flag blocks
  sensor events only, and a key press after teardown still re-renders in the model.
- The rendering keeps exactly four characters of the number's text and appends a
  one-character suffix.

Android framework constants used: `Sensor.TYPE_PRESSURE` = 6, `Sensor.TYPE_AMBIENT_TEMPERATURE` = 13,
`KeyEvent.KEYCODE_SPACE` = 62, `KeyEvent.KEYCODE_ENTER` = 66.

## Model

| member | source | states |
|---|---|---|
| Sensors.Classify | app/src/main/java/com/github/sidky/androidthings/weatherstation/Bmx280Observable.kt:70-74 | pressure sensor type gives PRESSURE, ambient temperature gives TEMPERATURE (each iff), everything else, a null event or sensor included, gives UNKNOWN |
| Sensors.ReadingOf | app/src/main/java/com/github/sidky/androidthings/weatherstation/Bmx280Observable.kt:69-81 | a reading is produced exactly when the type is not UNKNOWN and a first value is present; it carries the classified type and the first value, so it is never UNKNOWN |
| Sensors.ListensTo | app/src/main/java/com/github/sidky/androidthings/weatherstation/Bmx280Observable.kt:24-25 | a connected sensor is listened to exactly when the classification recognises its type |
| Sensors.ListenedSensorsAreClassified | app/src/main/java/com/github/sidky/androidthings/weatherstation/Bmx280Observable.kt:24-31 | a connected sensor is listened to exactly when events from it are classified as a known kind |
| Sensors.ListenedSensorEventsAreDelivered | app/src/main/java/com/github/sidky/androidthings/weatherstation/Bmx280Observable.kt:76-80 | an event with values from a listened sensor always yields a reading of that sensor's kind carrying the first value |
| Sensors.Bmx280Observable.constructor | app/src/main/java/com/github/sidky/androidthings/weatherstation/Bmx280Observable.kt:43-48 | the dynamic-sensor callback is registered, nothing delivered, not completed |
| Sensors.Bmx280Observable.OnSensorChanged | app/src/main/java/com/github/sidky/androidthings/weatherstation/Bmx280Observable.kt:69-81 | delivers ReadingOf(event) unless the subject completed; the delivered sequence grows by exactly that reading and never holds UNKNOWN |
| Sensors.Bmx280Observable.OnDynamicSensorConnected | app/src/main/java/com/github/sidky/androidthings/weatherstation/Bmx280Observable.kt:22-33 | while the callback is registered, registers the listener for a pressure or temperature sensor and ignores every other sensor |
| Sensors.Bmx280Observable.Destroy | app/src/main/java/com/github/sidky/androidthings/weatherstation/Bmx280Observable.kt:50-52 | the subject is completed and the dynamic-sensor callback unregistered; delivered readings unchanged |
| Display.UnitValue | app/src/main/java/com/github/sidky/androidthings/weatherstation/WeatherStationActivity.kt:133-149 | the suffix is one of C, F, P, A, U, and it is U exactly for an UNKNOWN reading |
| Display.DisplayString | app/src/main/java/com/github/sidky/androidthings/weatherstation/WeatherStationActivity.kt:132-151 | the result has length 5: the first four characters of the converted value's text, then the unit suffix |
| Display.SuffixTable | app/src/main/java/com/github/sidky/androidthings/weatherstation/WeatherStationActivity.kt:133-149 | suffix C iff temperature+primary, F iff temperature+alternate, P iff pressure+primary, A iff pressure+alternate, U iff unknown (with value 0) |
| Display.SuffixIdentifiesCase | app/src/main/java/com/github/sidky/androidthings/weatherstation/WeatherStationActivity.kt:133-149 | equal suffixes imply equal kinds and, for a known kind, equal unit preferences |
| Display.ConversionRoundTrip | app/src/main/java/com/github/sidky/androidthings/weatherstation/WeatherStationActivity.kt:134-146 | for a known kind each conversion (identity, 9/5 v + 32, v / 10, v / 1013.25) is undone by its inverse |
| Display.ConversionExamples | app/src/main/java/com/github/sidky/androidthings/weatherstation/WeatherStationActivity.kt:134-146 | 20 C converts to 20 (C) and 68 (F); 1013.25 hPa converts to 101.325 (P) and 1 (A) |
| Pipeline.Toggled | app/src/main/java/com/github/sidky/androidthings/weatherstation/WeatherStationActivity.kt:102-110 | SPACE always changes the selection and never selects UNKNOWN |
| Pipeline.ToggledTwice | app/src/main/java/com/github/sidky/androidthings/weatherstation/WeatherStationActivity.kt:102-110 | toggling twice restores TEMPERATURE or PRESSURE |
| Pipeline.Handled | app/src/main/java/com/github/sidky/androidthings/weatherstation/WeatherStationActivity.kt:101-116 | a handled key (SPACE, ENTER) always changes the state; any other key changes nothing and renders nothing |
| Pipeline.StageA | app/src/main/java/com/github/sidky/androidthings/weatherstation/WeatherStationActivity.kt:46-60 | the latest reading is forwarded and rendered under the current unit iff its kind equals the selection; otherwise the forwarded slot is kept and nothing is rendered |
| Pipeline.StageB | app/src/main/java/com/github/sidky/androidthings/weatherstation/WeatherStationActivity.kt:61-63 | renders the last forwarded reading under the current unit iff a reading has been forwarded; the state is unchanged |
| Pipeline.Step | app/src/main/java/com/github/sidky/androidthings/weatherstation/WeatherStationActivity.kt:46-63 | every rendering is the new forwarded reading under the new unit; the forwarded slot changes only with a rendering; the source is closed iff it was or the event is a teardown |
| Pipeline.Run | app/src/main/java/com/github/sidky/androidthings/weatherstation/WeatherStationActivity.kt:46-69 | the fold of the per-event transition over a trace produces at most one display string per event |
| Pipeline.SensorStep | app/src/main/java/com/github/sidky/androidthings/weatherstation/WeatherStationActivity.kt:46-63 | a sensor event renders iff the source is open, a reading is delivered and its kind equals the selection; the rendering is that reading under the current unit; a mismatched reading still replaces the latest-reading slot but not the forwarded one |
| Pipeline.SpaceStep | app/src/main/java/com/github/sidky/androidthings/weatherstation/WeatherStationActivity.kt:102-110 | SPACE toggles the selection, keeps the unit, and renders iff the single latest reading already has the new kind |
| Pipeline.EnterStep | app/src/main/java/com/github/sidky/androidthings/weatherstation/WeatherStationActivity.kt:111-115 | ENTER only negates the unit and re-renders the last forwarded reading, or renders nothing if none was forwarded |
| Pipeline.OtherKeyStep | app/src/main/java/com/github/sidky/androidthings/weatherstation/WeatherStationActivity.kt:116 | any other key changes no state and renders nothing |
| Pipeline.DestroyStep | app/src/main/java/com/github/sidky/androidthings/weatherstation/Bmx280Observable.kt:50-51 | teardown only closes the source, renders nothing, and is idempotent |
| Pipeline.SpaceTwice | app/src/main/java/com/github/sidky/androidthings/weatherstation/WeatherStationActivity.kt:102-110 | two SPACE presses restore the selection and keep the unit and the latest reading |
| Pipeline.EnterTwice | app/src/main/java/com/github/sidky/androidthings/weatherstation/WeatherStationActivity.kt:111-115 | two ENTER presses leave the whole state unchanged |
| Pipeline.ReachableInv | app/src/main/java/com/github/sidky/androidthings/weatherstation/WeatherStationActivity.kt:43-63 | from the initial cells every reachable state selects TEMPERATURE or PRESSURE and holds no UNKNOWN reading |
| Pipeline.OutputIffForwarded | app/src/main/java/com/github/sidky/androidthings/weatherstation/WeatherStationActivity.kt:47-63 | some string has been rendered iff Stage A has forwarded a reading, and the last rendering is the last forwarded reading under the current unit |
| Pipeline.NoUnknownRendered | app/src/main/java/com/github/sidky/androidthings/weatherstation/WeatherStationActivity.kt:54-57 | no rendering of any trace carries an UNKNOWN reading |
| Pipeline.NoOutputWithoutReading | app/src/main/java/com/github/sidky/androidthings/weatherstation/WeatherStationActivity.kt:46-63 | a trace that delivers no reading renders nothing, whatever keys are pressed |
| Pipeline.LatestWins | app/src/main/java/com/github/sidky/androidthings/weatherstation/WeatherStationActivity.kt:43-63 | after any trace the latest reading is the last one delivered before teardown, the selection and unit follow the parity of SPACE and ENTER presses, and the source is closed iff the trace holds a teardown |
| Pipeline.ClosedIgnoresSensors | app/src/main/java/com/github/sidky/androidthings/weatherstation/Bmx280Observable.kt:50-51 | once closed the source stays closed and the latest reading never changes again |
| Pipeline.SensorEventsAfterDestroy | app/src/main/java/com/github/sidky/androidthings/weatherstation/Bmx280Observable.kt:50-51 | after teardown any run of sensor events leaves the state unchanged and renders nothing |
| Pipeline.UnitToggleRendersPreviousKind | app/src/main/java/com/github/sidky/androidthings/weatherstation/WeatherStationActivity.kt:61-63 | temperature reading, SPACE, ENTER: the ENTER re-renders the temperature although PRESSURE is selected |
| Pipeline.SelectionUsesSingleSlot | app/src/main/java/com/github/sidky/androidthings/weatherstation/WeatherStationActivity.kt:46-53 | after temperature then pressure, SPACE renders the pressure; after pressure then temperature, SPACE renders nothing |
| Station.Shown | app/src/main/java/com/github/sidky/androidthings/weatherstation/WeatherStationActivity.kt:61-67 | Stage B writes one five-character string per rendering, ending in that rendering's suffix, and nothing otherwise |
| Station.NoUnknownSuffixShown | app/src/main/java/com/github/sidky/androidthings/weatherstation/WeatherStationActivity.kt:54-57 | every rendered suffix is C, F, P or A, never U |
| Station.WeatherStation.constructor | app/src/main/java/com/github/sidky/androidthings/weatherstation/WeatherStationActivity.kt:43-44 | the selection starts as TEMPERATURE and the unit preference as true; no reading and no output |
| Station.WeatherStation.CombineReadingAndSelection | app/src/main/java/com/github/sidky/androidthings/weatherstation/WeatherStationActivity.kt:46-60 | Stage A: forwards the latest reading iff its kind equals the selection, then Stage B fires |
| Station.WeatherStation.CombineForwardedAndUnit | app/src/main/java/com/github/sidky/androidthings/weatherstation/WeatherStationActivity.kt:61-69 | Stage B: appends displayString of the last forwarded reading under the current unit, once both exist |
| Station.WeatherStation.OnSensorChanged | app/src/main/java/com/github/sidky/androidthings/weatherstation/WeatherStationActivity.kt:46-63 | a sensor callback moves the state exactly as the pipeline step and appends exactly its rendering |
| Station.WeatherStation.OnKeyDown | app/src/main/java/com/github/sidky/androidthings/weatherstation/WeatherStationActivity.kt:100-118 | returns true exactly for SPACE and ENTER; the state and the display move exactly as the pipeline step |
| Station.WeatherStation.OnDestroy | app/src/main/java/com/github/sidky/androidthings/weatherstation/WeatherStationActivity.kt:73-76 | completes the reading source, unregisters its dynamic-sensor callback, and writes nothing to the display |

## Left out

- Android lifecycle and hardware: display, button drivers, the BMX280 driver, I2C, sensor
  manager registration and `BoardDefaults` are I/O and foreign code. Readings arrive as events.
- RxJava mechanics (`toSerialized`, `hide().share()`, threads, subscription handles): delivery is
  a sequential trace of events. Readings that arrive before the pipeline subscribes are not modelled.
- Float arithmetic and `Float.toString`: conversions are exact over reals, and the text is the
  parameter `toText`.
- Display.DisplayString: requires the text to have at least four characters. The source throws
  at `substring(0..3)` on shorter text (for instance `5.0`, or `1.0` for 1013.25 hPa in the
  alternate unit). The station requires it of every value (`TextFits`), so these crashing
  inputs are excluded rather than modelled.
- Sensors.ReadingOf: an event whose values array is empty cannot be represented. The source
  would throw at `get(0)`, and the framework never sends one.
- Error handling and logging: the `IOException` handlers and Timber calls have no stated behaviour.
- `onAccuracyChanged` only logs.
- Key presses before `onCreate` has set the two cells are not modelled.
- `onDestroy` closing the display and unregistering and closing the two buttons is not modelled,
  because these are driver calls. So in the model a key press after teardown still re-renders,
  although in the app no key press arrives after teardown.
- Display.SuffixTable: its UNKNOWN case ("U" with value 0) is never rendered. No UNKNOWN reading
  reaches Stage B, and the source would throw on the three-character text "0.0" anyway.
