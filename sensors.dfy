/** Bmx280Observable.kt: the reading source. Hardware sensor callbacks are classified into typed
    readings and pushed onto a broadcast stream, which `destroy` completes. */
module Sensors {
  import opened Wrappers

  datatype ReadingType = Temperature | Pressure | Unknown

  /** A classified reading; the sensor's float value is modelled as a real. */
  datatype SensorReading = SensorReading(readingType: ReadingType, value: real)

  /** Android's identifiers for the two sensor types the BMX280 driver publishes
      (`Sensor.TYPE_PRESSURE` and `Sensor.TYPE_AMBIENT_TEMPERATURE`). */
  const TypePressure: int := 6
  const TypeAmbientTemperature: int := 13

  datatype Sensor = Sensor(sensorType: int)

  /** A sensor event's values array. The framework always fills at least one slot, so an empty
      array (on which the source's `get(0)` would throw) cannot be represented. */
  type EventValues = s: seq<real> | |s| > 0 witness [0.0]

  /** A hardware callback: the sensor that fired (nullable) and its values (nullable). */
  datatype SensorEvent = SensorEvent(sensor: Option<Sensor>, values: Option<EventValues>)

  /** `event?.sensor?.type` */
  function SensorTypeOf(event: Option<SensorEvent>): (t: Option<int>)
    ensures t.Some? <==> event.Some? && event.value.sensor.Some?
  {
    if event.Some? && event.value.sensor.Some? then Some(event.value.sensor.value.sensorType) else None
  }

  /** `event?.values?.get(0)` */
  function FirstValue(event: Option<SensorEvent>): (v: Option<real>)
    ensures v.Some? <==> event.Some? && event.value.values.Some?
  {
    if event.Some? && event.value.values.Some? then Some(event.value.values.value[0]) else None
  }

  /** The classification in onSensorChanged: pressure and ambient temperature are recognised,
      everything else (a null event or sensor included) is Unknown. */
  function Classify(event: Option<SensorEvent>): (t: ReadingType)
    ensures t == Pressure <==> SensorTypeOf(event) == Some(TypePressure)
    ensures t == Temperature <==> SensorTypeOf(event) == Some(TypeAmbientTemperature)
    ensures t == Unknown <==> SensorTypeOf(event) !in {Some(TypePressure), Some(TypeAmbientTemperature)}
  {
    var sensorType := SensorTypeOf(event);
    if sensorType == Some(TypePressure) then Pressure
    else if sensorType == Some(TypeAmbientTemperature) then Temperature
    else Unknown
  }

  /** The reading onSensorChanged pushes for an event, or None when the event is dropped. */
  function ReadingOf(event: Option<SensorEvent>): (r: Option<SensorReading>)
    ensures r.Some? <==> Classify(event) != Unknown && FirstValue(event).Some?
    ensures r.Some? ==> r.value == SensorReading(Classify(event), FirstValue(event).value)
    ensures r.Some? ==> r.value.readingType != Unknown
  {
    var readingType := Classify(event);
    var value := FirstValue(event);
    if readingType != Unknown && value.Some? then Some(SensorReading(readingType, value.value)) else None
  }

  /** The test in onDynamicSensorConnected: the listener is registered for a newly connected
      sensor only when it is a pressure or an ambient-temperature sensor, that is, exactly when
      the classification recognises the sensor (the classification ignores the values). */
  predicate ListensTo(sensor: Option<Sensor>)
    ensures ListensTo(sensor) <==> Classify(Some(SensorEvent(sensor, None))) != Unknown
  {
    sensor.Some? && (sensor.value.sensorType == TypePressure || sensor.value.sensorType == TypeAmbientTemperature)
  }

  /** The sensors the source listens to are exactly those whose events it classifies. */
  lemma ListenedSensorsAreClassified(sensor: Sensor, values: Option<EventValues>)
    ensures ListensTo(Some(sensor)) <==> Classify(Some(SensorEvent(Some(sensor), values))) != Unknown
  {
  }

  /** A well-formed event from a listened sensor always yields a reading, of the sensor's kind
      and carrying the event's first value. */
  lemma ListenedSensorEventsAreDelivered(sensor: Sensor, values: EventValues)
    requires ListensTo(Some(sensor))
    ensures var r := ReadingOf(Some(SensorEvent(Some(sensor), Some(values))));
      r.Some? && r.value.value == values[0] &&
      r.value.readingType == (if sensor.sensorType == TypePressure then Pressure else Temperature)
  {
  }

  /** The reading source: `subject` is modelled by the sequence of readings it has delivered and
      a completion flag; the sensor manager's registrations by a listener list and a flag. */
  class Bmx280Observable {
    /** Every reading pushed to the subscribers, in order. */
    var emitted: seq<SensorReading>
    /** The sensors this object has been registered as a listener for. */
    var listeners: seq<Sensor>
    /** Whether the dynamic-sensor callback is registered with the sensor manager. */
    var callbackRegistered: bool
    /** Whether `destroy` has completed the subject. */
    var completed: bool

    /** No Unknown reading is ever delivered, and only the two supported sensor types are listened to. */
    ghost predicate Valid()
      reads this
    {
      (forall i :: 0 <= i < |emitted| ==> emitted[i].readingType != Unknown) &&
      (forall i :: 0 <= i < |listeners| ==> ListensTo(Some(listeners[i])))
    }

    /** Construction registers the dynamic-sensor callback; no reading has been delivered yet. */
    constructor ()
      ensures Valid()
      ensures emitted == [] && listeners == [] && callbackRegistered && !completed
    {
      emitted := [];
      listeners := [];
      callbackRegistered := true;
      completed := false;
    }

    /** onSensorChanged: classify the event and push the reading, unless it is dropped or the
        subject has completed (a completed subject ignores further items). */
    method OnSensorChanged(event: Option<SensorEvent>) returns (delivered: Option<SensorReading>)
      requires Valid()
      modifies this`emitted
      ensures Valid()
      ensures delivered == if completed then None else ReadingOf(event)
      ensures emitted == old(emitted) + Elements(delivered)
    {
      var readingType := Classify(event);
      var value := FirstValue(event);
      delivered := None;
      if readingType != Unknown && value.Some? && !completed {
        delivered := Some(SensorReading(readingType, value.value));
        emitted := emitted + [delivered.value];
      }
    }

    /** onDynamicSensorConnected: register this listener for a pressure or temperature sensor,
        ignore every other sensor. */
    method OnDynamicSensorConnected(sensor: Option<Sensor>)
      requires Valid()
      requires callbackRegistered  // the sensor manager calls back only while registered
      modifies this`listeners
      ensures Valid()
      ensures listeners == old(listeners) + (if ListensTo(sensor) then [sensor.value] else [])
    {
      if sensor.Some? && (sensor.value.sensorType == TypePressure || sensor.value.sensorType == TypeAmbientTemperature) {
        listeners := listeners + [sensor.value];
      }
    }

    /** destroy: complete the subject and unregister the dynamic-sensor callback. */
    method Destroy()
      requires Valid()
      modifies this`completed, this`callbackRegistered
      ensures Valid()
      ensures completed && !callbackRegistered
    {
      completed := true;
      callbackRegistered := false;
    }
  }
}
