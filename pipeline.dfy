/** The reading-fusion pipeline of WeatherStationActivity.kt as a sequential fold over a trace of
    events. Stage A combines the latest reading with the latest selection and forwards the
    reading only when its kind is the selected one; Stage B combines the latest forwarded reading
    with the latest unit preference and renders it. Each stage keeps ONE latest-value slot per
    input, as combineLatest does. */
module Pipeline {
  import opened Wrappers
  import opened Sensors

  /** Android's key codes of the two buttons (`KeyEvent.KEYCODE_SPACE`, `KeyEvent.KEYCODE_ENTER`). */
  const KeycodeSpace: int := 62
  const KeycodeEnter: int := 66

  /** The arguments Stage B passes to displayString. */
  datatype Render = Render(reading: SensorReading, preferredUnit: bool)

  /** The three event sources: a hardware sensor callback, a key press, and the teardown of the
      reading source. */
  datatype Event =
    | SensorChanged(event: Option<SensorEvent>)
    | KeyDown(keyCode: int)
    | Destroy

  /** The latest value of every combineLatest input, plus whether the reading source completed. */
  datatype State = State(
    selection: ReadingType,
    preferredUnit: bool,
    lastReading: Option<SensorReading>,
    lastForwarded: Option<SensorReading>,
    closed: bool)

  /** After onCreate: selection TEMPERATURE, primary unit, no reading yet. */
  const Initial: State := State(Temperature, true, None, None, false)

  /** The SPACE toggle: PRESSURE when the selection is TEMPERATURE, TEMPERATURE otherwise. */
  function Toggled(selection: ReadingType): (t: ReadingType)
    ensures t != selection
    ensures t != Unknown
  {
    if selection == Temperature then Pressure else Temperature
  }

  /** The keys onKeyDown reports as handled. */
  predicate Handled(keyCode: int)
    ensures Handled(keyCode) ==> forall s :: Step(s, KeyDown(keyCode)).0 != s
    ensures !Handled(keyCode) ==> forall s :: Step(s, KeyDown(keyCode)) == (s, None)
  {
    keyCode == KeycodeSpace || keyCode == KeycodeEnter
  }

  /** Stage B fires when either of its inputs changes, once both hold a value. */
  function StageB(s: State): (r: (State, Option<Render>))
    ensures r.0 == s
    ensures r.1.Some? <==> s.lastForwarded.Some?
    ensures r.1.Some? ==> r.1.value == Render(s.lastForwarded.value, s.preferredUnit)
  {
    (s, if s.lastForwarded.Some? then Some(Render(s.lastForwarded.value, s.preferredUnit)) else None)
  }

  /** Stage A fires when either of its inputs changes; the filter passes the latest reading on
      only when its kind is the selected one, and then Stage B fires. */
  function StageA(s: State): (r: (State, Option<Render>))
    ensures r.0.selection == s.selection && r.0.preferredUnit == s.preferredUnit
    ensures r.0.lastReading == s.lastReading && r.0.closed == s.closed
    ensures r.1.Some? <==> s.lastReading.Some? && s.lastReading.value.readingType == s.selection
    ensures r.1.Some? ==> r.0.lastForwarded == s.lastReading && r.1.value == Render(s.lastReading.value, s.preferredUnit)
    ensures r.1.None? ==> r.0.lastForwarded == s.lastForwarded
  {
    if s.lastReading.Some? && s.lastReading.value.readingType == s.selection
    then StageB(s.(lastForwarded := s.lastReading))
    else (s, None)
  }

  /** One event: the new state and the rendering it produces, if any. */
  function Step(s: State, e: Event): (r: (State, Option<Render>))
    ensures r.1.Some? ==> r.0.lastForwarded.Some? && r.1.value == Render(r.0.lastForwarded.value, r.0.preferredUnit)
    ensures r.0.closed <==> s.closed || e.Destroy?
    ensures r.0.lastForwarded != s.lastForwarded ==> r.1.Some?
  {
    match e
    case SensorChanged(event) =>
      var reading := ReadingOf(event);
      if s.closed || reading.None? then (s, None)
      else StageA(s.(lastReading := reading))
    case KeyDown(keyCode) =>
      if keyCode == KeycodeSpace then StageA(s.(selection := Toggled(s.selection)))
      else if keyCode == KeycodeEnter then StageB(s.(preferredUnit := !s.preferredUnit))
      else (s, None)
    case Destroy =>
      (s.(closed := true), None)
  }

  /** The fold of Step over a trace: the final state and every rendering, in order. Each event
      produces at most one rendering. */
  function Run(s: State, trace: seq<Event>): (r: (State, seq<Render>))
    ensures |r.1| <= |trace|
    decreases |trace|
  {
    if trace == [] then (s, [])
    else
      var (before, out) := Run(s, trace[..|trace| - 1]);
      var (after, o) := Step(before, trace[|trace| - 1]);
      (after, out + Elements(o))
  }

  /** Whether an event delivers a reading into the pipeline (while the source is open). */
  predicate Delivers(e: Event)
  {
    e.SensorChanged? && ReadingOf(e.event).Some?
  }

  /** The state invariant: the selection is one of the two kinds and no Unknown reading is held. */
  ghost predicate Inv(s: State)
  {
    s.selection != Unknown &&
    (s.lastReading.Some? ==> s.lastReading.value.readingType != Unknown) &&
    (s.lastForwarded.Some? ==> s.lastForwarded.value.readingType != Unknown)
  }

  /** Running a trace extended by one event is one more Step after the shorter run. */
  lemma RunSnoc(s: State, trace: seq<Event>, e: Event)
    ensures Run(s, trace + [e]).0 == Step(Run(s, trace).0, e).0
    ensures Run(s, trace + [e]).1 == Run(s, trace).1 + Elements(Step(Run(s, trace).0, e).1)
  {
    assert (trace + [e])[..|trace|] == trace;
  }

  /** Run of a non-empty trace, unfolded once. */
  lemma RunLast(s: State, trace: seq<Event>)
    requires trace != []
    ensures Run(s, trace).0 == Step(Run(s, trace[..|trace| - 1]).0, trace[|trace| - 1]).0
    ensures Run(s, trace).1 == Run(s, trace[..|trace| - 1]).1 + Elements(Step(Run(s, trace[..|trace| - 1]).0, trace[|trace| - 1]).1)
  {
    RunSnoc(s, trace[..|trace| - 1], trace[|trace| - 1]);
    assert trace[..|trace| - 1] + [trace[|trace| - 1]] == trace;
  }

  // ---------------------------------------------------------------------------------------
  // One event at a time

  /** A sensor event: the latest reading is replaced when a reading is delivered, and a
      rendering comes out exactly when the delivered reading has the selected kind. */
  lemma SensorStep(s: State, event: Option<SensorEvent>)
    ensures var (t, o) := Step(s, SensorChanged(event));
      var r := ReadingOf(event);
      (o.Some? <==> !s.closed && r.Some? && r.value.readingType == s.selection) &&
      (o.Some? ==> o.value == Render(r.value, s.preferredUnit) && t.lastForwarded == r) &&
      (o.None? ==> t.lastForwarded == s.lastForwarded) &&
      t.lastReading == (if !s.closed && r.Some? then r else s.lastReading) &&
      t.selection == s.selection && t.preferredUnit == s.preferredUnit && t.closed == s.closed
  {
  }

  /** SPACE toggles the selection and re-evaluates Stage A against the single latest reading:
      a rendering comes out only when that reading already has the newly selected kind. */
  lemma SpaceStep(s: State)
    ensures var (t, o) := Step(s, KeyDown(KeycodeSpace));
      t.selection == Toggled(s.selection) &&
      t.preferredUnit == s.preferredUnit && t.lastReading == s.lastReading && t.closed == s.closed &&
      (o.Some? <==> s.lastReading.Some? && s.lastReading.value.readingType == Toggled(s.selection)) &&
      (o.Some? ==> o.value == Render(s.lastReading.value, s.preferredUnit) && t.lastForwarded == s.lastReading) &&
      (o.None? ==> t.lastForwarded == s.lastForwarded)
  {
  }

  /** ENTER negates the unit preference and re-renders the last FORWARDED reading, whatever the
      current selection; nothing comes out while no reading has been forwarded. */
  lemma EnterStep(s: State)
    ensures var (t, o) := Step(s, KeyDown(KeycodeEnter));
      t == s.(preferredUnit := !s.preferredUnit) &&
      o == if s.lastForwarded.Some? then Some(Render(s.lastForwarded.value, !s.preferredUnit)) else None
  {
  }

  /** Any other key is not handled and changes nothing. */
  lemma OtherKeyStep(s: State, keyCode: int)
    requires !Handled(keyCode)
    ensures Step(s, KeyDown(keyCode)) == (s, None)
  {
  }

  /** Teardown only marks the source closed, and doing it twice is the same as doing it once. */
  lemma DestroyStep(s: State)
    ensures Step(s, Destroy) == (s.(closed := true), None)
    ensures Step(Step(s, Destroy).0, Destroy) == Step(s, Destroy)
  {
  }

  /** SPACE is an involution on the two selectable kinds. */
  lemma ToggledTwice(selection: ReadingType)
    requires selection != Unknown
    ensures Toggled(Toggled(selection)) == selection
  {
  }

  /** Pressing SPACE twice restores the selection and leaves the unit and the latest reading alone
      (it may still change which reading was last forwarded). */
  lemma SpaceTwice(s: State)
    requires s.selection != Unknown
    ensures var t := Run(s, [KeyDown(KeycodeSpace), KeyDown(KeycodeSpace)]).0;
      t.selection == s.selection && t.preferredUnit == s.preferredUnit &&
      t.lastReading == s.lastReading && t.closed == s.closed
  {
    var space := KeyDown(KeycodeSpace);
    RunSnoc(s, [], space);
    RunSnoc(s, [space], space);
    assert [] + [space] == [space] && [space] + [space] == [space, space];
  }

  /** Pressing ENTER twice is the identity on the state. */
  lemma EnterTwice(s: State)
    ensures Run(s, [KeyDown(KeycodeEnter), KeyDown(KeycodeEnter)]).0 == s
  {
    var enter := KeyDown(KeycodeEnter);
    RunSnoc(s, [], enter);
    RunSnoc(s, [enter], enter);
    assert [] + [enter] == [enter] && [enter] + [enter] == [enter, enter];
  }

  // ---------------------------------------------------------------------------------------
  // Whole traces from the initial state

  /** Every reachable state keeps the invariant. */
  lemma {:induction false} ReachableInv(trace: seq<Event>)
    ensures Inv(Run(Initial, trace).0)
  {
    if trace != [] {
      ReachableInv(trace[..|trace| - 1]);
      RunLast(Initial, trace);
    }
  }

  /** Output appears exactly once Stage A has forwarded a reading: there is no rendering before
      both stages hold a value, and from then on the latest rendering is the latest forwarded
      reading under the latest unit preference. */
  lemma {:induction false} OutputIffForwarded(trace: seq<Event>)
    ensures var (s, out) := Run(Initial, trace);
      (out != [] <==> s.lastForwarded.Some?) &&
      (out != [] ==> out[|out| - 1] == Render(s.lastForwarded.value, s.preferredUnit))
  {
    if trace != [] {
      OutputIffForwarded(trace[..|trace| - 1]);
      RunLast(Initial, trace);
    }
  }

  /** No Unknown reading ever reaches the display. */
  lemma {:induction false} NoUnknownRendered(trace: seq<Event>)
    ensures Inv(Run(Initial, trace).0)
    ensures forall i :: 0 <= i < |Run(Initial, trace).1| ==> Run(Initial, trace).1[i].reading.readingType != Unknown
  {
    if trace != [] {
      NoUnknownRendered(trace[..|trace| - 1]);
      RunLast(Initial, trace);
    }
  }

  /** Without a delivered reading nothing is ever rendered, whatever keys are pressed. */
  lemma {:induction false} NoOutputWithoutReading(trace: seq<Event>)
    requires forall i :: 0 <= i < |trace| ==> !Delivers(trace[i])
    ensures Run(Initial, trace).1 == []
    ensures Run(Initial, trace).0.lastReading.None? && Run(Initial, trace).0.lastForwarded.None?
  {
    if trace != [] {
      NoOutputWithoutReading(trace[..|trace| - 1]);
      RunLast(Initial, trace);
    }
  }

  /** The readings a trace delivers to the pipeline: those of its sensor events before the
      first teardown. */
  function Delivered(trace: seq<Event>): (d: seq<SensorReading>)
    ensures |d| <= |trace|
    decreases |trace|
  {
    if trace == [] then []
    else
      var prefix, last := trace[..|trace| - 1], trace[|trace| - 1];
      if Destroy in prefix || !last.SensorChanged? then Delivered(prefix)
      else Delivered(prefix) + Elements(ReadingOf(last.event))
  }

  /** How many times a key was pressed in a trace. */
  function Presses(trace: seq<Event>, keyCode: int): (n: nat)
    ensures n <= |trace|
    decreases |trace|
  {
    if trace == [] then 0
    else Presses(trace[..|trace| - 1], keyCode) + (if trace[|trace| - 1] == KeyDown(keyCode) then 1 else 0)
  }

  /** Latest wins: after any trace the latest-reading slot holds the last reading delivered
      before teardown, the selection is TEMPERATURE after an even number of SPACE presses and
      PRESSURE after an odd one, the unit preference is primary after an even number of ENTER
      presses, and the source is closed exactly when the trace contains a teardown. */
  lemma {:induction false} LatestWins(trace: seq<Event>)
    ensures var s := Run(Initial, trace).0;
      var d := Delivered(trace);
      s.lastReading == (if d == [] then None else Some(d[|d| - 1])) &&
      s.selection == (if Presses(trace, KeycodeSpace) % 2 == 0 then Temperature else Pressure) &&
      s.preferredUnit == (Presses(trace, KeycodeEnter) % 2 == 0) &&
      (s.closed <==> Destroy in trace)
  {
    if trace != [] {
      var prefix, last := trace[..|trace| - 1], trace[|trace| - 1];
      LatestWins(prefix);
      RunLast(Initial, trace);
      assert trace == prefix + [last];
      assert Destroy in trace <==> Destroy in prefix || last == Destroy;
    }
  }

  /** Once the reading source is closed it stays closed, and the latest reading never changes
      again: no later sensor event gets into the pipeline. */
  lemma {:induction false} ClosedIgnoresSensors(s: State, trace: seq<Event>)
    requires s.closed
    ensures Run(s, trace).0.closed
    ensures Run(s, trace).0.lastReading == s.lastReading
  {
    if trace != [] {
      ClosedIgnoresSensors(s, trace[..|trace| - 1]);
      RunLast(s, trace);
    }
  }

  /** After teardown, a run of sensor events changes nothing and renders nothing. */
  lemma {:induction false} SensorEventsAfterDestroy(s: State, trace: seq<Event>)
    requires s.closed
    requires forall i :: 0 <= i < |trace| ==> trace[i].SensorChanged?
    ensures Run(s, trace) == (s, [])
  {
    if trace != [] {
      SensorEventsAfterDestroy(s, trace[..|trace| - 1]);
      RunLast(s, trace);
    }
  }

  // ---------------------------------------------------------------------------------------
  // Scenarios that make the single-slot behaviour visible

  /** Run of a three-event trace, unfolded. */
  lemma RunThree(s: State, a: Event, b: Event, c: Event)
    ensures Run(s, [a, b, c]).0 == Step(Step(Step(s, a).0, b).0, c).0
    ensures Run(s, [a, b, c]).1 ==
      Elements(Step(s, a).1) + Elements(Step(Step(s, a).0, b).1) + Elements(Step(Step(Step(s, a).0, b).0, c).1)
  {
    assert [a][..0] == [] && [a, b][..1] == [a] && [a, b, c][..2] == [a, b];
    RunLast(s, [a]);
    assert Run(s, [a]).1 == Elements(Step(s, a).1);
    RunLast(s, [a, b]);
    RunLast(s, [a, b, c]);
  }

  /** A temperature or pressure event with one value. */
  function EventOf(sensorType: int, value: real): (e: Option<SensorEvent>)
  {
    Some(SensorEvent(Some(Sensor(sensorType)), Some([value])))
  }

  /** The reading delivered for an event of a listened sensor type. */
  lemma EventOfReading(sensorType: int, value: real)
    ensures sensorType == TypeAmbientTemperature ==> ReadingOf(EventOf(sensorType, value)) == Some(SensorReading(Temperature, value))
    ensures sensorType == TypePressure ==> ReadingOf(EventOf(sensorType, value)) == Some(SensorReading(Pressure, value))
  {
    assert FirstValue(EventOf(sensorType, value)) == Some(value);
  }

  /** A unit toggle after a selection toggle re-renders the last forwarded reading, which is
      still a temperature although pressure is now selected. */
  lemma UnitToggleRendersPreviousKind(v: real)
    ensures var t := SensorReading(Temperature, v);
      var (s, out) := Run(Initial, [SensorChanged(EventOf(TypeAmbientTemperature, v)), KeyDown(KeycodeSpace), KeyDown(KeycodeEnter)]);
      s == State(Pressure, false, Some(t), Some(t), false) && out == [Render(t, true), Render(t, false)]
  {
    var t := SensorReading(Temperature, v);
    var e1 := SensorChanged(EventOf(TypeAmbientTemperature, v));
    var space, enter := KeyDown(KeycodeSpace), KeyDown(KeycodeEnter);
    EventOfReading(TypeAmbientTemperature, v);
    var s1 := State(Temperature, true, Some(t), Some(t), false);
    assert Step(Initial, e1) == (s1, Some(Render(t, true)));
    var s2 := s1.(selection := Pressure);
    assert Step(s1, space) == (s2, None);
    assert Step(s2, enter) == (s2.(preferredUnit := false), Some(Render(t, false)));
    RunThree(Initial, e1, space, enter);
  }

  /** Switching the selection re-emits at once only if the last reading overall has the new kind:
      a pressure reading followed by a temperature reading is forgotten when SPACE is pressed. */
  lemma SelectionUsesSingleSlot(p: real, c: real)
    ensures Run(Initial, [SensorChanged(EventOf(TypeAmbientTemperature, c)),
                          SensorChanged(EventOf(TypePressure, p)),
                          KeyDown(KeycodeSpace)]).1
      == [Render(SensorReading(Temperature, c), true), Render(SensorReading(Pressure, p), true)]
    ensures Run(Initial, [SensorChanged(EventOf(TypePressure, p)),
                          SensorChanged(EventOf(TypeAmbientTemperature, c)),
                          KeyDown(KeycodeSpace)]).1
      == [Render(SensorReading(Temperature, c), true)]
  {
    var tr, pr := SensorReading(Temperature, c), SensorReading(Pressure, p);
    var e1 := SensorChanged(EventOf(TypeAmbientTemperature, c));
    var e2 := SensorChanged(EventOf(TypePressure, p));
    var space := KeyDown(KeycodeSpace);
    EventOfReading(TypeAmbientTemperature, c);
    EventOfReading(TypePressure, p);

    var a1 := State(Temperature, true, Some(tr), Some(tr), false);
    assert Step(Initial, e1) == (a1, Some(Render(tr, true)));
    var a2 := a1.(lastReading := Some(pr));
    assert Step(a1, e2) == (a2, None);
    assert Step(a2, space) == (State(Pressure, true, Some(pr), Some(pr), false), Some(Render(pr, true)));
    RunThree(Initial, e1, e2, space);

    var b1 := Initial.(lastReading := Some(pr));
    assert Step(Initial, e2) == (b1, None);
    var b2 := State(Temperature, true, Some(tr), Some(tr), false);
    assert Step(b1, e1) == (b2, Some(Render(tr, true)));
    assert Step(b2, space) == (b2.(selection := Pressure), None);
    RunThree(Initial, e2, e1, space);
  }
}
