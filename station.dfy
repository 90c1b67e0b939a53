/** WeatherStationActivity.kt: the two selection cells, the key handler and the two-stage
    combineLatest pipeline, as an object whose fields hold the latest value of every stage input
    and the strings written to the display. Its abstract state moves exactly as Pipeline.Step. */
module Station {
  import opened Wrappers
  import opened Sensors
  import opened Display
  import opened Pipeline

  /** The strings Stage B writes to the display for an optional rendering. */
  function Shown(o: Option<Render>, toText: real -> string): (s: seq<string>)
    requires o.Some? ==> 4 <= |toText(UnitValue(o.value.reading, o.value.preferredUnit).0)|
    ensures |s| <= 1 && (o.Some? <==> |s| == 1)
    ensures o.Some? ==> |s[0]| == 5 && s[0][4] == UnitValue(o.value.reading, o.value.preferredUnit).1
  {
    if o.Some? then [DisplayString(o.value.reading, o.value.preferredUnit, toText)] else []
  }

  class WeatherStation {
    /** The reading source (`bmx280Observable`). */
    const source: Bmx280Observable
    /** The float-to-text conversion displayString applies (`Float.toString`). */
    const toText: real -> string
    /** `selectionSubject`'s latest value. */
    var selection: ReadingType
    /** `preferredUnitSubject`'s latest value. */
    var preferredUnit: bool
    /** Stage A's latest reading from the source. */
    var lastReading: Option<SensorReading>
    /** Stage A's latest output, which Stage B holds as its latest reading. */
    var lastForwarded: Option<SensorReading>
    /** Every string written to the display, in order. */
    var displayed: seq<string>

    /** The pipeline state this object represents. */
    ghost function Abstract(): State
      reads this, source
    {
      State(selection, preferredUnit, lastReading, lastForwarded, source.completed)
    }

    ghost predicate Valid()
      reads this, source
    {
      source.Valid() && Inv(Abstract()) && TextFits(toText)
    }

    /** onCreate: both cells get their initial values before the pipeline is wired. */
    constructor (toText: real -> string)
      requires TextFits(toText)
      ensures Valid() && fresh(source)
      ensures Abstract() == Initial && displayed == [] && this.toText == toText
      ensures source.emitted == [] && source.listeners == [] && source.callbackRegistered
    {
      this.toText := toText;
      source := new Bmx280Observable();
      selection := Temperature;
      preferredUnit := true;
      lastReading := None;
      lastForwarded := None;
      displayed := [];
    }

    /** Stage B: render the latest forwarded reading under the latest unit, if there is one. */
    method CombineForwardedAndUnit()
      requires Valid()
      modifies this`displayed
      ensures Valid()
      ensures Abstract() == StageB(old(Abstract())).0
      ensures displayed == old(displayed) + Shown(StageB(old(Abstract())).1, toText)
    {
      if lastForwarded.Some? {
        displayed := displayed + [DisplayString(lastForwarded.value, preferredUnit, toText)];
      }
    }

    /** Stage A: forward the latest reading when its kind is the selected one, then run Stage B. */
    method CombineReadingAndSelection()
      requires Valid()
      modifies this`lastForwarded, this`displayed
      ensures Valid()
      ensures Abstract() == StageA(old(Abstract())).0
      ensures displayed == old(displayed) + Shown(StageA(old(Abstract())).1, toText)
    {
      if lastReading.Some? && lastReading.value.readingType == selection {
        lastForwarded := lastReading;
        CombineForwardedAndUnit();
      }
    }

    /** A sensor callback: the source classifies it and, if it delivers a reading, Stage A fires. */
    method OnSensorChanged(event: Option<SensorEvent>)
      requires Valid()
      modifies this, source`emitted
      ensures Valid()
      ensures Abstract() == Step(old(Abstract()), SensorChanged(event)).0
      ensures displayed == old(displayed) + Shown(Step(old(Abstract()), SensorChanged(event)).1, toText)
      ensures source.emitted == old(source.emitted) + (if old(source.completed) then [] else Elements(ReadingOf(event)))
      ensures source.listeners == old(source.listeners)
      ensures source.callbackRegistered == old(source.callbackRegistered)
    {
      var delivered := source.OnSensorChanged(event);
      if delivered.Some? {
        lastReading := delivered;
        CombineReadingAndSelection();
      }
    }

    /** onKeyDown: SPACE toggles the selection, ENTER negates the unit preference; both are
        handled. Any other key is not handled and changes nothing. */
    method OnKeyDown(keyCode: int) returns (handled: bool)
      requires Valid()
      modifies this
      ensures Valid()
      ensures handled == Handled(keyCode)
      ensures Abstract() == Step(old(Abstract()), KeyDown(keyCode)).0
      ensures displayed == old(displayed) + Shown(Step(old(Abstract()), KeyDown(keyCode)).1, toText)
    {
      if keyCode == KeycodeSpace {
        if selection == Temperature {
          selection := Pressure;
        } else {
          selection := Temperature;
        }
        CombineReadingAndSelection();
        handled := true;
      } else if keyCode == KeycodeEnter {
        preferredUnit := !preferredUnit;
        CombineForwardedAndUnit();
        handled := true;
      } else {
        handled := false;
      }
    }

    /** onDestroy: the reading source is completed; the pipeline's subscription is not disposed. */
    method OnDestroy()
      requires Valid()
      modifies source
      ensures Valid()
      ensures Abstract() == Step(old(Abstract()), Destroy).0
      ensures displayed == old(displayed)
      ensures source.completed && !source.callbackRegistered
      ensures source.emitted == old(source.emitted) && source.listeners == old(source.listeners)
    {
      source.Destroy();
    }
  }

  /** Since no Unknown reading is ever rendered, the "U" suffix never reaches the display. */
  lemma {:induction false} NoUnknownSuffixShown(trace: seq<Event>)
    ensures var out := Run(Initial, trace).1;
      forall i :: 0 <= i < |out| ==> UnitValue(out[i].reading, out[i].preferredUnit).1 in "CFPA"
  {
    var out := Run(Initial, trace).1;
    NoUnknownRendered(trace);
    forall i | 0 <= i < |out|
      ensures UnitValue(out[i].reading, out[i].preferredUnit).1 in "CFPA"
    {
      SuffixTable(out[i].reading, out[i].preferredUnit);
    }
  }
}
