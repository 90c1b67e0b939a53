/** displayString in WeatherStationActivity.kt: unit conversion and the fixed five-character
    rendering sent to the alphanumeric display. Float arithmetic is modelled over reals; the
    float-to-text step (`Float.toString`) is a parameter `toText`. */
module Display {
  import opened Sensors

  /** The `when` in displayString: the converted value and the one-character unit suffix for a
      reading and the unit preference (true = primary unit). */
  function UnitValue(reading: SensorReading, preferredUnit: bool): (p: (real, char))
    ensures p.1 in "CFPAU"
    ensures p.1 == 'U' <==> reading.readingType == Unknown
  {
    match reading.readingType
    case Temperature => if preferredUnit then (reading.value, 'C') else ((9.0 / 5.0) * reading.value + 32.0, 'F')
    case Pressure => if preferredUnit then (reading.value / 10.0, 'P') else (reading.value / 1013.25, 'A')
    case Unknown => (0.0, 'U')
  }

  /** Whether every text the formatter produces is long enough for `substring(0..3)`. */
  ghost predicate TextFits(toText: real -> string)
  {
    forall v: real :: 4 <= |toText(v)|
  }

  /** The string shown: the first four characters of the converted value's text followed by
      the unit suffix. Text shorter than four characters makes the source throw; it is excluded. */
  function DisplayString(reading: SensorReading, preferredUnit: bool, toText: real -> string): (s: string)
    requires 4 <= |toText(UnitValue(reading, preferredUnit).0)|
    ensures |s| == 5
    ensures s[..4] == toText(UnitValue(reading, preferredUnit).0)[..4]
    ensures s[4] == UnitValue(reading, preferredUnit).1
  {
    var (value, unit) := UnitValue(reading, preferredUnit);
    toText(value)[..4] + [unit]
  }

  /** The sensor's own value recovered from a displayed value: the inverse of the conversion
      for each recognised (kind, preference) pair. */
  function FromUnit(readingType: ReadingType, preferredUnit: bool, shown: real): (v: real)
  {
    match readingType
    case Temperature => if preferredUnit then shown else (shown - 32.0) * (5.0 / 9.0)
    case Pressure => if preferredUnit then shown * 10.0 else shown * 1013.25
    case Unknown => 0.0
  }

  /** Every conversion of a recognised reading is invertible: no information but precision is lost. */
  lemma ConversionRoundTrip(reading: SensorReading, preferredUnit: bool)
    requires reading.readingType != Unknown
    ensures FromUnit(reading.readingType, preferredUnit, UnitValue(reading, preferredUnit).0) == reading.value
  {
  }

  /** The suffix identifies the case: two renderings with the same suffix come from readings of
      the same kind and, for a recognised kind, the same unit preference. */
  lemma SuffixIdentifiesCase(r1: SensorReading, u1: bool, r2: SensorReading, u2: bool)
    requires UnitValue(r1, u1).1 == UnitValue(r2, u2).1
    ensures r1.readingType == r2.readingType
    ensures r1.readingType != Unknown ==> u1 == u2
  {
  }

  /** The suffix table: C and F for temperature, P and A for pressure, U for anything else.
      The U case is never rendered: no Unknown reading reaches Stage B (Pipeline.NoUnknownRendered),
      and its text "0.0" would be too short for the four-character window anyway. */
  lemma SuffixTable(reading: SensorReading, preferredUnit: bool)
    ensures var c := UnitValue(reading, preferredUnit).1;
      (c == 'C' <==> reading.readingType == Temperature && preferredUnit) &&
      (c == 'F' <==> reading.readingType == Temperature && !preferredUnit) &&
      (c == 'P' <==> reading.readingType == Pressure && preferredUnit) &&
      (c == 'A' <==> reading.readingType == Pressure && !preferredUnit) &&
      (c == 'U' <==> reading.readingType == Unknown)
    ensures reading.readingType == Unknown ==> UnitValue(reading, preferredUnit).0 == 0.0
  {
  }

  /** Reference values: 20 degrees C is 68 F; 1013.25 hPa is 101.325 in the primary unit and one
      atmosphere in the alternate unit. */
  lemma ConversionExamples()
    ensures UnitValue(SensorReading(Temperature, 20.0), true) == (20.0, 'C')
    ensures UnitValue(SensorReading(Temperature, 20.0), false) == (68.0, 'F')
    ensures UnitValue(SensorReading(Pressure, 1013.25), true) == (101.325, 'P')
    ensures UnitValue(SensorReading(Pressure, 1013.25), false) == (1.0, 'A')
  {
  }
}
