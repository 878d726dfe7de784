/** The scaler `scale_raw_to_aqi`: raw pollutant concentrations to Air
    Quality Index values, for one reading or for a series of readings of
    the same pollutant. */
module Scaling {
  import opened Breakpoints
  import opened AqiTable

  /** One raw reading: absent (None or NaN) or a concentration. */
  datatype Reading = Missing | Conc(value: real)

  /** What the caller passes: a single reading or a series of readings. */
  datatype Input = Single(reading: Reading) | Series(readings: seq<Reading>)

  /** What the scaler returns, shaped like its input. */
  datatype Output = SingleOut(aqi: Aqi) | SeriesOut(aqis: seq<Aqi>)

  /** The two `ValueError`s the scaler raises. */
  datatype ScaleError = NegativeValue | UnknownPollutant(key: string)

  datatype Result<T> = Ok(value: T) | Err(error: ScaleError)

  /** The fixed text that starts every unknown-pollutant message. */
  const UnknownPrefix: string := "Unknown pollutant: "

  /** The text each error is raised with: the negative-value text is fixed,
      and the unknown-pollutant text is the fixed prefix followed by the
      offending key, character for character. */
  function Message(e: ScaleError): (m: string)
    ensures e.NegativeValue? ==> m == "Negative pollutant values are invalid."
    ensures e.UnknownPollutant? ==>
      |m| == |UnknownPrefix| + |e.key| && m[..|UnknownPrefix|] == UnknownPrefix && m[|UnknownPrefix|..] == e.key
  {
    match e
    case NegativeValue => "Negative pollutant values are invalid."
    case UnknownPollutant(key) => UnknownPrefix + key
  }

  /** The scalar path. The checks run in order: a missing reading gives a
      missing result, then a negative concentration is rejected, then an
      unknown key is rejected; only then are the tiers scanned. */
  function ScaleReading(pollutant: string, reading: Reading): (r: Result<Aqi>)
    ensures r == Ok(MissingIndex) <==> reading.Missing?
    ensures r == Err(NegativeValue) <==> reading.Conc? && reading.value < 0.0
    ensures r == Err(UnknownPollutant(pollutant)) <==>
      reading.Conc? && 0.0 <= reading.value && pollutant !in Cutoffs
    ensures r.Err? ==> r.error == NegativeValue || r.error == UnknownPollutant(pollutant)
    ensures r.Ok? && r.value.Index? <==> reading.Conc? && 0.0 <= reading.value && pollutant in Cutoffs
  {
    match reading
    case Missing => Ok(MissingIndex)
    case Conc(v) =>
      if v < 0.0 then Err(NegativeValue)
      else if pollutant !in Cutoffs then Err(UnknownPollutant(pollutant))
      else
        CutoffsWellFormed(pollutant);
        Ok(ScaleTiers(Cutoffs[pollutant], v))
  }

  /** The series path: the scalar path applied to each element in order;
      the first element that raises aborts the whole call with its error. */
  function ScaleSeries(pollutant: string, readings: seq<Reading>): (r: Result<seq<Aqi>>)
    ensures r.Ok? <==> forall i :: 0 <= i < |readings| ==> ScaleReading(pollutant, readings[i]).Ok?
    ensures r.Ok? ==> |r.value| == |readings|
    ensures r.Ok? ==> forall i :: 0 <= i < |readings| ==> ScaleReading(pollutant, readings[i]) == Ok(r.value[i])
    ensures r.Err? ==> exists i ::
      && 0 <= i < |readings| && ScaleReading(pollutant, readings[i]) == Err(r.error)
      && forall j :: 0 <= j < i ==> ScaleReading(pollutant, readings[j]).Ok?
  {
    if |readings| == 0 then Ok([])
    else
      match ScaleReading(pollutant, readings[0])
      case Err(e) => Err(e)
      case Ok(first) =>
        match ScaleSeries(pollutant, readings[1..])
        case Err(e) => Err(e)
        case Ok(rest) => Ok([first] + rest)
  }

  /** The entry point: a series is scaled element by element before any
      check is made; a single reading takes the scalar path. */
  function Scale(pollutant: string, value: Input): (r: Result<Output>)
    ensures r.Ok? ==> (r.value.SingleOut? <==> value.Single?)
    ensures r.Err? ==> r.error == NegativeValue || r.error == UnknownPollutant(pollutant)
    ensures value.Single? ==> match ScaleReading(pollutant, value.reading)
      case Ok(a) => r == Ok(SingleOut(a))
      case Err(e) => r == Err(e)
    ensures value.Series? ==> match ScaleSeries(pollutant, value.readings)
      case Ok(s) => r == Ok(SeriesOut(s))
      case Err(e) => r == Err(e)
  {
    match value
    case Series(readings) =>
      (match ScaleSeries(pollutant, readings)
       case Ok(s) => Ok(SeriesOut(s))
       case Err(e) => Err(e))
    case Single(reading) =>
      (match ScaleReading(pollutant, reading)
       case Ok(a) => Ok(SingleOut(a))
       case Err(e) => Err(e))
  }

  // ---------------------------------------------------------------------
  // Errors and missing values

  /** A missing reading is missing in the result for every key, known or
      not: the missing check precedes the key lookup. */
  lemma MissingPropagates(pollutant: string)
    ensures Scale(pollutant, Single(Missing)) == Ok(SingleOut(MissingIndex))
  {
  }

  /** A negative concentration is rejected for every key, known or not:
      the sign check precedes the key lookup. */
  lemma NegativeRejected(pollutant: string, v: real)
    requires v < 0.0
    ensures Scale(pollutant, Single(Conc(v))) == Err(NegativeValue)
  {
  }

  /** A present, non-negative concentration under a key absent from the
      table is rejected with an error naming that key. */
  lemma UnknownRejected(pollutant: string, v: real)
    requires pollutant !in Cutoffs && 0.0 <= v
    ensures Scale(pollutant, Single(Conc(v))) == Err(UnknownPollutant(pollutant))
    ensures Message(Scale(pollutant, Single(Conc(v))).error) == "Unknown pollutant: " + pollutant
  {
  }

  /** The example pollutant names in the scaler's docstring are not keys
      of the table, so each is rejected as unknown. */
  lemma DocstringExamplesRejected(v: real)
    requires 0.0 <= v
    ensures Scale("PM10", Single(Conc(v))) == Err(UnknownPollutant("PM10"))
    ensures Scale("PM2.5", Single(Conc(v))) == Err(UnknownPollutant("PM2.5"))
    ensures Scale("carbon_monoxide_8hour", Single(Conc(v))) == Err(UnknownPollutant("carbon_monoxide_8hour"))
  {
    UnknownRejected("PM10", v);
    UnknownRejected("PM2.5", v);
    UnknownRejected("carbon_monoxide_8hour", v);
  }

  /** The unknown-pollutant message determines the key, and differs from
      the negative-value message. */
  lemma MessageIdentifiesKey(k1: string, k2: string)
    requires Message(UnknownPollutant(k1)) == Message(UnknownPollutant(k2))
    ensures k1 == k2
    ensures Message(NegativeValue) != Message(UnknownPollutant(k1))
  {
    var prefix := "Unknown pollutant: ";
    assert (prefix + k1)[|prefix|..] == k1;
    assert (prefix + k2)[|prefix|..] == k2;
    assert Message(UnknownPollutant(k1))[0] == 'U';
  }

  // ---------------------------------------------------------------------
  // Tier selection and interpolation over the fixed table

  /** The selected tier is the first in table order whose cutoff reaches
      `v`, and within it the result is the linear interpolation. */
  lemma ScaleSelectsTier(pollutant: string, v: real, i: int)
    requires pollutant in Cutoffs && 0.0 <= v
    requires 0 <= i < |Cutoffs[pollutant]| && v <= Cutoffs[pollutant][i].cutoff
    requires i == 0 || Cutoffs[pollutant][i - 1].cutoff < v
    ensures Cutoffs[pollutant][i].low < Cutoffs[pollutant][i].cutoff
    ensures ScaleReading(pollutant, Conc(v)) == Ok(Index(Interpolate(Cutoffs[pollutant][i], v), false))
  {
    CutoffsWellFormed(pollutant);
    assert ProperTier(Cutoffs[pollutant][i]);
    ScaleTiersInTier(Cutoffs[pollutant], v, i);
  }

  /** A value equal to a tier's cutoff returns exactly that tier's high
      index, not the next tier's base. */
  lemma ScaleAtCutoff(pollutant: string, i: int)
    requires pollutant in Cutoffs && 0 <= i < |Cutoffs[pollutant]|
    ensures ScaleReading(pollutant, Conc(Cutoffs[pollutant][i].cutoff)) == Ok(Index(Cutoffs[pollutant][i].high, false))
  {
    CutoffsWellFormed(pollutant);
    ScaleTiersAtCutoff(Cutoffs[pollutant], i);
  }

  /** A value equal to a tier's low concentration returns exactly that
      tier's base index. */
  lemma ScaleAtLow(pollutant: string, i: int)
    requires pollutant in Cutoffs && 0 <= i < |Cutoffs[pollutant]|
    ensures ScaleReading(pollutant, Conc(Cutoffs[pollutant][i].low)) == Ok(Index(Cutoffs[pollutant][i].base, false))
  {
    CutoffsWellFormed(pollutant);
    ScaleTiersAtLow(Cutoffs[pollutant], i);
  }

  /** Zero scales to zero for every key except one-hour ozone. */
  lemma ZeroScalesToZero(pollutant: string)
    requires pollutant in Cutoffs && pollutant != "ozone_1hr"
    ensures ScaleReading(pollutant, Conc(0.0)) == Ok(Index(0.0, false))
  {
    CutoffsFloor(pollutant);
    ScaleAtLow(pollutant, 0);
  }

  /** A value inside some tier's range lies within that tier's index range,
      so within [0, 500] for every key. */
  lemma ScaleCoveredInRange(pollutant: string, v: real, i: int)
    requires pollutant in Cutoffs && InTier(Cutoffs[pollutant], i, v)
    ensures ScaleReading(pollutant, Conc(v)).Ok?
    ensures Cutoffs[pollutant][i].base <= ScaleReading(pollutant, Conc(v)).value.value <= Cutoffs[pollutant][i].high
    ensures 0.0 <= ScaleReading(pollutant, Conc(v)).value.value <= 500.0
  {
    var t := Cutoffs[pollutant];
    CutoffsWellFormed(pollutant);
    CutoffsCeiling(pollutant);
    ScaleTiersCovered(t, v, i);
    if i < |t| - 1 {
      TiersIncreasing(t, i, |t| - 1);
    }
  }

  /** A value in the gap after tier `i` is extrapolated from tier `i+1`,
      strictly below that tier's base. */
  lemma ScaleInGap(pollutant: string, v: real, i: int)
    requires pollutant in Cutoffs && 0 <= i < |Cutoffs[pollutant]| - 1
    requires Cutoffs[pollutant][i].cutoff < v < Cutoffs[pollutant][i + 1].low
    ensures ScaleReading(pollutant, Conc(v)).Ok?
    ensures ScaleReading(pollutant, Conc(v)).value.value < Cutoffs[pollutant][i + 1].base
  {
    CutoffsWellFormed(pollutant);
    ScaleTiersInGap(Cutoffs[pollutant], v, i);
  }

  // ---------------------------------------------------------------------
  // Saturation and the warning flag

  /** The largest cutoff of a key's table: no tier's cutoff exceeds it, and
      some tier's cutoff equals it. */
  function MaxConcentration(pollutant: string): (c: real)
    requires pollutant in Cutoffs
    ensures forall i :: 0 <= i < |Cutoffs[pollutant]| ==> Cutoffs[pollutant][i].cutoff <= c
    ensures exists i :: 0 <= i < |Cutoffs[pollutant]| && Cutoffs[pollutant][i].cutoff == c
  {
    CutoffsWellFormed(pollutant);
    LastIsLargest(Cutoffs[pollutant]);
    assert Cutoffs[pollutant][|Cutoffs[pollutant]| - 1] == Last(Cutoffs[pollutant]);
    Last(Cutoffs[pollutant]).cutoff
  }

  /** A value above every cutoff returns the ceiling (300 for eight-hour
      ozone, 500 otherwise) with the warning set, and the warning is set on
      no other path. */
  lemma ScaleSaturates(pollutant: string, reading: Reading)
    ensures (ScaleReading(pollutant, reading).Ok? && ScaleReading(pollutant, reading).value.Index?
             && ScaleReading(pollutant, reading).value.warned)
        <==> (reading.Conc? && pollutant in Cutoffs && MaxConcentration(pollutant) < reading.value)
    ensures reading.Conc? && pollutant in Cutoffs && MaxConcentration(pollutant) < reading.value ==>
      ScaleReading(pollutant, reading) == Ok(Index(if pollutant == "ozone_8hr" then 300.0 else 500.0, true))
  {
    if reading.Conc? && pollutant in Cutoffs && 0.0 <= reading.value {
      CutoffsWellFormed(pollutant);
      CutoffsCeiling(pollutant);
      ScaleTiersSaturates(Cutoffs[pollutant], reading.value);
    } else if reading.Conc? && pollutant in Cutoffs {
      CutoffsWellFormed(pollutant);
      assert 0.0 <= Cutoffs[pollutant][0].low < Cutoffs[pollutant][0].cutoff;
      assert Cutoffs[pollutant][0] == Last(Cutoffs[pollutant]) || Cutoffs[pollutant][0].cutoff < MaxConcentration(pollutant) by {
        if |Cutoffs[pollutant]| > 1 {
          TiersIncreasing(Cutoffs[pollutant], 0, |Cutoffs[pollutant]| - 1);
        }
      }
    }
  }

  // ---------------------------------------------------------------------
  // Monotonicity

  /** Whenever the larger concentration lies inside a tier's range, or
      above the whole table, it never gives a smaller index than any smaller
      non-negative concentration, gap values and one-hour ozone below its
      first tier included. */
  lemma ScaleMonotone(pollutant: string, a: real, b: real)
    requires pollutant in Cutoffs && 0.0 <= a <= b
    requires Covered(Cutoffs[pollutant], b) || MaxConcentration(pollutant) < b
    ensures ScaleReading(pollutant, Conc(a)).Ok? && ScaleReading(pollutant, Conc(b)).Ok?
    ensures ScaleReading(pollutant, Conc(a)).value.value <= ScaleReading(pollutant, Conc(b)).value.value
  {
    CutoffsWellFormed(pollutant);
    ScaleTiersMonotone(Cutoffs[pollutant], a, b);
  }

  /** Outside the tiers' ranges monotonicity fails: eight-hour ozone at its
      first cutoff 0.054 scales to 50, while 0.0541, in the gap before the
      next tier, is extrapolated to 48.06. */
  lemma Ozone8HrGapNotMonotone()
    ensures ScaleReading("ozone_8hr", Conc(0.054)) == Ok(Index(50.0, false))
    ensures ScaleReading("ozone_8hr", Conc(0.0541)) == Ok(Index(48.06, false))
  {
    ScaleAtCutoff("ozone_8hr", 0);
    assert Cutoffs["ozone_8hr"] == Ozone8Hr;
    ScaleSelectsTier("ozone_8hr", 0.0541, 1);
    assert Interpolate(Ozone8Hr[1], 0.0541) == 48.06;
  }

  /** One-hour ozone has no tier below 0.125, so small values extrapolate
      below zero: 0 scales to -2186/39 (about -56.05). */
  lemma Ozone1HrBelowFirstTier()
    ensures ScaleReading("ozone_1hr", Conc(0.0)) == Ok(Index(-2186.0 / 39.0, false))
    ensures ScaleReading("ozone_1hr", Conc(0.0)).value.value < 0.0
  {
    assert Cutoffs["ozone_1hr"] == Ozone1Hr;
    ScaleSelectsTier("ozone_1hr", 0.0, 0);
    assert Interpolate(Ozone1Hr[0], 0.0) == -2186.0 / 39.0;
  }

  /** One-hour ozone's first tier crosses index 0 at exactly 2.186/49
      (about 0.0446). */
  const Ozone1HrZero: real := 2.186 / 49.0

  /** Every present, non-negative concentration under a known key scales
      into [0, 500], in a tier, in a gap or above the table, except one-hour
      ozone below `Ozone1HrZero`. */
  lemma ScaleInRange(pollutant: string, v: real)
    requires pollutant in Cutoffs && 0.0 <= v
    requires pollutant == "ozone_1hr" ==> Ozone1HrZero <= v
    ensures ScaleReading(pollutant, Conc(v)).Ok?
    ensures 0.0 <= ScaleReading(pollutant, Conc(v)).value.value <= 500.0
  {
    var t := Cutoffs[pollutant];
    CutoffsWellFormed(pollutant);
    CutoffsCeiling(pollutant);
    CutoffsFloor(pollutant);
    CutoffsGapsNonNegative(pollutant);
    ScaleTiersAtMostCeiling(t, v);
    if v < t[0].low {
      assert t == Ozone1Hr;
      assert Interpolate(Ozone1Hr[0], Ozone1HrZero) == 0.0;
      InterpolateMonotone(Ozone1Hr[0], Ozone1HrZero, v);
    }
    ScaleTiersNonNegative(t, v);
  }

  /** The converse for one-hour ozone: every concentration from 0 up to
      `Ozone1HrZero` scales strictly below 0. */
  lemma Ozone1HrBelowZero(v: real)
    requires 0.0 <= v < Ozone1HrZero
    ensures ScaleReading("ozone_1hr", Conc(v)).Ok?
    ensures ScaleReading("ozone_1hr", Conc(v)).value.value < 0.0
  {
    assert Cutoffs["ozone_1hr"] == Ozone1Hr;
    ScaleSelectsTier("ozone_1hr", v, 0);
    assert Interpolate(Ozone1Hr[0], Ozone1HrZero) == 0.0;
    InterpolateMonotone(Ozone1Hr[0], v, Ozone1HrZero);
  }

  // ---------------------------------------------------------------------
  // The series path

  /** A successful series result has the input's length and order, and
      each element is what the single-reading path gives for that reading;
      a failing element makes the whole call fail with the first error. */
  lemma SeriesIsElementwise(pollutant: string, readings: seq<Reading>)
    ensures Scale(pollutant, Series(readings)).Ok? <==>
      forall i :: 0 <= i < |readings| ==> Scale(pollutant, Single(readings[i])).Ok?
    ensures Scale(pollutant, Series(readings)).Ok? ==>
      && |Scale(pollutant, Series(readings)).value.aqis| == |readings|
      && forall i :: 0 <= i < |readings| ==>
           Scale(pollutant, Single(readings[i])) == Ok(SingleOut(Scale(pollutant, Series(readings)).value.aqis[i]))
    ensures Scale(pollutant, Series(readings)).Err? ==> exists i ::
      && 0 <= i < |readings| && Scale(pollutant, Single(readings[i])) == Scale(pollutant, Series(readings))
      && forall j :: 0 <= j < i ==> Scale(pollutant, Single(readings[j])).Ok?
  {
    var r := ScaleSeries(pollutant, readings);
    assert forall i :: 0 <= i < |readings| ==>
      (Scale(pollutant, Single(readings[i])).Ok? <==> ScaleReading(pollutant, readings[i]).Ok?);
    if r.Err? {
      var i :| 0 <= i < |readings| && ScaleReading(pollutant, readings[i]) == Err(r.error)
        && forall j :: 0 <= j < i ==> ScaleReading(pollutant, readings[j]).Ok?;
      assert Scale(pollutant, Single(readings[i])) == Scale(pollutant, Series(readings));
    }
  }

  /** Because the series path runs before any check, an unknown key does
      not fail on an empty or all-missing series. */
  lemma SeriesOfMissingNeedsNoKey(pollutant: string, readings: seq<Reading>)
    requires forall i :: 0 <= i < |readings| ==> readings[i].Missing?
    ensures Scale(pollutant, Series(readings)) == Ok(SeriesOut(seq(|readings|, _ => MissingIndex)))
  {
    var r := ScaleSeries(pollutant, readings);
    assert r.Ok?;
    assert r.value == seq(|readings|, _ => MissingIndex);
  }

  /** Conversely, when every element scales without error, the series
      result is exactly the sequence of the element results. */
  lemma SeriesFromElements(pollutant: string, readings: seq<Reading>, aqis: seq<Aqi>)
    requires |aqis| == |readings|
    requires forall i :: 0 <= i < |readings| ==> ScaleReading(pollutant, readings[i]) == Ok(aqis[i])
    ensures Scale(pollutant, Series(readings)) == Ok(SeriesOut(aqis))
  {
    var r := ScaleSeries(pollutant, readings);
    assert r.Ok?;
    assert r.value == aqis;
  }

  // ---------------------------------------------------------------------
  // Scenarios from the repository's tests, as exact rationals

  /** PM2.5 18.84 scales to 90928/1315, the 69.14676806083651 of the tests. */
  lemma ScenarioPm25()
    ensures Scale("pm2.5_24hr", Single(Conc(18.84))) == Ok(SingleOut(Index(90928.0 / 1315.0, false)))
    ensures 69.146768 < 90928.0 / 1315.0 < 69.146769
  {
    assert Cutoffs["pm2.5_24hr"] == Pm25;
    ScaleSelectsTier("pm2.5_24hr", 18.84, 1);
    assert Interpolate(Pm25[1], 18.84) == 90928.0 / 1315.0;
  }

  /** NO2 300 scales to 35910/259, the 138.64864864864865 of the tests. */
  lemma ScenarioNitrogenDioxide()
    ensures Scale("nitrogen_dioxide_1hr", Single(Conc(300.0))) == Ok(SingleOut(Index(35910.0 / 259.0, false)))
    ensures 138.648648 < 35910.0 / 259.0 < 138.648649
  {
    assert Cutoffs["nitrogen_dioxide_1hr"] == NitrogenDioxide;
    ScaleSelectsTier("nitrogen_dioxide_1hr", 300.0, 2);
    assert Interpolate(NitrogenDioxide[2], 300.0) == 35910.0 / 259.0;
  }

  /** PM10 99999 is off the scale: 500 with the warning. */
  lemma ScenarioOffScale()
    ensures Scale("pm10_24hr", Single(Conc(99999.0))) == Ok(SingleOut(Index(500.0, true)))
  {
    ScaleSaturates("pm10_24hr", Conc(99999.0));
  }

  /** Missing readings, the unknown key and the negative value of the tests. */
  lemma ScenarioErrors()
    ensures Scale("sulfur_dioxide_1hr", Single(Missing)) == Ok(SingleOut(MissingIndex))
    ensures Scale("ozone_8hr", Single(Missing)) == Ok(SingleOut(MissingIndex))
    ensures Scale("invalid_pollutant", Single(Conc(999.0))) == Err(UnknownPollutant("invalid_pollutant"))
    ensures Message(UnknownPollutant("invalid_pollutant")) == "Unknown pollutant: invalid_pollutant"
    ensures Scale("carbon_monoxide_8hr", Single(Conc(-0.010))) == Err(NegativeValue)
  {
  }

  /** The four PM2.5 readings of the series test, one at a time. */
  lemma ScenarioSeriesFirst()
    ensures ScaleReading("pm2.5_24hr", Conc(5.0)) == Ok(Index(250.0 / 9.0, false))
  {
    assert Cutoffs["pm2.5_24hr"] == Pm25;
    ScaleSelectsTier("pm2.5_24hr", 5.0, 0);
    assert Interpolate(Pm25[0], 5.0) == 250.0 / 9.0;
  }

  lemma ScenarioSeriesSecond()
    ensures ScaleReading("pm2.5_24hr", Conc(9.0)) == Ok(Index(50.0, false))
  {
    ScaleAtCutoff("pm2.5_24hr", 0);
  }

  lemma ScenarioSeriesThird()
    ensures ScaleReading("pm2.5_24hr", Conc(30.0)) == Ok(Index(23654.0 / 263.0, false))
  {
    assert Cutoffs["pm2.5_24hr"] == Pm25;
    ScaleSelectsTier("pm2.5_24hr", 30.0, 1);
    assert Interpolate(Pm25[1], 30.0) == 23654.0 / 263.0;
  }

  lemma ScenarioSeriesFourth()
    ensures ScaleReading("pm2.5_24hr", Conc(60.0)) == Ok(Index(35918.0 / 233.0, false))
  {
    assert Cutoffs["pm2.5_24hr"] == Pm25;
    ScaleSelectsTier("pm2.5_24hr", 60.0, 3);
    assert Interpolate(Pm25[3], 60.0) == 35918.0 / 233.0;
  }

  /** The PM2.5 series [5, 9, 30, 60] scales element-wise to
      [250/9, 50, 23654/263, 35918/233], within 1e-6 of the tests'
      [27.777778, 50.0, 89.939163, 154.154506]. */
  lemma ScenarioSeries()
    ensures Scale("pm2.5_24hr", Series([Conc(5.0), Conc(9.0), Conc(30.0), Conc(60.0)]))
         == Ok(SeriesOut([Index(250.0 / 9.0, false), Index(50.0, false),
                          Index(23654.0 / 263.0, false), Index(35918.0 / 233.0, false)]))
    ensures 27.7777775 < 250.0 / 9.0 < 27.7777785
    ensures 89.9391625 < 23654.0 / 263.0 < 89.9391635
    ensures 154.1545055 < 35918.0 / 233.0 < 154.1545065
  {
    var readings := [Conc(5.0), Conc(9.0), Conc(30.0), Conc(60.0)];
    var expected := [Index(250.0 / 9.0, false), Index(50.0, false),
                     Index(23654.0 / 263.0, false), Index(35918.0 / 233.0, false)];
    forall i | 0 <= i < |readings|
      ensures ScaleReading("pm2.5_24hr", readings[i]) == Ok(expected[i])
    {
      if i == 0 {
        assert readings[i] == Conc(5.0);
        ScenarioSeriesFirst();
      } else if i == 1 {
        assert readings[i] == Conc(9.0);
        ScenarioSeriesSecond();
      } else if i == 2 {
        assert readings[i] == Conc(30.0);
        ScenarioSeriesThird();
      } else {
        assert readings[i] == Conc(60.0);
        ScenarioSeriesFourth();
      }
    }
    SeriesFromElements("pm2.5_24hr", readings, expected);
  }
}
