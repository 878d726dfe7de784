/** The fixed breakpoint tables of the scaler, one ordered tier list per
    pollutant-and-averaging-period key, after the EPA AQI Technical
    Assistance Document (September 2018) with the PM2.5 tiers of the 2024
    revision. Each tier is written `Tier(cutoff, low, high, base)`. */
module AqiTable {
  import opened Breakpoints

  const Pm10: seq<Tier> := [
    Tier(54.0, 0.0, 50.0, 0.0),
    Tier(154.0, 55.0, 100.0, 51.0),
    Tier(254.0, 155.0, 150.0, 101.0),
    Tier(354.0, 255.0, 200.0, 151.0),
    Tier(424.0, 355.0, 300.0, 201.0),
    Tier(604.0, 425.0, 500.0, 301.0)
  ]

  const Pm25: seq<Tier> := [
    Tier(9.0, 0.0, 50.0, 0.0),
    Tier(35.4, 9.1, 100.0, 51.0),
    Tier(55.4, 35.5, 150.0, 101.0),
    Tier(125.4, 55.5, 200.0, 151.0),
    Tier(225.4, 125.5, 300.0, 201.0),
    Tier(500.0, 225.5, 500.0, 301.0)
  ]

  const CarbonMonoxide: seq<Tier> := [
    Tier(4.4, 0.0, 50.0, 0.0),
    Tier(9.4, 4.5, 100.0, 51.0),
    Tier(12.4, 9.5, 150.0, 101.0),
    Tier(15.4, 12.5, 200.0, 151.0),
    Tier(30.4, 15.5, 300.0, 201.0),
    Tier(50.4, 30.5, 500.0, 301.0)
  ]

  const SulfurDioxide: seq<Tier> := [
    Tier(35.0, 0.0, 50.0, 0.0),
    Tier(75.0, 36.0, 100.0, 51.0),
    Tier(185.0, 76.0, 150.0, 101.0),
    Tier(304.0, 186.0, 200.0, 151.0),
    Tier(604.0, 305.0, 300.0, 201.0),
    Tier(1004.0, 605.0, 500.0, 301.0)
  ]

  const NitrogenDioxide: seq<Tier> := [
    Tier(53.0, 0.0, 50.0, 0.0),
    Tier(100.0, 54.0, 100.0, 51.0),
    Tier(360.0, 101.0, 150.0, 101.0),
    Tier(649.0, 361.0, 200.0, 151.0),
    Tier(1249.0, 650.0, 300.0, 201.0),
    Tier(2049.0, 1250.0, 500.0, 301.0)
  ]

  /** The two lowest tiers of one-hour ozone are not defined. */
  const Ozone1Hr: seq<Tier> := [
    Tier(0.164, 0.125, 150.0, 101.0),
    Tier(0.204, 0.165, 200.0, 151.0),
    Tier(0.404, 0.205, 300.0, 201.0),
    Tier(0.604, 0.405, 500.0, 301.0)
  ]

  /** The top tier of eight-hour ozone is not defined. */
  const Ozone8Hr: seq<Tier> := [
    Tier(0.054, 0.0, 50.0, 0.0),
    Tier(0.070, 0.055, 100.0, 51.0),
    Tier(0.085, 0.071, 150.0, 101.0),
    Tier(0.105, 0.086, 200.0, 151.0),
    Tier(0.200, 0.106, 300.0, 201.0)
  ]

  /** The pollutant table, keyed by pollutant and averaging period. */
  const Cutoffs: map<string, seq<Tier>> := map[
    "pm10_24hr" := Pm10,
    "pm2.5_24hr" := Pm25,
    "carbon_monoxide_8hr" := CarbonMonoxide,
    "sulfur_dioxide_1hr" := SulfurDioxide,
    "nitrogen_dioxide_1hr" := NitrogenDioxide,
    "ozone_1hr" := Ozone1Hr,
    "ozone_8hr" := Ozone8Hr
  ]

  /** The step between one tier's cutoff and the next tier's low: the
      resolution at which each pollutant's concentrations are reported. */
  function Resolution(key: string): real {
    if key in {"pm10_24hr", "sulfur_dioxide_1hr", "nitrogen_dioxide_1hr"} then 1.0
    else if key in {"pm2.5_24hr", "carbon_monoxide_8hr"} then 0.1
    else 0.001
  }

  /** The tiers are contiguous at the key's resolution: each tier starts one
      resolution step above the previous cutoff, and one index point above
      the previous tier's high index. */
  predicate Contiguous(tiers: seq<Tier>, step: real) {
    forall i :: 0 < i < |tiers| ==>
      tiers[i].low == tiers[i - 1].cutoff + step && tiers[i].base == tiers[i - 1].high + 1.0
  }

  /** The table holds exactly these seven keys. */
  lemma CutoffsKeys()
    ensures Cutoffs.Keys == {"pm10_24hr", "pm2.5_24hr", "carbon_monoxide_8hr", "sulfur_dioxide_1hr",
                             "nitrogen_dioxide_1hr", "ozone_1hr", "ozone_8hr"}
  {
  }

  /** Every proper-tier, non-negative, contiguous tier list with a positive
      step is well formed. */
  lemma ContiguousWellFormed(tiers: seq<Tier>, step: real)
    requires |tiers| > 0 && 0.0 < step && Contiguous(tiers, step)
    requires forall i :: 0 <= i < |tiers| ==> 0.0 <= tiers[i].low && 0.0 <= tiers[i].base && ProperTier(tiers[i])
    ensures WellFormed(tiers)
  {
  }

  /** Well-formedness and contiguity of every table in the map: each tier
      has `cutoff > low` and `high > base`, and cutoffs strictly increase
      along each list. */
  lemma CutoffsWellFormed(key: string)
    requires key in Cutoffs
    ensures WellFormed(Cutoffs[key])
    ensures Contiguous(Cutoffs[key], Resolution(key))
  {
    var t := Cutoffs[key];
    var step := Resolution(key);
    assert Contiguous(t, step) by {
      forall i | 0 < i < |t|
        ensures t[i].low == t[i - 1].cutoff + step && t[i].base == t[i - 1].high + 1.0
      {
        if key == "pm10_24hr" {
          assert t == Pm10;
        } else if key == "pm2.5_24hr" {
          assert t == Pm25;
        } else if key == "carbon_monoxide_8hr" {
          assert t == CarbonMonoxide;
        } else if key == "sulfur_dioxide_1hr" {
          assert t == SulfurDioxide;
        } else if key == "nitrogen_dioxide_1hr" {
          assert t == NitrogenDioxide;
        } else if key == "ozone_1hr" {
          assert t == Ozone1Hr;
        } else {
          assert t == Ozone8Hr;
        }
      }
    }
    ContiguousWellFormed(t, step);
  }

  /** In every table, the tier after a gap evaluated at the cutoff before
      the gap is still non-negative, so extrapolation into a gap never
      drops below 0. */
  lemma CutoffsGapsNonNegative(key: string)
    requires key in Cutoffs
    ensures GapsNonNegative(Cutoffs[key])
  {
    var t := Cutoffs[key];
    forall i | 0 < i < |t|
      ensures t[i].low < t[i].cutoff && 0.0 <= Interpolate(t[i], t[i - 1].cutoff)
    {
      if key == "pm10_24hr" {
        assert t == Pm10;
      } else if key == "pm2.5_24hr" {
        assert t == Pm25;
      } else if key == "carbon_monoxide_8hr" {
        assert t == CarbonMonoxide;
      } else if key == "sulfur_dioxide_1hr" {
        assert t == SulfurDioxide;
      } else if key == "nitrogen_dioxide_1hr" {
        assert t == NitrogenDioxide;
      } else if key == "ozone_1hr" {
        assert t == Ozone1Hr;
      } else {
        assert t == Ozone8Hr;
      }
    }
  }

  /** The saturating ceiling: 500 for every key except eight-hour ozone,
      whose top tier is absent, which saturates at 300. */
  lemma CutoffsCeiling(key: string)
    requires key in Cutoffs
    ensures |Cutoffs[key]| > 0
    ensures Last(Cutoffs[key]).high == if key == "ozone_8hr" then 300.0 else 500.0
  {
  }

  /** Every table except one-hour ozone starts at concentration 0 with
      index 0; one-hour ozone starts at 0.125 with index 101. */
  lemma CutoffsFloor(key: string)
    requires key in Cutoffs
    ensures |Cutoffs[key]| > 0
    ensures key != "ozone_1hr" ==> Cutoffs[key][0].low == 0.0 && Cutoffs[key][0].base == 0.0
    ensures key == "ozone_1hr" ==> Cutoffs[key][0].low == 0.125 && Cutoffs[key][0].base == 101.0
  {
  }
}
