/** Piecewise-linear breakpoint tiers and the first-match scan that turns a
    concentration into an index value. Nothing here depends on a particular
    pollutant: the fixed tables live in module AqiTable. */
module Breakpoints {

  /** One linear segment of the concentration-to-index mapping. Field names
      follow the scaler's own loop variables: concentrations `low..cutoff`
      map onto index values `base..high`. */
  datatype Tier = Tier(cutoff: real, low: real, high: real, base: real)

  /** The scaler's answer for a reading that is present: an index value, and
      whether the "off the scale" warning was emitted for it. Missing readings
      give `MissingIndex`. */
  datatype Aqi = MissingIndex | Index(value: real, warned: bool)

  /** A tier's segment is non-degenerate in both directions. */
  predicate ProperTier(t: Tier) {
    t.low < t.cutoff && t.base < t.high
  }

  /** A usable tier list: non-empty, every tier proper and non-negative, and
      consecutive tiers separated: the next tier starts strictly above the
      previous tier's cutoff, and its base index strictly above the
      previous tier's high index. */
  predicate WellFormed(tiers: seq<Tier>) {
    && |tiers| > 0
    && (forall i :: 0 <= i < |tiers| ==> 0.0 <= tiers[i].low && 0.0 <= tiers[i].base && ProperTier(tiers[i]))
    && (forall i :: 0 < i < |tiers| ==> tiers[i - 1].cutoff < tiers[i].low && tiers[i - 1].high < tiers[i].base)
  }

  /** The last tier of a list, whose `high` is the saturating ceiling. */
  function Last(tiers: seq<Tier>): (t: Tier)
    requires |tiers| > 0
    ensures t in tiers
  {
    tiers[|tiers| - 1]
  }

  /** `v` lies inside the closed concentration range of tier `i`. */
  predicate InTier(tiers: seq<Tier>, i: int, v: real) {
    0 <= i < |tiers| && tiers[i].low <= v <= tiers[i].cutoff
  }

  /** `v` lies inside some tier's closed range (not in a gap between tiers,
      not below the first tier and not above the last). */
  predicate Covered(tiers: seq<Tier>, v: real) {
    exists i :: 0 <= i < |tiers| && InTier(tiers, i, v)
  }

  /** `v` exceeds every cutoff of the table. */
  predicate OffScale(tiers: seq<Tier>, v: real) {
    forall j :: 0 <= j < |tiers| ==> tiers[j].cutoff < v
  }

  /** The interpolation formula `(high-base)/(cutoff-low)*(value-low)+base`:
      the point at `v` on the line through `(low, base)` and `(cutoff, high)`. */
  function Interpolate(t: Tier, v: real): (r: real)
    requires t.low < t.cutoff
    ensures (r - t.base) * (t.cutoff - t.low) == (t.high - t.base) * (v - t.low)
  {
    (t.high - t.base) / (t.cutoff - t.low) * (v - t.low) + t.base
  }

  /** The scan over the tiers in list order: the position of the first tier
      whose cutoff is at least `v`, or `|tiers|` when there is none. */
  function FirstMatch(tiers: seq<Tier>, v: real): (k: nat)
    ensures k <= |tiers|
    ensures forall j :: 0 <= j < k ==> tiers[j].cutoff < v
    ensures k < |tiers| ==> v <= tiers[k].cutoff
  {
    if |tiers| == 0 then 0
    else if v <= tiers[0].cutoff then 0
    else 1 + FirstMatch(tiers[1..], v)
  }

  /** Scale a present, non-negative concentration over a tier list: the
      first tier whose cutoff reaches `v` interpolates it; when none does,
      the last tier's `high` is returned with the warning flag set. */
  function ScaleTiers(tiers: seq<Tier>, v: real): (r: Aqi)
    requires WellFormed(tiers)
    ensures r.Index?
    ensures r.warned <==> OffScale(tiers, v)
    ensures r.warned ==> r.value == Last(tiers).high
    ensures !r.warned ==> exists k ::
      && 0 <= k < |tiers| && v <= tiers[k].cutoff
      && (forall j :: 0 <= j < k ==> tiers[j].cutoff < v)
      && r.value == Interpolate(tiers[k], v)
  {
    var k := FirstMatch(tiers, v);
    if k < |tiers| then Index(Interpolate(tiers[k], v), false)
    else Index(Last(tiers).high, true)
  }

  // ---------------------------------------------------------------------
  // The interpolation on one tier

  /** At the tier's lower concentration the result is exactly its base. */
  lemma InterpolateAtLow(t: Tier)
    requires t.low < t.cutoff
    ensures Interpolate(t, t.low) == t.base
  {
  }

  /** At the tier's cutoff the result is exactly its high index. */
  lemma InterpolateAtCutoff(t: Tier)
    requires t.low < t.cutoff
    ensures Interpolate(t, t.cutoff) == t.high
  {
    var width := t.cutoff - t.low;
    assert (t.high - t.base) / width * width == t.high - t.base;
  }

  /** Within one tier the interpolation is non-decreasing in `v`, and
      strictly increasing when the tier's index range is proper. */
  lemma InterpolateMonotone(t: Tier, a: real, b: real)
    requires t.low < t.cutoff && t.base <= t.high
    requires a <= b
    ensures Interpolate(t, a) <= Interpolate(t, b)
    ensures t.base < t.high && a < b ==> Interpolate(t, a) < Interpolate(t, b)
  {
    var slope := (t.high - t.base) / (t.cutoff - t.low);
    assert 0.0 <= slope;
    assert slope * (b - t.low) - slope * (a - t.low) == slope * (b - a);
    assert 0.0 <= slope * (b - a);
    if t.base < t.high && a < b {
      assert 0.0 < slope;
      assert 0.0 < slope * (b - a);
    }
  }

  /** A concentration inside the tier's range gives an index inside the
      tier's index range; one below `low` gives an index below `base`. */
  lemma InterpolateBounds(t: Tier, v: real)
    requires ProperTier(t)
    ensures t.low <= v <= t.cutoff ==> t.base <= Interpolate(t, v) <= t.high
    ensures v < t.low ==> Interpolate(t, v) < t.base
  {
    InterpolateAtLow(t);
    InterpolateAtCutoff(t);
    if t.low <= v <= t.cutoff {
      InterpolateMonotone(t, t.low, v);
      InterpolateMonotone(t, v, t.cutoff);
    }
    if v < t.low {
      InterpolateMonotone(t, v, t.low);
    }
  }

  // ---------------------------------------------------------------------
  // Order facts of a well-formed tier list

  /** Cutoffs, lows, bases and highs all strictly increase along the list,
      and every tier's range lies strictly above every earlier tier's. */
  lemma {:induction false} TiersIncreasing(tiers: seq<Tier>, i: int, j: int)
    requires WellFormed(tiers)
    requires 0 <= i < j < |tiers|
    ensures tiers[i].cutoff < tiers[j].low && tiers[i].cutoff < tiers[j].cutoff
    ensures tiers[i].high < tiers[j].base && tiers[i].high < tiers[j].high
    decreases j - i
  {
    assert ProperTier(tiers[j]);
    if i < j - 1 {
      TiersIncreasing(tiers, i, j - 1);
      assert ProperTier(tiers[j - 1]);
    }
  }

  // ---------------------------------------------------------------------
  // Which tier the scan selects

  /** The selected tier is the one whose cutoff reaches `v` while the
      previous tier's cutoff does not: with increasing cutoffs that is the
      first tier in list order with `v <= cutoff`. */
  lemma ScaleTiersInTier(tiers: seq<Tier>, v: real, i: int)
    requires WellFormed(tiers)
    requires 0 <= i < |tiers| && v <= tiers[i].cutoff
    requires i == 0 || tiers[i - 1].cutoff < v
    ensures ScaleTiers(tiers, v) == Index(Interpolate(tiers[i], v), false)
  {
    var k := FirstMatch(tiers, v);
    if k < i {
      if k < i - 1 {
        TiersIncreasing(tiers, k, i - 1);
      }
      assert false;
    }
    if i < k {
      assert false;
    }
    assert k == i;
  }

  /** A value exactly equal to a tier's cutoff returns exactly that tier's
      high index, without warning (boundaries are closed at the top). */
  lemma ScaleTiersAtCutoff(tiers: seq<Tier>, i: int)
    requires WellFormed(tiers) && 0 <= i < |tiers|
    ensures ScaleTiers(tiers, tiers[i].cutoff) == Index(tiers[i].high, false)
  {
    if 0 < i {
      TiersIncreasing(tiers, i - 1, i);
    }
    ScaleTiersInTier(tiers, tiers[i].cutoff, i);
    InterpolateAtCutoff(tiers[i]);
  }

  /** A value exactly equal to a tier's low concentration returns exactly
      that tier's base index, without warning. */
  lemma ScaleTiersAtLow(tiers: seq<Tier>, i: int)
    requires WellFormed(tiers) && 0 <= i < |tiers|
    ensures ScaleTiers(tiers, tiers[i].low) == Index(tiers[i].base, false)
  {
    assert ProperTier(tiers[i]);
    ScaleTiersInTier(tiers, tiers[i].low, i);
    InterpolateAtLow(tiers[i]);
  }

  /** A value inside a tier's range is interpolated by that tier, and the
      result lies within the tier's index range. */
  lemma ScaleTiersCovered(tiers: seq<Tier>, v: real, i: int)
    requires WellFormed(tiers) && InTier(tiers, i, v)
    ensures ScaleTiers(tiers, v) == Index(Interpolate(tiers[i], v), false)
    ensures tiers[i].base <= ScaleTiers(tiers, v).value <= tiers[i].high
  {
    assert ProperTier(tiers[i]);
    ScaleTiersInTier(tiers, v, i);
    InterpolateBounds(tiers[i], v);
  }

  /** A value strictly between tier `i`'s cutoff and tier `i+1`'s low falls
      into tier `i+1` below its low end, so it is extrapolated to an index
      strictly below that tier's base. */
  lemma ScaleTiersInGap(tiers: seq<Tier>, v: real, i: int)
    requires WellFormed(tiers) && 0 <= i < |tiers| - 1
    requires tiers[i].cutoff < v < tiers[i + 1].low
    ensures ScaleTiers(tiers, v) == Index(Interpolate(tiers[i + 1], v), false)
    ensures ScaleTiers(tiers, v).value < tiers[i + 1].base
  {
    assert ProperTier(tiers[i + 1]);
    ScaleTiersInTier(tiers, v, i + 1);
    InterpolateBounds(tiers[i + 1], v);
  }

  /** The last tier's cutoff and high index are the largest of the list. */
  lemma LastIsLargest(tiers: seq<Tier>)
    requires WellFormed(tiers)
    ensures forall i :: 0 <= i < |tiers| ==> tiers[i].cutoff <= Last(tiers).cutoff && tiers[i].high <= Last(tiers).high
  {
    forall i | 0 <= i < |tiers| - 1
      ensures tiers[i].cutoff <= Last(tiers).cutoff && tiers[i].high <= Last(tiers).high
    {
      TiersIncreasing(tiers, i, |tiers| - 1);
    }
  }

  /** Above the last cutoff the result saturates at the last tier's high
      index and carries the warning; the warning is emitted on no other
      input. */
  lemma ScaleTiersSaturates(tiers: seq<Tier>, v: real)
    requires WellFormed(tiers)
    ensures ScaleTiers(tiers, v).warned <==> Last(tiers).cutoff < v
    ensures Last(tiers).cutoff < v ==> ScaleTiers(tiers, v) == Index(Last(tiers).high, true)
  {
    LastIsLargest(tiers);
  }

  /** Every index the scan produces, for any value, is at most the
      saturating ceiling: a value in a gap or below the first tier is
      extrapolated below the selected tier's high. */
  lemma ScaleTiersAtMostCeiling(tiers: seq<Tier>, v: real)
    requires WellFormed(tiers)
    ensures ScaleTiers(tiers, v).value <= Last(tiers).high
  {
    var k := FirstMatch(tiers, v);
    if k < |tiers| {
      assert ProperTier(tiers[k]);
      InterpolateMonotone(tiers[k], v, tiers[k].cutoff);
      InterpolateAtCutoff(tiers[k]);
      if k < |tiers| - 1 {
        TiersIncreasing(tiers, k, |tiers| - 1);
      }
    }
  }

  /** The extrapolation into each gap stays non-negative: tier `i`
      evaluated at the previous tier's cutoff is at least 0. */
  predicate GapsNonNegative(tiers: seq<Tier>) {
    forall i :: 0 < i < |tiers| ==>
      tiers[i].low < tiers[i].cutoff && 0.0 <= Interpolate(tiers[i], tiers[i - 1].cutoff)
  }

  /** Every index the scan produces is at least 0, provided the gaps stay
      non-negative and so does the first tier's extrapolation below its
      low end. */
  lemma ScaleTiersNonNegative(tiers: seq<Tier>, v: real)
    requires WellFormed(tiers) && GapsNonNegative(tiers)
    requires v < tiers[0].low ==> tiers[0].low < tiers[0].cutoff && 0.0 <= Interpolate(tiers[0], v)
    ensures 0.0 <= ScaleTiers(tiers, v).value
  {
    var k := FirstMatch(tiers, v);
    if k < |tiers| {
      assert ProperTier(tiers[k]);
      if tiers[k].low <= v {
        InterpolateBounds(tiers[k], v);
      } else if 0 < k {
        InterpolateMonotone(tiers[k], tiers[k - 1].cutoff, v);
      }
    } else {
      assert ProperTier(Last(tiers));
    }
  }

  /** Whenever the larger value lies in some tier's range, or beyond the
      last cutoff, the scale is non-decreasing; the smaller value may lie
      anywhere. (A larger value in a gap between tiers is excluded: see
      ScaleTiersInGap.) */
  lemma ScaleTiersMonotone(tiers: seq<Tier>, a: real, b: real)
    requires WellFormed(tiers)
    requires Covered(tiers, b) || Last(tiers).cutoff < b
    requires a <= b
    ensures ScaleTiers(tiers, a).value <= ScaleTiers(tiers, b).value
  {
    ScaleTiersSaturates(tiers, a);
    ScaleTiersSaturates(tiers, b);
    if Last(tiers).cutoff < b {
      ScaleTiersAtMostCeiling(tiers, a);
    } else {
      var j :| InTier(tiers, j, b);
      ScaleTiersCovered(tiers, b, j);
      var k := FirstMatch(tiers, a);
      assert k <= j;
      assert ProperTier(tiers[k]);
      if k == j {
        InterpolateMonotone(tiers[j], a, b);
      } else {
        InterpolateMonotone(tiers[k], a, tiers[k].cutoff);
        InterpolateAtCutoff(tiers[k]);
        TiersIncreasing(tiers, k, j);
      }
    }
  }
}
