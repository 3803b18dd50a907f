/**
 * The two rescaling helpers of the force layout (actions/scaleValue.js):
 * `toRange`, a linear map from a domain interval onto a range interval, and
 * `toRangeWithGap`, which maps each half of the domain onto one half of the
 * range and keeps a band of width `gap` around the middle of the range empty.
 *
 * JavaScript divides by zero without failing and produces NaN or an infinity;
 * that non-finite result is `None` here.
 */
module Scaling {
  import opened Optional

  /** A `{ min, max }` object, used both as a domain and as a range. */
  datatype Interval = Interval(min: real, max: real)

  function Width(i: Interval): real
  {
    i.max - i.min
  }

  /** `i.min + (i.max - i.min) / 2`: `halfDomain` and `halfRange` in `toRangeWithGap`. */
  function Mid(i: Interval): real
  {
    i.min + Width(i) / 2.0
  }

  /** `toRange(value, domain, range)`. */
  function ToRange(value: real, domain: Interval, range: Interval): (r: Option<real>)
    ensures r.None? <==> domain.max == domain.min
  {
    if domain.max == domain.min then None
    else Some(((value - domain.min) / Width(domain)) * Width(range) + range.min)
  }

  /** The domain half `toRangeWithGap` uses below the midpoint, and its target. */
  function LowerDomain(domain: Interval): Interval
  {
    Interval(domain.min, Mid(domain))
  }

  function LowerRange(range: Interval, gap: real): Interval
  {
    Interval(range.min, Mid(range) - gap / 2.0)
  }

  /** The domain half `toRangeWithGap` uses from the midpoint on, and its target. */
  function UpperDomain(domain: Interval): Interval
  {
    Interval(Mid(domain), domain.max)
  }

  function UpperRange(range: Interval, gap: real): Interval
  {
    Interval(Mid(range) + gap / 2.0, range.max)
  }

  /** `toRangeWithGap(value, domain, range, gap)`. */
  function ToRangeWithGap(value: real, domain: Interval, range: Interval, gap: real): (r: Option<real>)
  {
    if value < Mid(domain) then ToRange(value, LowerDomain(domain), LowerRange(range, gap))
    else ToRange(value, UpperDomain(domain), UpperRange(range, gap))
  }

  // ----- arithmetic helpers -----

  lemma FractionInUnit(a: real, w: real)
    requires w > 0.0 && 0.0 <= a <= w
    ensures 0.0 <= a / w <= 1.0
    ensures a < w ==> a / w < 1.0
  {
    assert (a / w) * w == a;
  }

  lemma DivSelf(w: real)
    requires w != 0.0
    ensures w / w == 1.0
  {
  }

  lemma ScaledFraction(t: real, c: real)
    requires 0.0 <= t <= 1.0 && c >= 0.0
    ensures 0.0 <= t * c <= c
  {
    assert c - t * c == (1.0 - t) * c;
  }

  lemma FractionMonotone(a: real, b: real, w: real)
    requires w > 0.0 && a <= b
    ensures a / w <= b / w
  {
    assert b / w - a / w == (b - a) / w;
  }

  lemma ScaleMonotone(s: real, t: real, c: real)
    requires s <= t && c >= 0.0
    ensures s * c <= t * c
  {
    assert t * c - s * c == (t - s) * c;
  }

  // ----- toRange -----

  /** `toRange` sends the bottom of the domain to the bottom of the range. */
  lemma ToRangeAtMin(domain: Interval, range: Interval)
    requires domain.max != domain.min
    ensures ToRange(domain.min, domain, range) == Some(range.min)
  {
  }

  /** `toRange` sends the top of a non-degenerate domain to the top of the range. */
  lemma ToRangeAtMax(domain: Interval, range: Interval)
    requires domain.max != domain.min
    ensures ToRange(domain.max, domain, range) == Some(range.max)
  {
    var w := Width(domain);
    var t := (domain.max - domain.min) / w;
    assert t == 1.0 by {
      assert domain.max - domain.min == w;
      DivSelf(w);
    }
    assert ToRange(domain.max, domain, range).value == t * Width(range) + range.min;
    assert t * Width(range) == Width(range);
    assert Width(range) + range.min == range.max;
    assert ToRange(domain.max, domain, range).value == range.max;
  }

  /** Over an increasing domain and a non-decreasing range, `toRange` keeps the order of its inputs. */
  lemma {:induction false} ToRangeMonotone(v1: real, v2: real, domain: Interval, range: Interval)
    requires domain.min < domain.max && range.min <= range.max
    requires v1 <= v2
    ensures ToRange(v1, domain, range).Some? && ToRange(v2, domain, range).Some?
    ensures ToRange(v1, domain, range).value <= ToRange(v2, domain, range).value
  {
    FractionMonotone(v1 - domain.min, v2 - domain.min, Width(domain));
    ScaleMonotone((v1 - domain.min) / Width(domain), (v2 - domain.min) / Width(domain), Width(range));
  }

  /** A value inside the domain lands inside the range (below its top when it is below the domain's top). */
  lemma {:induction false} ToRangeInRange(value: real, domain: Interval, range: Interval)
    requires domain.min < domain.max && range.min <= range.max
    requires domain.min <= value <= domain.max
    ensures ToRange(value, domain, range).Some?
    ensures range.min <= ToRange(value, domain, range).value <= range.max
  {
    var t := (value - domain.min) / Width(domain);
    FractionInUnit(value - domain.min, Width(domain));
    ScaledFraction(t, Width(range));
  }

  // ----- toRangeWithGap -----

  lemma MidBetween(i: Interval)
    requires i.min < i.max
    ensures i.min < Mid(i) < i.max
  {
  }

  /** `toRangeWithGap` fails to be finite exactly when `toRange` does: on a degenerate domain. */
  lemma ToRangeWithGapFinite(value: real, domain: Interval, range: Interval, gap: real)
    ensures ToRangeWithGap(value, domain, range, gap).None? <==> domain.max == domain.min
  {
  }

  /**
   * Below the domain midpoint `toRangeWithGap` is `toRange` onto
   * `[range.min, halfRange - gap/2]`, and it stays inside that interval.
   */
  lemma {:induction false} ToRangeWithGapLower(value: real, domain: Interval, range: Interval, gap: real)
    requires domain.min < domain.max && 0.0 <= gap <= Width(range)
    requires domain.min <= value < Mid(domain)
    ensures ToRangeWithGap(value, domain, range, gap) == ToRange(value, LowerDomain(domain), LowerRange(range, gap))
    ensures ToRangeWithGap(value, domain, range, gap).Some?
    ensures range.min <= ToRangeWithGap(value, domain, range, gap).value <= Mid(range) - gap / 2.0
  {
    MidBetween(domain);
    ToRangeInRange(value, LowerDomain(domain), LowerRange(range, gap));
  }

  /**
   * From the domain midpoint on `toRangeWithGap` is `toRange` onto
   * `[halfRange + gap/2, range.max]`, and it stays inside that interval.
   */
  lemma {:induction false} ToRangeWithGapUpper(value: real, domain: Interval, range: Interval, gap: real)
    requires domain.min < domain.max && 0.0 <= gap <= Width(range)
    requires Mid(domain) <= value <= domain.max
    ensures ToRangeWithGap(value, domain, range, gap) == ToRange(value, UpperDomain(domain), UpperRange(range, gap))
    ensures ToRangeWithGap(value, domain, range, gap).Some?
    ensures Mid(range) + gap / 2.0 <= ToRangeWithGap(value, domain, range, gap).value <= range.max
  {
    MidBetween(domain);
    ToRangeInRange(value, UpperDomain(domain), UpperRange(range, gap));
  }

  /** The ends of the domain still go to the ends of the range. */
  lemma {:induction false} ToRangeWithGapEnds(domain: Interval, range: Interval, gap: real)
    requires domain.min < domain.max
    ensures ToRangeWithGap(domain.min, domain, range, gap) == Some(range.min)
    ensures ToRangeWithGap(domain.max, domain, range, gap) == Some(range.max)
  {
    MidBetween(domain);
    ToRangeAtMin(LowerDomain(domain), LowerRange(range, gap));
    ToRangeAtMax(UpperDomain(domain), UpperRange(range, gap));
  }

  /** For a value in the domain and a positive gap, nothing lands strictly inside the gap. */
  lemma {:induction false} ToRangeWithGapAvoidsGap(value: real, domain: Interval, range: Interval, gap: real)
    requires domain.min < domain.max && 0.0 < gap <= Width(range)
    requires domain.min <= value <= domain.max
    ensures ToRangeWithGap(value, domain, range, gap).Some?
    ensures var r := ToRangeWithGap(value, domain, range, gap).value;
      r <= Mid(range) - gap / 2.0 || Mid(range) + gap / 2.0 <= r
  {
    if value < Mid(domain) {
      ToRangeWithGapLower(value, domain, range, gap);
    } else {
      ToRangeWithGapUpper(value, domain, range, gap);
    }
  }

  /** Across the two halves the split map still keeps the order of its inputs. */
  lemma {:induction false} ToRangeWithGapMonotone(v1: real, v2: real, domain: Interval, range: Interval, gap: real)
    requires domain.min < domain.max && 0.0 <= gap <= Width(range)
    requires domain.min <= v1 <= v2 <= domain.max
    ensures ToRangeWithGap(v1, domain, range, gap).Some? && ToRangeWithGap(v2, domain, range, gap).Some?
    ensures ToRangeWithGap(v1, domain, range, gap).value <= ToRangeWithGap(v2, domain, range, gap).value
  {
    MidBetween(domain);
    if v2 < Mid(domain) {
      ToRangeWithGapLower(v1, domain, range, gap);
      ToRangeWithGapLower(v2, domain, range, gap);
      ToRangeMonotone(v1, v2, LowerDomain(domain), LowerRange(range, gap));
    } else if Mid(domain) <= v1 {
      ToRangeWithGapUpper(v1, domain, range, gap);
      ToRangeWithGapUpper(v2, domain, range, gap);
      ToRangeMonotone(v1, v2, UpperDomain(domain), UpperRange(range, gap));
    } else {
      ToRangeWithGapLower(v1, domain, range, gap);
      ToRangeWithGapUpper(v2, domain, range, gap);
    }
  }
}
