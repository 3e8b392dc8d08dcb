// `OpRange`: a node's numeric range and the linear map between a ratio in
// [0, 1] and a value in that range, used by every ratio-valued camera
// setting.

module OpRange {
  import opened Wrappers

  /** A range `[min, max]` of a floating-point node. */
  datatype OpRange = OpRange(min: real, max: real) {

    /** `to_value`: the ratio scaled onto the range. */
    function ToValue(ratio: real): (v: real)
      ensures ratio == 0.0 ==> v == min
      ensures ratio == 1.0 ==> v == max
    {
      ratio * (max - min) + min
    }

    /** `to_ratio`: where `v` lies on the range, as a fraction of its
        width. A range of zero width divides by zero: the floating-point
        result is not a number when `v` is the bound and an infinity
        otherwise; both are modelled as `None`. */
    function ToRatio(v: real): (r: Option<real>)
      ensures r.None? <==> min == max
      ensures r.Some? && v == min ==> r.value == 0.0
    {
      if min == max then None else Some((v - min) / (max - min))
    }
  }

  /** Scaling a ratio onto a range and reading it back gives the ratio. */
  lemma RatioRoundTrip(range: OpRange, ratio: real)
    requires range.min != range.max
    ensures range.ToRatio(range.ToValue(ratio)) == Some(ratio)
  {
    var w := range.max - range.min;
    assert range.ToValue(ratio) - range.min == ratio * w;
    assert ratio * w / w == ratio;
  }

  /** Reading a value as a ratio and scaling it back gives the value. */
  lemma ValueRoundTrip(range: OpRange, v: real)
    requires range.min != range.max
    ensures range.ToValue(range.ToRatio(v).value) == v
  {
    var w := range.max - range.min;
    var r := (v - range.min) / w;
    assert r * w == v - range.min;
  }

  /** On a range with `min <= max`, ratios in [0, 1] map into the range,
      in order. */
  lemma ToValueBounds(range: OpRange, ratio: real, other: real)
    requires range.min <= range.max
    requires 0.0 <= ratio <= 1.0
    ensures range.min <= range.ToValue(ratio) <= range.max
    ensures ratio <= other ==> range.ToValue(ratio) <= range.ToValue(other)
  {
    var w := range.max - range.min;
    assert 0.0 <= ratio * w by { NonNegativeProduct(ratio, w); }
    assert ratio * w <= w by {
      NonNegativeProduct(1.0 - ratio, w);
      assert (1.0 - ratio) * w == w - ratio * w;
    }
    assert range.ToValue(ratio) == ratio * w + range.min;
    if ratio <= other {
      NonNegativeProduct(other - ratio, w);
      assert ratio * w <= other * w;
    }
  }

  lemma NonNegativeProduct(a: real, b: real)
    requires 0.0 <= a && 0.0 <= b
    ensures 0.0 <= a * b
  {
  }

  /** The ends of a range of non-zero width read as ratios 0 and 1. */
  lemma RatioEnds(range: OpRange)
    requires range.min != range.max
    ensures range.ToRatio(range.min) == Some(0.0)
    ensures range.ToRatio(range.max) == Some(1.0)
  {
    var w := range.max - range.min;
    assert w / w == 1.0;
  }

  /** On a range with `min < max`, exactly the values inside the range
      read as ratios in [0, 1]. */
  lemma ToRatioBounds(range: OpRange, v: real)
    requires range.min < range.max
    ensures 0.0 <= range.ToRatio(v).value <= 1.0 <==> range.min <= v <= range.max
  {
    var w := range.max - range.min;
    var r := (v - range.min) / w;
    assert r * w == v - range.min;
    if 0.0 <= r <= 1.0 {
      assert 0.0 <= r * w <= w;
    }
  }
}
