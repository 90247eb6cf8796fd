/** The two linear maps between a domain value and the thumb's pixel
    offset (src/Slider.js, `_getThumbLeft` and `_getValue`), over exact
    reals. */
module ValueMapping {

  /** JavaScript's `Math.round`: the nearest integer, halves rounding
      toward positive infinity. */
  function JsRound(x: real): (k: int)
    ensures k as real - 0.5 <= x < k as real + 0.5
  {
    (x + 0.5).Floor
  }

  /** `Math.round` is determined by its bounds: the integer within half of
      `x`, halves upward, is the only one it can return. */
  lemma JsRoundUnique(x: real, k: int)
    requires k as real - 0.5 <= x < k as real + 0.5
    ensures JsRound(x) == k
  {
  }

  lemma JsRoundMonotone(x: real, y: real)
    requires x <= y
    ensures JsRound(x) <= JsRound(y)
  {
  }

  /** `Math.max(lo, Math.min(hi, x))`. */
  function Clamp(lo: real, hi: real, x: real): (r: real)
    ensures lo <= hi ==> lo <= r <= hi
    ensures lo <= hi && lo <= x <= hi ==> r == x
    ensures r == lo || r == hi || r == x
    ensures x <= lo ==> r == lo
    ensures lo <= hi <= x ==> r == hi
  {
    var m := if hi < x then hi else x;
    if lo > m then lo else m
  }

  lemma ClampMonotone(lo: real, hi: real, x: real, y: real)
    requires x <= y
    ensures Clamp(lo, hi, x) <= Clamp(lo, hi, y)
  {
  }

  /** Clamping moves a value toward any point of the range, so its distance
      to a point in range never grows. */
  lemma ClampNoFurther(lo: real, hi: real, v: real, x: real, bound: real)
    requires lo <= v <= hi
    requires -bound <= x - v <= bound
    ensures -bound <= Clamp(lo, hi, x) - v <= bound
  {
  }

  /** `_getThumbLeft`: the pixel offset of the thumb for `value`, out of the
      `containerWidth - thumbWidth` pixels the thumb can travel: offset and
      travel stand in the proportion of `value - minimumValue` to the
      range. */
  function ThumbLeft(minimumValue: real, maximumValue: real,
                     containerWidth: real, thumbWidth: real, value: real): (left: real)
    requires maximumValue - minimumValue != 0.0
    ensures left * (maximumValue - minimumValue) == (value - minimumValue) * (containerWidth - thumbWidth)
  {
    var distance := maximumValue - minimumValue;
    var ratio := (value - minimumValue) / distance;
    ratio * (containerWidth - thumbWidth)
  }

  /** `_getValue`: the domain value for the thumb offset `previousLeft + dx`.
      A non-zero `step` quantises to `minimumValue + k * step`; the result is
      then clamped to the range. */
  function GetValue(minimumValue: real, maximumValue: real, step: real,
                    previousLeft: real, dx: real,
                    containerWidth: real, thumbWidth: real): (r: real)
    requires containerWidth - thumbWidth != 0.0
    ensures minimumValue <= maximumValue ==> minimumValue <= r <= maximumValue
  {
    var thumbLeft := previousLeft + dx;
    var length := containerWidth - thumbWidth;
    var ratio := thumbLeft / length;
    var distance := maximumValue - minimumValue;
    if step != 0.0 then
      var stepLength := (ratio * distance) / step;
      var nearestStep := minimumValue + JsRound(stepLength) as real * step;
      Clamp(minimumValue, maximumValue, nearestStep)
    else
      Clamp(minimumValue, maximumValue, ratio * (maximumValue - minimumValue) + minimumValue)
  }

  /** The step count `_getValue` rounds to, before clamping. */
  function NearestStepIndex(minimumValue: real, maximumValue: real, step: real,
                            previousLeft: real, dx: real,
                            containerWidth: real, thumbWidth: real): int
    requires containerWidth - thumbWidth != 0.0
    requires step != 0.0
  {
    var ratio := (previousLeft + dx) / (containerWidth - thumbWidth);
    JsRound((ratio * (maximumValue - minimumValue)) / step)
  }

  /** The `k`-th value of the grid of steps through `minimumValue`. */
  function GridPoint(minimumValue: real, step: real, k: int): real
  {
    minimumValue + k as real * step
  }

  /** `_getValue` in terms of the quantised step count. */
  lemma GetValueStepped(minimumValue: real, maximumValue: real, step: real,
                        previousLeft: real, dx: real,
                        containerWidth: real, thumbWidth: real)
    requires containerWidth - thumbWidth != 0.0
    requires step != 0.0
    ensures GetValue(minimumValue, maximumValue, step, previousLeft, dx, containerWidth, thumbWidth)
            == Clamp(minimumValue, maximumValue,
                     GridPoint(minimumValue, step,
                               NearestStepIndex(minimumValue, maximumValue, step, previousLeft, dx,
                                                containerWidth, thumbWidth)))
  {
  }

  /** Division by a positive number keeps the order. */
  lemma DivideMonotone(a: real, b: real, c: real)
    requires a <= b
    requires c > 0.0
    ensures a / c <= b / c
  {
  }

  /** Division by a negative number reverses the order. */
  lemma DivideAntitone(a: real, b: real, c: real)
    requires a <= b
    requires c < 0.0
    ensures b / c <= a / c
  {
    DivideMonotone(a, b, -c);
    assert a / c == -(a / -c) && b / c == -(b / -c);
  }

  lemma DivideCancels(x: real, d: real)
    requires d != 0.0
    ensures (x / d) * d == x
    ensures (x * d) / d == x
  {
  }

  /** Forces the solver to equate two roundings whose arguments it would
      otherwise normalise into different shapes. */
  lemma JsRoundCongruent(x: real, y: real)
    requires x == y
    ensures JsRound(x) == JsRound(y)
  {
  }

  /** The step count as a closed formula. */
  lemma NearestStepIndexIs(minimumValue: real, maximumValue: real, step: real,
                           previousLeft: real, dx: real,
                           containerWidth: real, thumbWidth: real)
    requires containerWidth - thumbWidth != 0.0
    requires step != 0.0
    ensures NearestStepIndex(minimumValue, maximumValue, step, previousLeft, dx, containerWidth, thumbWidth)
            == JsRound((((previousLeft + dx) / (containerWidth - thumbWidth))
                        * (maximumValue - minimumValue)) / step)
  {
  }

  /** Where the thumb sits for `v`, the offset-to-length ratio is the
      fraction of the range that `v` covers. */
  lemma RatioAtThumbLeft(minimumValue: real, maximumValue: real,
                         containerWidth: real, thumbWidth: real, v: real, offset: real)
    requires maximumValue - minimumValue != 0.0
    requires containerWidth - thumbWidth != 0.0
    requires offset == ThumbLeft(minimumValue, maximumValue, containerWidth, thumbWidth, v)
    ensures offset / (containerWidth - thumbWidth) == (v - minimumValue) / (maximumValue - minimumValue)
    ensures (offset / (containerWidth - thumbWidth)) * (maximumValue - minimumValue) == v - minimumValue
  {
  }

  lemma ThumbLeftAtMinimum(minimumValue: real, maximumValue: real,
                           containerWidth: real, thumbWidth: real)
    requires maximumValue - minimumValue != 0.0
    ensures ThumbLeft(minimumValue, maximumValue, containerWidth, thumbWidth, minimumValue) == 0.0
  {
  }

  lemma ThumbLeftAtMaximum(minimumValue: real, maximumValue: real,
                           containerWidth: real, thumbWidth: real)
    requires maximumValue - minimumValue != 0.0
    ensures ThumbLeft(minimumValue, maximumValue, containerWidth, thumbWidth, maximumValue)
            == containerWidth - thumbWidth
  {
  }

  /** The value a fraction `t` of the way along the range sits the same
      fraction of the way along the thumb's travel. */
  lemma ThumbLeftLinear(minimumValue: real, maximumValue: real,
                        containerWidth: real, thumbWidth: real, t: real)
    requires maximumValue - minimumValue != 0.0
    ensures ThumbLeft(minimumValue, maximumValue, containerWidth, thumbWidth,
                      minimumValue + t * (maximumValue - minimumValue))
            == t * (containerWidth - thumbWidth)
  {
  }

  /** A value in range puts the thumb inside its travel. */
  lemma ThumbLeftBounds(minimumValue: real, maximumValue: real,
                        containerWidth: real, thumbWidth: real, value: real)
    requires minimumValue < maximumValue
    requires thumbWidth <= containerWidth
    requires minimumValue <= value <= maximumValue
    ensures 0.0 <= ThumbLeft(minimumValue, maximumValue, containerWidth, thumbWidth, value)
                <= containerWidth - thumbWidth
  {
    var distance := maximumValue - minimumValue;
    var ratio := (value - minimumValue) / distance;
    var length := containerWidth - thumbWidth;
    assert 0.0 <= ratio <= 1.0 by {
      assert value - minimumValue <= distance;
      assert ratio * distance == value - minimumValue;
    }
    assert 0.0 <= ratio * length;
    assert length - ratio * length == (1.0 - ratio) * length;
    assert (1.0 - ratio) * length >= 0.0;
  }

  /** A larger value moves the thumb further right, on a track of positive
      length with an increasing range. */
  lemma ThumbLeftMonotone(minimumValue: real, maximumValue: real,
                          containerWidth: real, thumbWidth: real, v: real, w: real)
    requires minimumValue < maximumValue
    requires thumbWidth <= containerWidth
    requires v <= w
    ensures ThumbLeft(minimumValue, maximumValue, containerWidth, thumbWidth, v)
            <= ThumbLeft(minimumValue, maximumValue, containerWidth, thumbWidth, w)
  {
  }

  /** With a non-zero step the value is a step of the grid through
      `minimumValue`, unless it was clamped to one of the bounds. */
  lemma GetValueQuantised(minimumValue: real, maximumValue: real, step: real,
                          previousLeft: real, dx: real,
                          containerWidth: real, thumbWidth: real)
    requires containerWidth - thumbWidth != 0.0
    requires step != 0.0
    ensures var r := GetValue(minimumValue, maximumValue, step, previousLeft, dx, containerWidth, thumbWidth);
            r == minimumValue || r == maximumValue
            || exists k: int :: GridPoint(minimumValue, step, k) == r
  {
    var k := NearestStepIndex(minimumValue, maximumValue, step, previousLeft, dx, containerWidth, thumbWidth);
    var r := GetValue(minimumValue, maximumValue, step, previousLeft, dx, containerWidth, thumbWidth);
    assert r == minimumValue || r == maximumValue || r == GridPoint(minimumValue, step, k);
  }

  /** When the nearest grid step lies inside the range it is returned
      unclamped. */
  lemma GetValueOnGrid(minimumValue: real, maximumValue: real, step: real,
                       previousLeft: real, dx: real,
                       containerWidth: real, thumbWidth: real)
    requires containerWidth - thumbWidth != 0.0
    requires step != 0.0
    requires var k := NearestStepIndex(minimumValue, maximumValue, step, previousLeft, dx, containerWidth, thumbWidth);
             minimumValue <= GridPoint(minimumValue, step, k) <= maximumValue
    ensures GetValue(minimumValue, maximumValue, step, previousLeft, dx, containerWidth, thumbWidth)
            == GridPoint(minimumValue, step,
                         NearestStepIndex(minimumValue, maximumValue, step, previousLeft, dx, containerWidth, thumbWidth))
  {
  }

  /** Round trip with a continuous slider: whenever the thumb sits where
      `v` puts it (in particular right after a grant, with no displacement),
      the value read back is `v` exactly. */
  lemma RoundTripContinuous(minimumValue: real, maximumValue: real,
                            containerWidth: real, thumbWidth: real, v: real,
                            previousLeft: real, dx: real)
    requires minimumValue < maximumValue
    requires containerWidth - thumbWidth != 0.0
    requires minimumValue <= v <= maximumValue
    requires previousLeft + dx == ThumbLeft(minimumValue, maximumValue, containerWidth, thumbWidth, v)
    ensures GetValue(minimumValue, maximumValue, 0.0, previousLeft, dx, containerWidth, thumbWidth) == v
  {
    RatioAtThumbLeft(minimumValue, maximumValue, containerWidth, thumbWidth, v, previousLeft + dx);
  }

  /** Round trip with a stepped slider: a value on the grid is recovered
      exactly. */
  lemma RoundTripOnGrid(minimumValue: real, maximumValue: real, step: real,
                        containerWidth: real, thumbWidth: real, k: int,
                        previousLeft: real, dx: real)
    requires minimumValue < maximumValue
    requires containerWidth - thumbWidth != 0.0
    requires step != 0.0
    requires minimumValue <= GridPoint(minimumValue, step, k) <= maximumValue
    requires previousLeft + dx
             == ThumbLeft(minimumValue, maximumValue, containerWidth, thumbWidth, GridPoint(minimumValue, step, k))
    ensures GetValue(minimumValue, maximumValue, step, previousLeft, dx, containerWidth, thumbWidth)
            == GridPoint(minimumValue, step, k)
  {
    var v := GridPoint(minimumValue, step, k);
    RatioAtThumbLeft(minimumValue, maximumValue, containerWidth, thumbWidth, v, previousLeft + dx);
    var covered := ((previousLeft + dx) / (containerWidth - thumbWidth)) * (maximumValue - minimumValue);
    assert covered == k as real * step;
    DivideCancels(k as real, step);
    JsRoundCongruent(covered / step, k as real);
    assert JsRound(k as real) == k;
    NearestStepIndexIs(minimumValue, maximumValue, step, previousLeft, dx, containerWidth, thumbWidth);
    GetValueStepped(minimumValue, maximumValue, step, previousLeft, dx, containerWidth, thumbWidth);
  }

  /** The grid point nearest to `v` is within half a step of it. */
  lemma NearestGridPointWithinHalfStep(minimumValue: real, step: real, v: real)
    requires step > 0.0
    ensures -step / 2.0 <= GridPoint(minimumValue, step, JsRound((v - minimumValue) / step)) - v <= step / 2.0
  {
    var s := (v - minimumValue) / step;
    var e := JsRound(s) as real - s;
    DivideCancels(v - minimumValue, step);
    assert GridPoint(minimumValue, step, JsRound(s)) - v == e * step by {
      assert e * step == JsRound(s) as real * step - s * step;
    }
    assert e * step <= step / 2.0 by {
      assert (0.5 - e) * step >= 0.0;
    }
    assert -step / 2.0 <= e * step by {
      assert (e + 0.5) * step >= 0.0;
    }
  }

  /** Round trip with a stepped slider for any value in range: what comes
      back is within half a step of `v`. */
  lemma RoundTripWithinHalfStep(minimumValue: real, maximumValue: real, step: real,
                                containerWidth: real, thumbWidth: real, v: real,
                                previousLeft: real, dx: real)
    requires minimumValue < maximumValue
    requires containerWidth - thumbWidth != 0.0
    requires step > 0.0
    requires minimumValue <= v <= maximumValue
    requires previousLeft + dx == ThumbLeft(minimumValue, maximumValue, containerWidth, thumbWidth, v)
    ensures var r := GetValue(minimumValue, maximumValue, step, previousLeft, dx, containerWidth, thumbWidth);
            -step / 2.0 <= r - v <= step / 2.0
  {
    RatioAtThumbLeft(minimumValue, maximumValue, containerWidth, thumbWidth, v, previousLeft + dx);
    var covered := ((previousLeft + dx) / (containerWidth - thumbWidth)) * (maximumValue - minimumValue);
    assert covered == v - minimumValue;
    JsRoundCongruent(covered / step, (v - minimumValue) / step);
    NearestStepIndexIs(minimumValue, maximumValue, step, previousLeft, dx, containerWidth, thumbWidth);
    GetValueStepped(minimumValue, maximumValue, step, previousLeft, dx, containerWidth, thumbWidth);
    NearestGridPointWithinHalfStep(minimumValue, step, v);
    var nearest := GridPoint(minimumValue, step, JsRound((v - minimumValue) / step));
    ClampNoFurther(minimumValue, maximumValue, v, nearest, step / 2.0);
  }

  /** An offset at or left of the start of the track gives `minimumValue`,
      whatever the sign of the step. */
  lemma GetValueBelowTrack(minimumValue: real, maximumValue: real, step: real,
                           previousLeft: real, dx: real,
                           containerWidth: real, thumbWidth: real)
    requires minimumValue <= maximumValue
    requires containerWidth - thumbWidth > 0.0
    requires previousLeft + dx <= 0.0
    ensures GetValue(minimumValue, maximumValue, step, previousLeft, dx, containerWidth, thumbWidth)
            == minimumValue
  {
    var ratio := (previousLeft + dx) / (containerWidth - thumbWidth);
    DivideMonotone(previousLeft + dx, 0.0, containerWidth - thumbWidth);
    var covered := ratio * (maximumValue - minimumValue);
    assert covered <= 0.0 by {
      assert (-ratio) * (maximumValue - minimumValue) >= 0.0;
    }
    if step > 0.0 {
      DivideMonotone(covered, 0.0, step);
      JsRoundMonotone(covered / step, 0.0);
      NearestStepIndexIs(minimumValue, maximumValue, step, previousLeft, dx, containerWidth, thumbWidth);
      var k := NearestStepIndex(minimumValue, maximumValue, step, previousLeft, dx, containerWidth, thumbWidth);
      assert k <= 0;
      assert k as real * step <= 0.0 by {
        assert (-k) as real * step >= 0.0;
      }
      GetValueStepped(minimumValue, maximumValue, step, previousLeft, dx, containerWidth, thumbWidth);
    } else if step < 0.0 {
      DivideAntitone(covered, 0.0, step);
      JsRoundMonotone(0.0, covered / step);
      NearestStepIndexIs(minimumValue, maximumValue, step, previousLeft, dx, containerWidth, thumbWidth);
      var k := NearestStepIndex(minimumValue, maximumValue, step, previousLeft, dx, containerWidth, thumbWidth);
      assert k >= 0;
      assert k as real * step <= 0.0 by {
        assert k as real * (-step) >= 0.0;
      }
      GetValueStepped(minimumValue, maximumValue, step, previousLeft, dx, containerWidth, thumbWidth);
    }
  }

  /** On a continuous slider, an offset at or right of the end of the track
      gives `maximumValue`. */
  lemma GetValueAboveTrackContinuous(minimumValue: real, maximumValue: real,
                                     previousLeft: real, dx: real,
                                     containerWidth: real, thumbWidth: real)
    requires minimumValue <= maximumValue
    requires containerWidth - thumbWidth > 0.0
    requires previousLeft + dx >= containerWidth - thumbWidth
    ensures GetValue(minimumValue, maximumValue, 0.0, previousLeft, dx, containerWidth, thumbWidth)
            == maximumValue
  {
  }

  /** On a stepped slider, the thumb at the end of its travel gives the grid
      point nearest to `maximumValue`, clamped. That is `maximumValue` only
      when the grid point is not below it: when the step does not divide the
      range and the remainder is under half a step, the track end gives the
      last grid point under `maximumValue` instead. */
  lemma GetValueAtTrackEndStepped(minimumValue: real, maximumValue: real, step: real,
                                  previousLeft: real, dx: real,
                                  containerWidth: real, thumbWidth: real)
    requires containerWidth - thumbWidth != 0.0
    requires step != 0.0
    requires previousLeft + dx == containerWidth - thumbWidth
    ensures GetValue(minimumValue, maximumValue, step, previousLeft, dx, containerWidth, thumbWidth)
            == Clamp(minimumValue, maximumValue,
                     GridPoint(minimumValue, step, JsRound((maximumValue - minimumValue) / step)))
    ensures minimumValue < maximumValue ==>
              (GetValue(minimumValue, maximumValue, step, previousLeft, dx, containerWidth, thumbWidth)
                 == maximumValue
               <==> GridPoint(minimumValue, step, JsRound((maximumValue - minimumValue) / step))
                      >= maximumValue)
  {
    var covered := ((previousLeft + dx) / (containerWidth - thumbWidth)) * (maximumValue - minimumValue);
    assert covered == maximumValue - minimumValue;
    JsRoundCongruent(covered / step, (maximumValue - minimumValue) / step);
    NearestStepIndexIs(minimumValue, maximumValue, step, previousLeft, dx, containerWidth, thumbWidth);
    GetValueStepped(minimumValue, maximumValue, step, previousLeft, dx, containerWidth, thumbWidth);
  }

  /** The covered part of the range grows with the offset. */
  lemma CoveredMonotone(minimumValue: real, maximumValue: real,
                        offset1: real, offset2: real, length: real)
    requires minimumValue <= maximumValue
    requires length > 0.0
    requires offset1 <= offset2
    ensures (offset1 / length) * (maximumValue - minimumValue)
            <= (offset2 / length) * (maximumValue - minimumValue)
  {
  }

  lemma NearestStepIndexMonotone(minimumValue: real, maximumValue: real, step: real,
                                 previousLeft: real, dx1: real, dx2: real,
                                 containerWidth: real, thumbWidth: real)
    requires minimumValue <= maximumValue
    requires containerWidth - thumbWidth > 0.0
    requires step != 0.0
    requires dx1 <= dx2
    ensures var k1 := NearestStepIndex(minimumValue, maximumValue, step, previousLeft, dx1, containerWidth, thumbWidth);
            var k2 := NearestStepIndex(minimumValue, maximumValue, step, previousLeft, dx2, containerWidth, thumbWidth);
            (step > 0.0 ==> k1 <= k2) && (step < 0.0 ==> k2 <= k1)
  {
    var c1 := ((previousLeft + dx1) / (containerWidth - thumbWidth)) * (maximumValue - minimumValue);
    var c2 := ((previousLeft + dx2) / (containerWidth - thumbWidth)) * (maximumValue - minimumValue);
    CoveredMonotone(minimumValue, maximumValue, previousLeft + dx1, previousLeft + dx2, containerWidth - thumbWidth);
    NearestStepIndexIs(minimumValue, maximumValue, step, previousLeft, dx1, containerWidth, thumbWidth);
    NearestStepIndexIs(minimumValue, maximumValue, step, previousLeft, dx2, containerWidth, thumbWidth);
    if step > 0.0 {
      DivideMonotone(c1, c2, step);
      JsRoundMonotone(c1 / step, c2 / step);
    } else {
      DivideAntitone(c1, c2, step);
      JsRoundMonotone(c2 / step, c1 / step);
    }
  }

  lemma GetValueMonotoneStepped(minimumValue: real, maximumValue: real, step: real,
                                previousLeft: real, dx1: real, dx2: real,
                                containerWidth: real, thumbWidth: real)
    requires minimumValue <= maximumValue
    requires containerWidth - thumbWidth > 0.0
    requires step != 0.0
    requires dx1 <= dx2
    ensures GetValue(minimumValue, maximumValue, step, previousLeft, dx1, containerWidth, thumbWidth)
            <= GetValue(minimumValue, maximumValue, step, previousLeft, dx2, containerWidth, thumbWidth)
  {
    NearestStepIndexMonotone(minimumValue, maximumValue, step, previousLeft, dx1, dx2, containerWidth, thumbWidth);
    var k1 := NearestStepIndex(minimumValue, maximumValue, step, previousLeft, dx1, containerWidth, thumbWidth);
    var k2 := NearestStepIndex(minimumValue, maximumValue, step, previousLeft, dx2, containerWidth, thumbWidth);
    assert k1 as real * step <= k2 as real * step by {
      if step > 0.0 {
        assert (k2 - k1) as real * step >= 0.0;
      } else {
        assert (k1 - k2) as real * (-step) >= 0.0;
      }
    }
    ClampMonotone(minimumValue, maximumValue,
                  GridPoint(minimumValue, step, k1), GridPoint(minimumValue, step, k2));
    GetValueStepped(minimumValue, maximumValue, step, previousLeft, dx1, containerWidth, thumbWidth);
    GetValueStepped(minimumValue, maximumValue, step, previousLeft, dx2, containerWidth, thumbWidth);
  }

  lemma GetValueMonotoneContinuous(minimumValue: real, maximumValue: real,
                                   previousLeft: real, dx1: real, dx2: real,
                                   containerWidth: real, thumbWidth: real)
    requires minimumValue <= maximumValue
    requires containerWidth - thumbWidth > 0.0
    requires dx1 <= dx2
    ensures GetValue(minimumValue, maximumValue, 0.0, previousLeft, dx1, containerWidth, thumbWidth)
            <= GetValue(minimumValue, maximumValue, 0.0, previousLeft, dx2, containerWidth, thumbWidth)
  {
    CoveredMonotone(minimumValue, maximumValue, previousLeft + dx1, previousLeft + dx2, containerWidth - thumbWidth);
    ClampMonotone(minimumValue, maximumValue,
                  ((previousLeft + dx1) / (containerWidth - thumbWidth)) * (maximumValue - minimumValue) + minimumValue,
                  ((previousLeft + dx2) / (containerWidth - thumbWidth)) * (maximumValue - minimumValue) + minimumValue);
  }

  /** Dragging further right never lowers the value on a track of positive
      length, for a step of either sign: a negative step reverses both the
      rounded step count and the grid, so the two reversals cancel. */
  lemma GetValueMonotone(minimumValue: real, maximumValue: real, step: real,
                         previousLeft: real, dx1: real, dx2: real,
                         containerWidth: real, thumbWidth: real)
    requires minimumValue <= maximumValue
    requires containerWidth - thumbWidth > 0.0
    requires dx1 <= dx2
    ensures GetValue(minimumValue, maximumValue, step, previousLeft, dx1, containerWidth, thumbWidth)
            <= GetValue(minimumValue, maximumValue, step, previousLeft, dx2, containerWidth, thumbWidth)
  {
    if step != 0.0 {
      GetValueMonotoneStepped(minimumValue, maximumValue, step, previousLeft, dx1, dx2, containerWidth, thumbWidth);
    } else {
      GetValueMonotoneContinuous(minimumValue, maximumValue, previousLeft, dx1, dx2, containerWidth, thumbWidth);
    }
  }

  /** Range 0..10, continuous, container 110 and thumb 10: from the left end,
      a drag of 50 pixels gives 5. */
  lemma ScenarioContinuousDrag()
    ensures GetValue(0.0, 10.0, 0.0, ThumbLeft(0.0, 10.0, 110.0, 10.0, 0.0), 50.0, 110.0, 10.0) == 5.0
  {
  }

  /** `_getValue` of a stepped slider when the step count is known to lie
      within half of the integer `k`. */
  lemma GetValueSteppedAt(minimumValue: real, maximumValue: real, step: real,
                          previousLeft: real, dx: real,
                          containerWidth: real, thumbWidth: real, stepLength: real, k: int)
    requires containerWidth - thumbWidth != 0.0
    requires step != 0.0
    requires stepLength == (((previousLeft + dx) / (containerWidth - thumbWidth))
                            * (maximumValue - minimumValue)) / step
    requires k as real - 0.5 <= stepLength < k as real + 0.5
    ensures GetValue(minimumValue, maximumValue, step, previousLeft, dx, containerWidth, thumbWidth)
            == Clamp(minimumValue, maximumValue, GridPoint(minimumValue, step, k))
  {
    NearestStepIndexIs(minimumValue, maximumValue, step, previousLeft, dx, containerWidth, thumbWidth);
    JsRoundCongruent((((previousLeft + dx) / (containerWidth - thumbWidth))
                      * (maximumValue - minimumValue)) / step, stepLength);
    JsRoundUnique(stepLength, k);
    GetValueStepped(minimumValue, maximumValue, step, previousLeft, dx, containerWidth, thumbWidth);
  }

  /** The same slider with step 2, anchored at the left end (offset 0, see
      `ThumbLeftAtMinimum`): a drag of `dx` = 53 pixels is 2.65 steps,
      rounded to 3, which is the value 6. */
  lemma ScenarioSteppedDrag(dx: real)
    requires dx == 53.0
    ensures GetValue(0.0, 10.0, 2.0, 0.0, dx, 110.0, 10.0) == 6.0
  {
    GetValueSteppedAt(0.0, 10.0, 2.0, 0.0, dx, 110.0, 10.0, 2.65, 3);
  }

  /** Range 0..10 with step 3 on the same track: the track end (an offset
      of 100) is 3.33 steps and an offset of 104, past the end, is 3.47
      steps; both round to 3, so the value is 9, not `maximumValue`. */
  lemma ScenarioSteppedTrackEnd(dx: real)
    requires dx == 100.0 || dx == 104.0
    ensures GetValue(0.0, 10.0, 3.0, 0.0, dx, 110.0, 10.0) == 9.0
  {
    GetValueSteppedAt(0.0, 10.0, 3.0, 0.0, dx, 110.0, 10.0, dx / 30.0, 3);
  }
}
