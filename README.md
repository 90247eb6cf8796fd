# react-native-slider, modelled in Dafny

A model of the logic of the `Slider` component of react-native-slider
(`src/Slider.js`): a draggable range input that maps a horizontal drag to a
numeric value. Numbers are exact reals (`real`), so the model says nothing
about IEEE rounding; JavaScript's `Math.round` is modelled as
`Floor(x + 1/2)`, which rounds halves toward positive infinity as
`Math.round` does.

Modules, one per part of the component:

- `Wrappers` — `Option`, for what the JavaScript leaves `undefined`.
- `Geometry` — `Size`, `Rect` and the inclusive `containsPoint` test.
- `ValueMapping` — `_getThumbLeft` (value to pixel offset) and `_getValue`
  (drag offset to value, with optional step quantisation and clamping) as
  pure functions, with their round-trip, bound, quantisation and
  monotonicity lemmas.
- `Measurement` — the three-way join of layout sizes done by
  `_handleMeasure`, as a pure step function `Measure` over a
  `Measurements` value, its invariant `Consistent`, and lemmas over single
  steps and over whole runs of layout events (`MeasureAll`).
- `SliderComponent` — the class `Slider` with the instance fields and the
  `state` the handlers change: stored sizes, published sizes and
  `allMeasured`, the current value of the animated value, the target of a
  running transition, `_previousLeft`, and a log of the callbacks fired.
  Its methods are the layout callbacks, the pan-responder handlers and the
  non-animated path of `componentWillReceiveProps`; its functions are the
  hit-test chain. `HandleMeasure` is specified by `Measurement.Measure`, and
  the drag handlers by `ValueMapping.GetValue`.

Things the host supplies are parameters: layout sizes are the arguments of
the `Measure*` methods, the gesture displacement `dx` is the argument of the
move and end handlers, and a touch position is the argument of the hit test.
Callbacks are not called; each `_fireChangeEvent` whose callback prop is set
appends `(name, value)` to `events`. `setState` is modelled as taking effect at once, and each call the
join makes is counted in `setStateCalls`.

Preconditions stand where the code divides without a guard:
`maximumValue - minimumValue != 0` for `_getThumbLeft` (and so for the grant
and the hit test), and `containerSize.width - thumbSize.width != 0` for
`_getValue` (and so for move and end unless disabled). Move and end also
require that a grant has set `_previousLeft`; the pan responder only
delivers them after a grant, and a disabled slider returns before reading it.

Behaviour of the code that a reader might not expect, as the model keeps
it:

- Once all three sizes are stored, the join calls `setState` on every
  measurement that changes a stored size, not only on the one that completes
  the join (`Measurement.MeasurePublishes`).
- `onPanResponderTerminationRequest` returns `false`: another responder that
  asks to take the gesture is refused (`Slider.HandlePanResponderRequestEnd`).
- `if (this.props.step)` quantises for any non-zero step, negative ones too.
- On a stepped slider the end of the track gives the grid point nearest to
  `maximumValue`, clamped. When the step does not divide the range and the
  remainder is under half a step, that is the last grid point below
  `maximumValue`, and `maximumValue` is reached only by dragging beyond the
  track: range 0..10 with step 3 gives 9 at the track end and still 9 four
  pixels past it (`ValueMapping.GetValueAtTrackEndStepped`,
  `ValueMapping.ScenarioSteppedTrackEnd`).
- Neither `_getThumbLeft` nor `_getValue` guards its divisor; the model makes
  the divisors non-zero preconditions.
- `componentWillReceiveProps` passes a new `value` prop to the animated value
  unclamped.
- `_getTouchOverflowSize` measures the vertical overflow against the
  container's height, matching the vertical position `_getThumbTouchRect`
  computes from the container's height.
- `_fireChangeEvent` calls a callback only when its prop is truthy; a callback
  prop set to `null` is skipped (`Props.callbacks`, `Slider.FireChangeEvent`).

## Model

| member | source | states |
|---|---|---|
| `Geometry.ContainsPoint` | src/Slider.js:22-29 | the four inclusive comparisons: inside exactly when `r.x <= px <= r.x + width` and `r.y <= py <= r.y + height` |
| `Geometry.BoundaryIsInside` | src/Slider.js:22-29 | every point on each of the four edges, corners included, of a rectangle with non-negative size counts as inside |
| `Geometry.NegativeSizeContainsNothing` | src/Slider.js:22-29 | a rectangle with a negative width or height contains no point |
| `Geometry.ContainsPointTranslationInvariant` | src/Slider.js:22-29 | shifting rectangle and point by the same offset does not change the answer |
| `ValueMapping.JsRound` | src/Slider.js:328 | the result is the integer `k` with `k - 1/2 <= x < k + 1/2`: nearest integer, halves upward, as `Math.round` |
| `ValueMapping.JsRoundUnique` | src/Slider.js:328 | any integer `k` with `k - 1/2 <= x < k + 1/2` is the one `Math.round` returns |
| `ValueMapping.JsRoundMonotone` | src/Slider.js:328 | rounding preserves order |
| `ValueMapping.Clamp` | src/Slider.js:331 | `Math.max(lo, Math.min(hi, x))` lies in `[lo, hi]` when `lo <= hi`, is `x` when `x` is already in range, and is `lo` below it and `hi` above it |
| `ValueMapping.ThumbLeft` | src/Slider.js:315-319 | the offset is to the travel `containerWidth - thumbWidth` as `value - minimumValue` is to the range |
| `ValueMapping.ThumbLeftAtMinimum` | src/Slider.js:315-319 | `minimumValue` puts the thumb at offset 0 |
| `ValueMapping.ThumbLeftAtMaximum` | src/Slider.js:315-319 | `maximumValue` puts the thumb at `containerWidth - thumbWidth` |
| `ValueMapping.ThumbLeftLinear` | src/Slider.js:315-319 | the value a fraction `t` along the range sits the same fraction `t` along the thumb's travel |
| `ValueMapping.ThumbLeftBounds` | src/Slider.js:315-319 | a value in range gives an offset in `[0, containerWidth - thumbWidth]` |
| `ValueMapping.ThumbLeftMonotone` | src/Slider.js:315-319 | a larger value never moves the thumb left |
| `ValueMapping.GetValue` | src/Slider.js:321-339 | for any anchor and displacement the value lies in `[minimumValue, maximumValue]` when `minimumValue <= maximumValue` |
| `ValueMapping.GetValueQuantised` | src/Slider.js:327-332 | with a non-zero step the value is `minimumValue + k * step` for an integer `k`, or one of the two bounds |
| `ValueMapping.GetValueOnGrid` | src/Slider.js:327-332 | when the nearest grid point lies in range it is returned unclamped |
| `ValueMapping.RoundTripContinuous` | src/Slider.js:315-338 | with step 0, an offset equal to the thumb position of a value `v` in range (as right after a grant, with `dx = 0`) reads back exactly `v` |
| `ValueMapping.RoundTripOnGrid` | src/Slider.js:315-332 | with a non-zero step, the thumb position of a grid value in range reads back exactly that value |
| `ValueMapping.RoundTripWithinHalfStep` | src/Slider.js:315-332 | with a positive step, the thumb position of any value `v` in range reads back a value within `step / 2` of `v` |
| `ValueMapping.GetValueBelowTrack` | src/Slider.js:321-339 | an offset at or before the start of a positive-length track gives `minimumValue`, for a step of any sign or 0 |
| `ValueMapping.GetValueAboveTrackContinuous` | src/Slider.js:321-338 | with step 0, an offset at or past the end of the track gives `maximumValue` |
| `ValueMapping.GetValueAtTrackEndStepped` | src/Slider.js:321-332 | with a non-zero step, the thumb at the end of its travel gives the clamped grid point nearest to `maximumValue`, which is `maximumValue` exactly when that grid point is not below it |
| `ValueMapping.GetValueMonotone` | src/Slider.js:321-339 | a larger displacement never gives a smaller value on a positive-length track, for a step of any sign or 0 |
| `ValueMapping.ScenarioContinuousDrag` | src/Slider.js:321-338 | range 0..10, container 110, thumb 10, anchor at 0: a drag of 50 gives 5 |
| `ValueMapping.ScenarioSteppedDrag` | src/Slider.js:321-332 | the same with step 2: a drag of 53 is 2.65 steps, rounded to 3, giving 6 |
| `ValueMapping.ScenarioSteppedTrackEnd` | src/Slider.js:321-332 | range 0..10 with step 3 on the same track: offsets 100 (the track end) and 104 both give 9, not 10 |
| `Measurement.Initial` | src/Slider.js:201-207 | the mounted state stores no size, publishes the zero size for all three and is consistent |
| `Measurement.Measure` | src/Slider.js:294-313 | a measurement leaves its slot holding the delivered size and every other slot as it was |
| `Measurement.RedundantMeasureIsNoop` | src/Slider.js:298-302 | a size equal to the stored one changes nothing: no store and no `setState` |
| `Measurement.MeasureIdempotent` | src/Slider.js:294-313 | delivering the same size twice has the effect of delivering it once |
| `Measurement.MeasurePreservesConsistent` | src/Slider.js:303-312 | each measurement keeps the join's invariant: `allMeasured` exactly when all three are stored, published sizes equal to the stored ones then, and nothing published before |
| `Measurement.MeasurePublishes` | src/Slider.js:303-312 | every changing measurement made when all three are then stored publishes all three current sizes with `allMeasured` and one more `setState`; otherwise nothing is published |
| `Measurement.MeasureCompletesJoin` | src/Slider.js:305-311 | before the join completes, a measurement completes it exactly when the other two slots are already stored |
| `Measurement.MeasureOrderIndependent` | src/Slider.js:282-313 | measurements of two different elements give the same stored and published state in either order |
| `Measurement.MeasureAllStoresLast` | src/Slider.js:298-303 | after any run of layout events each stored size is the last one delivered for its element |
| `Measurement.MeasureAllConsistent` | src/Slider.js:294-313 | any run of layout events keeps the join's invariant |
| `Measurement.AllMeasuredIffEachDelivered` | src/Slider.js:282-313 | from a fresh slider, `allMeasured` holds after a run of layout events exactly when container, track and thumb were each measured, and then the state shows the last size of each |
| `SliderComponent.DefaultProps` | src/Slider.js:176-199 | the default slider is enabled, continuous and without transitions, over a non-empty range holding a value in it, with a positive touch size and all three callbacks set |
| `SliderComponent.Max` | src/Slider.js:370-371 | `Math.max`: the larger of its two arguments |
| `SliderComponent.Slider.constructor` | src/Slider.js:201-207 | the mounted component holds the initial `value` prop, nothing measured, no anchor, no callbacks fired |
| `SliderComponent.Slider.HandleMeasure` | src/Slider.js:294-313 | the object's measurement fields change exactly as `Measure` says, and the join's invariant is kept |
| `SliderComponent.Slider.MeasureContainer` | src/Slider.js:282-284 | a container layout event is `HandleMeasure` on the container slot |
| `SliderComponent.Slider.MeasureTrack` | src/Slider.js:286-288 | a track layout event is `HandleMeasure` on the track slot |
| `SliderComponent.Slider.MeasureThumb` | src/Slider.js:290-292 | a thumb layout event is `HandleMeasure` on the thumb slot |
| `SliderComponent.Slider.CurrentThumbLeft` | src/Slider.js:315-319 | the thumb offset of the current value, which lies in `[0, containerWidth - thumbWidth]` while the value is in an increasing range and the thumb fits |
| `SliderComponent.Slider.SetCurrentValue` | src/Slider.js:343-345 | the value becomes `v` at once and no transition stays running |
| `SliderComponent.Slider.SetCurrentValueAnimated` | src/Slider.js:347-356 | a transition toward `v` is recorded; the value itself is untouched |
| `SliderComponent.Slider.FireChangeEvent` | src/Slider.js:358-362 | the named callback is invoked once, with the current value, when its prop is set; otherwise nothing is logged |
| `SliderComponent.Slider.ComponentWillReceiveProps` | src/Slider.js:221-231 | an unchanged `value` prop leaves value and transition alone; a changed one is set at once without `animateTransitions`, or becomes the transition target with it; the new props are installed |
| `SliderComponent.Slider.TouchOverflowSize` | src/Slider.js:364-375 | empty exactly before `allMeasured`; then the smallest non-negative margins that make thumb width and container height reach `thumbTouchSize` |
| `SliderComponent.Slider.ThumbTouchRect` | src/Slider.js:405-420 | defined exactly once `allMeasured`; then it has `thumbTouchSize` and, in the touch layer's coordinates, is centred on the thumb horizontally and on the container vertically |
| `SliderComponent.Slider.ThumbHitTest` | src/Slider.js:399-403 | never a hit before `allMeasured`; afterwards a hit exactly when the touch rectangle contains the point |
| `SliderComponent.Slider.HandleStartShouldSetPanResponder` | src/Slider.js:256 | a touch start is claimed only once measured, and exactly when it hits the thumb |
| `SliderComponent.Slider.HandleMoveShouldSetPanResponder` | src/Slider.js:259 | a touch that only moves over the slider is never claimed |
| `SliderComponent.Slider.HandlePanResponderRequestEnd` | src/Slider.js:273 | a request to hand the gesture to another responder is always refused |
| `SliderComponent.Slider.HandlePanResponderGrant` | src/Slider.js:261-264 | the anchor becomes the thumb offset of the current value and `onSlidingStart` fires with the current value if that prop is set, disabled or not |
| `SliderComponent.Slider.ValueForDisplacement` | src/Slider.js:321-339 | the value for a displacement from the anchor lies in `[minimumValue, maximumValue]` when `minimumValue <= maximumValue` |
| `SliderComponent.Slider.HandlePanResponderMove` | src/Slider.js:266-271 | disabled: value, transition and callbacks untouched; otherwise the value becomes `GetValue` of anchor and displacement at once and `onValueChange` fires with it if that prop is set |
| `SliderComponent.Slider.HandlePanResponderEnd` | src/Slider.js:275-280 | disabled: nothing changes and nothing fires; otherwise the value becomes `GetValue` of anchor and displacement and `onSlidingComplete` fires with it if that prop is set |
| `SliderComponent.ThumbCentreIsHit` | src/Slider.js:399-420 | once measured, a touch at the thumb's centre, in the touch layer's coordinates, is claimed |
| `SliderComponent.GrantThenRelease` | src/Slider.js:261-280 | a continuous slider holding a value in range, grabbed and released without moving, keeps that value, firing `onSlidingStart` and, unless disabled, `onSlidingComplete` with it, each when its prop is set; the join's invariant is kept |

## Left out

- Animated transitions: `_setCurrentValueAnimated` builds a spring or timing configuration and starts it in the host's animation engine (`DEFAULT_ANIMATION_CONFIGS`, src/Slider.js:31-41, 347-356). The model only records the target; how the value later moves toward it is time-driven and external.
- Rendering: `render`, `_renderThumbImage`, `_renderDebugThumbTouchRect`, `_renderSegmentIntervals` (including the segment count `floor((max - min + 1) / step)` and its colour interpolation), `_getTouchOverflowStyle` and the styles produce UI output, not state. The half-overflow shift of the touch layer that `_getTouchOverflowStyle` applies is used only to state where `ThumbTouchRect` is centred.
- Framework glue: the `PanResponder.create` wiring, `propTypes`, `defaultProps` beyond the fields in `Props`, and `_getPropsForComponentUpdate`.
- IEEE arithmetic: NaN and infinities are not modelled. The one case where the code relies on them, the hit test before `allMeasured` (an empty overflow size makes the rectangle's position NaN, so nothing is contained), is modelled as `None` and no hit.
- Slider.HandlePanResponderMove: a move or end reaching an enabled slider before any grant (where `_previousLeft` is `undefined` and the value would become NaN) is excluded by precondition, because the pan responder never delivers one.
- The animated value's offset (`__getValue` adds it) and listeners: the model holds one number.
- The callbacks themselves are not run; the log records each invocation and its argument. A callback prop is either set or falsy; which function it holds is not modelled.
- `setState` is asynchronous in React; the model applies it immediately, as every handler here reads the state only in later events.
