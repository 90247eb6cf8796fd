/** The slider component of src/Slider.js as an object: the sizes the
    layout callbacks store, the state they publish, the animated value, the
    drag anchor, and the callbacks fired, as a log. */
module SliderComponent {
  import opened Wrappers
  import opened Geometry
  import opened ValueMapping
  import opened Measurement

  /** The props the modelled logic reads. Colours, styles, the thumb
      image, the animation type and its configuration, the debug flag and
      the interval flag only affect rendering. `callbacks` holds the
      callback props that are set to a function, as opposed to left falsy
      (an explicit `null`). */
  datatype Props = Props(
    value: real,
    disabled: bool,
    minimumValue: real,
    maximumValue: real,
    step: real,
    thumbTouchSize: Size,
    animateTransitions: bool,
    callbacks: set<EventName>)

  /** `defaultProps` for the fields above: an enabled, continuous slider
      over a non-empty range, holding a value in that range, with every
      callback set (to a function that does nothing). */
  function DefaultProps(): (p: Props)
    ensures !p.disabled && p.step == 0.0 && !p.animateTransitions
    ensures p.minimumValue < p.maximumValue && p.minimumValue <= p.value <= p.maximumValue
    ensures p.thumbTouchSize.width > 0.0 && p.thumbTouchSize.height > 0.0
    ensures OnSlidingStart in p.callbacks && OnValueChange in p.callbacks && OnSlidingComplete in p.callbacks
  {
    Props(0.0, false, 0.0, 1.0, 0.0, Size(40.0, 40.0), false,
          {OnSlidingStart, OnValueChange, OnSlidingComplete})
  }

  /** The three callbacks the slider fires. */
  datatype EventName = OnSlidingStart | OnValueChange | OnSlidingComplete

  /** One callback invocation: which callback, with which value. */
  datatype Event = Event(name: EventName, value: real)

  /** What `_fireChangeEvent(name)` adds to the log under props `p`: the
      call with `v` when that callback is set, nothing when it is falsy. */
  function Fired(p: Props, name: EventName, v: real): seq<Event>
  {
    if name in p.callbacks then [Event(name, v)] else []
  }

  /** `Math.max`. */
  function Max(a: real, b: real): (m: real)
    ensures m >= a && m >= b && (m == a || m == b)
  {
    if a < b then b else a
  }

  class Slider {
    var props: Props
    // `this._containerSize`, `this._trackSize`, `this._thumbSize`
    var storedContainer: Option<Size>
    var storedTrack: Option<Size>
    var storedThumb: Option<Size>
    // `this.state`
    var allMeasured: bool
    var containerSize: Size
    var trackSize: Size
    var thumbSize: Size
    /** How many times the measurement join has called `setState`. */
    var setStateCalls: nat
    /** The current number held by `this.state.value`. */
    var value: real
    /** The target of a running transition of `this.state.value`, if any. */
    var animationTarget: Option<real>
    /** `this._previousLeft`, unset until the first grant. */
    var previousLeft: Option<real>
    /** Every callback fired so far, oldest first. */
    var events: seq<Event>

    /** The measurement part of the object, as a value. */
    function Measured(): Measurements
      reads this
    {
      Measurements(storedContainer, storedTrack, storedThumb,
                   allMeasured, containerSize, trackSize, thumbSize, setStateCalls)
    }

    ghost predicate Valid()
      reads this
    {
      Consistent(Measured())
    }

    /** The component as mounted: `state` with `allMeasured: false`, three
        zero sizes and an animated value holding `initial.value`. */
    constructor (initial: Props)
      ensures Valid()
      ensures props == initial && value == initial.value
      ensures Measured() == Initial()
      ensures animationTarget == None && previousLeft == None && events == []
    {
      props := initial;
      storedContainer, storedTrack, storedThumb := None, None, None;
      allMeasured := false;
      containerSize, trackSize, thumbSize := Unmeasured, Unmeasured, Unmeasured;
      setStateCalls := 0;
      value := initial.value;
      animationTarget := None;
      previousLeft := None;
      events := [];
    }

    /** `_handleMeasure`. */
    method HandleMeasure(slot: Slot, width: real, height: real)
      requires Valid()
      modifies this`storedContainer, this`storedTrack, this`storedThumb,
               this`allMeasured, this`containerSize, this`trackSize, this`thumbSize,
               this`setStateCalls
      ensures Valid()
      ensures Measured() == Measure(old(Measured()), slot, Size(width, height))
    {
      var size := Size(width, height);
      var currentSize := match slot
        case Container => storedContainer
        case Track => storedTrack
        case Thumb => storedThumb;
      if currentSize.Some? && width == currentSize.value.width && height == currentSize.value.height {
        return;
      }
      match slot {
        case Container => storedContainer := Some(size);
        case Track => storedTrack := Some(size);
        case Thumb => storedThumb := Some(size);
      }
      if storedContainer.Some? && storedTrack.Some? && storedThumb.Some? {
        allMeasured := true;
        trackSize := storedTrack.value;
        thumbSize := storedThumb.value;
        containerSize := storedContainer.value;
        setStateCalls := setStateCalls + 1;
      }
      MeasurePreservesConsistent(old(Measured()), slot, size);
    }

    /** `_measureContainer`. */
    method MeasureContainer(width: real, height: real)
      requires Valid()
      modifies this`storedContainer, this`storedTrack, this`storedThumb,
               this`allMeasured, this`containerSize, this`trackSize, this`thumbSize,
               this`setStateCalls
      ensures Valid()
      ensures Measured() == Measure(old(Measured()), Container, Size(width, height))
    {
      HandleMeasure(Container, width, height);
    }

    /** `_measureTrack`. */
    method MeasureTrack(width: real, height: real)
      requires Valid()
      modifies this`storedContainer, this`storedTrack, this`storedThumb,
               this`allMeasured, this`containerSize, this`trackSize, this`thumbSize,
               this`setStateCalls
      ensures Valid()
      ensures Measured() == Measure(old(Measured()), Track, Size(width, height))
    {
      HandleMeasure(Track, width, height);
    }

    /** `_measureThumb`. */
    method MeasureThumb(width: real, height: real)
      requires Valid()
      modifies this`storedContainer, this`storedTrack, this`storedThumb,
               this`allMeasured, this`containerSize, this`trackSize, this`thumbSize,
               this`setStateCalls
      ensures Valid()
      ensures Measured() == Measure(old(Measured()), Thumb, Size(width, height))
    {
      HandleMeasure(Thumb, width, height);
    }

    /** `_getThumbLeft(this._getCurrentValue())`: while the value is in an
        increasing range and the thumb fits in the container, the thumb lies
        within its travel. */
    function CurrentThumbLeft(): (left: real)
      reads this
      requires props.maximumValue - props.minimumValue != 0.0
      ensures props.minimumValue < props.maximumValue && thumbSize.width <= containerSize.width
              && props.minimumValue <= value <= props.maximumValue
              ==> 0.0 <= left <= containerSize.width - thumbSize.width
    {
      if props.minimumValue < props.maximumValue && thumbSize.width <= containerSize.width
         && props.minimumValue <= value <= props.maximumValue
      then
        ThumbLeftBounds(props.minimumValue, props.maximumValue, containerSize.width, thumbSize.width, value);
        ThumbLeft(props.minimumValue, props.maximumValue, containerSize.width, thumbSize.width, value)
      else
        ThumbLeft(props.minimumValue, props.maximumValue, containerSize.width, thumbSize.width, value)
    }

    /** `_setCurrentValue`: an immediate set, which also stops a running
        transition. */
    method SetCurrentValue(v: real)
      modifies this`value, this`animationTarget
      ensures value == v && animationTarget == None
    {
      value := v;
      animationTarget := None;
    }

    /** `_setCurrentValueAnimated`, reduced to recording the target: the
        value itself moves later, driven by the animation engine. */
    method SetCurrentValueAnimated(v: real)
      modifies this`animationTarget
      ensures animationTarget == Some(v)
    {
      animationTarget := Some(v);
    }

    /** `_fireChangeEvent`: calls the named callback with the current value,
        if that callback prop is set. */
    method FireChangeEvent(name: EventName)
      modifies this`events
      ensures events == old(events) + Fired(props, name, value)
    {
      if name in props.callbacks {
        events := events + [Event(name, value)];
      }
    }

    /** `componentWillReceiveProps`: a changed `value` prop is applied at
        once, or as a transition when `animateTransitions` is set; the
        framework then installs the new props. */
    method ComponentWillReceiveProps(nextProps: Props)
      requires Valid()
      modifies this`props, this`value, this`animationTarget
      ensures Valid()
      ensures props == nextProps
      ensures old(props.value) == nextProps.value ==>
                value == old(value) && animationTarget == old(animationTarget)
      ensures old(props.value) != nextProps.value && old(props.animateTransitions) ==>
                value == old(value) && animationTarget == Some(nextProps.value)
      ensures old(props.value) != nextProps.value && !old(props.animateTransitions) ==>
                value == nextProps.value && animationTarget == None
    {
      var newValue := nextProps.value;
      if props.value != newValue {
        if props.animateTransitions {
          SetCurrentValueAnimated(newValue);
        } else {
          SetCurrentValue(newValue);
        }
      }
      props := nextProps;
    }

    /** `_getTouchOverflowSize`: before all sizes are known the size object
        is empty; afterwards it is the smallest non-negative margin that
        lets the touch area reach `thumbTouchSize` around the thumb's width
        and the container's height. */
    function TouchOverflowSize(): (o: Option<Size>)
      reads this
      ensures o.Some? <==> allMeasured
      ensures o.Some? ==>
                o.value.width >= 0.0 && thumbSize.width + o.value.width >= props.thumbTouchSize.width
                && (o.value.width == 0.0 || thumbSize.width + o.value.width == props.thumbTouchSize.width)
      ensures o.Some? ==>
                o.value.height >= 0.0 && containerSize.height + o.value.height >= props.thumbTouchSize.height
                && (o.value.height == 0.0 || containerSize.height + o.value.height == props.thumbTouchSize.height)
    {
      if allMeasured then
        Some(Size(Max(0.0, props.thumbTouchSize.width - thumbSize.width),
                  Max(0.0, props.thumbTouchSize.height - containerSize.height)))
      else None
    }

    /** `_getThumbTouchRect`, in the coordinates of the touch layer, which
        the overflow margins shift left and up by half the overflow. The
        rectangle has the touch size and is centred on the thumb
        horizontally and on the container vertically. `None` stands for the
        rectangle with undefined position that JavaScript builds while the
        overflow size is empty. */
    function ThumbTouchRect(): (r: Option<Rect>)
      reads this
      requires props.maximumValue - props.minimumValue != 0.0
      ensures r.Some? <==> allMeasured
      ensures r.Some? ==>
                var o := TouchOverflowSize().value;
                r.value.width == props.thumbTouchSize.width
                && r.value.height == props.thumbTouchSize.height
                && r.value.x - o.width / 2.0 + r.value.width / 2.0 == CurrentThumbLeft() + thumbSize.width / 2.0
                && r.value.y - o.height / 2.0 + r.value.height / 2.0 == containerSize.height / 2.0
    {
      match TouchOverflowSize()
      case None => None
      case Some(touchOverflowSize) =>
        var thumbLeft := CurrentThumbLeft();
        var thumbSizeWidth := thumbSize.width - props.thumbTouchSize.width;
        var thumbYPositionInContainer := containerSize.height - props.thumbTouchSize.height;
        Some(Rect(touchOverflowSize.width / 2.0 + thumbLeft + thumbSizeWidth / 2.0,
                  touchOverflowSize.height / 2.0 + thumbYPositionInContainer / 2.0,
                  props.thumbTouchSize.width,
                  props.thumbTouchSize.height))
    }

    /** `_thumbHitTest`: never a hit before all sizes are known. */
    function ThumbHitTest(locationX: real, locationY: real): (hit: bool)
      reads this
      requires props.maximumValue - props.minimumValue != 0.0
      ensures !allMeasured ==> !hit
      ensures allMeasured ==> (hit <==> ContainsPoint(ThumbTouchRect().value, locationX, locationY))
    {
      match ThumbTouchRect()
      case None => false
      case Some(thumbTouchRect) => ContainsPoint(thumbTouchRect, locationX, locationY)
    }

    /** `_handleStartShouldSetPanResponder`: a touch start is claimed
        exactly when it hits the thumb. */
    function HandleStartShouldSetPanResponder(locationX: real, locationY: real): (claim: bool)
      reads this
      requires props.maximumValue - props.minimumValue != 0.0
      ensures claim ==> allMeasured
      ensures claim == ThumbHitTest(locationX, locationY)
    {
      ThumbHitTest(locationX, locationY)
    }

    /** `_handleMoveShouldSetPanResponder`: a touch that moves onto the
        slider is never claimed. */
    function HandleMoveShouldSetPanResponder(): (claim: bool)
      ensures !claim
    {
      false
    }

    /** `_handlePanResponderRequestEnd`: a request by another responder to
        take the gesture is refused. */
    function HandlePanResponderRequestEnd(): (allow: bool)
      ensures !allow
    {
      false
    }

    /** `_handlePanResponderGrant`: anchors the drag at the thumb's current
        offset and fires `onSlidingStart`, also when disabled. */
    method HandlePanResponderGrant()
      requires Valid()
      requires props.maximumValue - props.minimumValue != 0.0
      modifies this`previousLeft, this`events
      ensures Valid()
      ensures previousLeft == Some(CurrentThumbLeft())
      ensures events == old(events) + Fired(props, OnSlidingStart, value)
    {
      previousLeft := Some(CurrentThumbLeft());
      FireChangeEvent(OnSlidingStart);
    }

    /** The value `_getValue(gestureState)` computes for displacement `dx`. */
    function ValueForDisplacement(dx: real): (v: real)
      reads this
      requires previousLeft.Some?
      requires containerSize.width - thumbSize.width != 0.0
      ensures props.minimumValue <= props.maximumValue ==> props.minimumValue <= v <= props.maximumValue
    {
      GetValue(props.minimumValue, props.maximumValue, props.step,
               previousLeft.value, dx, containerSize.width, thumbSize.width)
    }

    /** `_handlePanResponderMove`: unless disabled, sets the value for the
        displacement since the grant and fires `onValueChange`. */
    method HandlePanResponderMove(dx: real)
      requires Valid()
      requires !props.disabled ==> previousLeft.Some? && containerSize.width - thumbSize.width != 0.0
      modifies this`value, this`animationTarget, this`events
      ensures Valid()
      ensures props.disabled ==>
                value == old(value) && animationTarget == old(animationTarget) && events == old(events)
      ensures !props.disabled ==>
                value == ValueForDisplacement(dx) && animationTarget == None
                && events == old(events) + Fired(props, OnValueChange, value)
    {
      if props.disabled { return; }
      SetCurrentValue(ValueForDisplacement(dx));
      FireChangeEvent(OnValueChange);
    }

    /** `_handlePanResponderEnd`, run on release and on termination: unless
        disabled, sets the value for the final displacement and fires
        `onSlidingComplete`. */
    method HandlePanResponderEnd(dx: real)
      requires Valid()
      requires !props.disabled ==> previousLeft.Some? && containerSize.width - thumbSize.width != 0.0
      modifies this`value, this`animationTarget, this`events
      ensures Valid()
      ensures props.disabled ==>
                value == old(value) && animationTarget == old(animationTarget) && events == old(events)
      ensures !props.disabled ==>
                value == ValueForDisplacement(dx) && animationTarget == None
                && events == old(events) + Fired(props, OnSlidingComplete, value)
    {
      if props.disabled { return; }
      SetCurrentValue(ValueForDisplacement(dx));
      FireChangeEvent(OnSlidingComplete);
    }
  }

  /** Once measured, a touch at the centre of the thumb (in the touch
      layer's coordinates) starts a drag. */
  lemma ThumbCentreIsHit(s: Slider)
    requires s.allMeasured
    requires s.props.maximumValue - s.props.minimumValue != 0.0
    requires s.props.thumbTouchSize.width >= 0.0 && s.props.thumbTouchSize.height >= 0.0
    ensures var o := s.TouchOverflowSize().value;
            s.HandleStartShouldSetPanResponder(
              s.CurrentThumbLeft() + s.thumbSize.width / 2.0 + o.width / 2.0,
              s.containerSize.height / 2.0 + o.height / 2.0)
  {
  }

  /** A continuous slider that is grabbed and released without moving keeps
      its value. */
  method GrantThenRelease(s: Slider)
    requires s.Valid()
    requires s.props.minimumValue < s.props.maximumValue
    requires s.props.step == 0.0
    requires s.containerSize.width - s.thumbSize.width != 0.0
    requires s.props.minimumValue <= s.value <= s.props.maximumValue
    modifies s`previousLeft, s`value, s`animationTarget, s`events
    ensures s.Valid()
    ensures s.value == old(s.value)
    ensures !old(s.props.disabled) ==>
              s.events == old(s.events) + Fired(s.props, OnSlidingStart, s.value)
                                        + Fired(s.props, OnSlidingComplete, s.value)
    ensures old(s.props.disabled) ==>
              s.events == old(s.events) + Fired(s.props, OnSlidingStart, s.value)
  {
    s.HandlePanResponderGrant();
    RoundTripContinuous(s.props.minimumValue, s.props.maximumValue,
                        s.containerSize.width, s.thumbSize.width, s.value, s.previousLeft.value, 0.0);
    s.HandlePanResponderEnd(0.0);
  }

  /** Layout of a 10-pixel thumb, a 110-pixel container and its track, in
      that order (any other order ends in the same state, by
      `MeasureOrderIndependent`): the third distinct size completes the
      join, and repeating a size publishes nothing. */
  method ScenarioMeasure()
  {
    var s := new Slider(DefaultProps().(maximumValue := 10.0));
    s.MeasureThumb(10.0, 10.0);
    s.MeasureContainer(110.0, 40.0);
    assert !s.allMeasured;
    s.MeasureTrack(110.0, 4.0);
    assert s.allMeasured && s.setStateCalls == 1;
    assert s.containerSize == Size(110.0, 40.0) && s.thumbSize == Size(10.0, 10.0);
    s.MeasureTrack(110.0, 4.0);
    assert s.setStateCalls == 1;
  }

  /** The same slider disabled: a drag reports only its start and leaves
      the value alone. */
  method ScenarioDisabledDrag(s: Slider)
    requires s.Valid()
    requires s.props == DefaultProps().(maximumValue := 10.0, disabled := true)
    requires s.value == 0.0 && s.events == []
    modifies s
  {
    s.HandlePanResponderGrant();
    s.HandlePanResponderMove(50.0);
    s.HandlePanResponderEnd(50.0);
    assert s.value == 0.0;
    assert s.events == [Event(OnSlidingStart, 0.0)];
  }

  /** A new `value` prop of 8 without transitions is shown at once; with
      transitions it only becomes the animation's target. */
  method ScenarioNewValueProp()
  {
    var s := new Slider(DefaultProps().(maximumValue := 10.0));
    s.ComponentWillReceiveProps(s.props.(value := 8.0));
    assert s.value == 8.0;
    var t := new Slider(DefaultProps().(maximumValue := 10.0, animateTransitions := true));
    t.ComponentWillReceiveProps(t.props.(value := 8.0));
    assert t.value == 0.0 && t.animationTarget == Some(8.0);
  }

  /** A slider whose `onSlidingStart` prop is `null` and whose other
      callbacks are set: a grant fires nothing. */
  method ScenarioNullCallback()
  {
    var s := new Slider(DefaultProps().(maximumValue := 10.0, callbacks := {OnValueChange, OnSlidingComplete}));
    s.HandlePanResponderGrant();
    assert s.events == [];
  }
}
