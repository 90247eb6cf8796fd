/** The three-way measurement join of src/Slider.js (`_handleMeasure` and its
    entry points `_measureContainer`, `_measureTrack`, `_measureThumb`):
    layout sizes for the container, the track and the thumb arrive
    independently, are stored on the instance, and once all three are known
    every further change publishes them to the component state. */
module Measurement {
  import opened Wrappers
  import opened Geometry

  /** Which element a layout event measured. */
  datatype Slot = Container | Track | Thumb

  /** The size the state holds before anything is published. */
  const Unmeasured: Size := Size(0.0, 0.0)

  /** What the layout callbacks read and write: the sizes stored on the
      instance (`this._containerSize`, `this._trackSize`, `this._thumbSize`),
      the sizes and flag published in `state`, and how many times the join
      called `setState`. */
  datatype Measurements = Measurements(
    storedContainer: Option<Size>,
    storedTrack: Option<Size>,
    storedThumb: Option<Size>,
    allMeasured: bool,
    containerSize: Size,
    trackSize: Size,
    thumbSize: Size,
    publishes: nat)

  function Stored(m: Measurements, slot: Slot): Option<Size>
  {
    match slot
    case Container => m.storedContainer
    case Track => m.storedTrack
    case Thumb => m.storedThumb
  }

  /** The size `state` holds for `slot`. */
  function Published(m: Measurements, slot: Slot): Size
  {
    match slot
    case Container => m.containerSize
    case Track => m.trackSize
    case Thumb => m.thumbSize
  }

  predicate AllStored(m: Measurements)
  {
    m.storedContainer.Some? && m.storedTrack.Some? && m.storedThumb.Some?
  }

  /** The join's invariant: the state claims `allMeasured` exactly when all
      three sizes are stored, then shows exactly the stored sizes, and before
      that has never been published. */
  predicate Consistent(m: Measurements)
  {
    m.allMeasured == AllStored(m)
    && (m.allMeasured ==>
          m.containerSize == m.storedContainer.value
          && m.trackSize == m.storedTrack.value
          && m.thumbSize == m.storedThumb.value)
    && (!m.allMeasured ==>
          m.containerSize == Unmeasured && m.trackSize == Unmeasured
          && m.thumbSize == Unmeasured && m.publishes == 0)
  }

  /** The state a slider starts in: nothing stored, nothing published. */
  function Initial(): (m: Measurements)
    ensures Consistent(m) && !m.allMeasured
    ensures forall slot :: Stored(m, slot) == None && Published(m, slot) == Unmeasured
  {
    Measurements(None, None, None, false, Unmeasured, Unmeasured, Unmeasured, 0)
  }

  function Store(m: Measurements, slot: Slot, size: Size): Measurements
  {
    match slot
    case Container => m.(storedContainer := Some(size))
    case Track => m.(storedTrack := Some(size))
    case Thumb => m.(storedThumb := Some(size))
  }

  /** Whether a measurement changes nothing: the size equals the stored one. */
  predicate Redundant(m: Measurements, slot: Slot, size: Size)
  {
    Stored(m, slot) == Some(size)
  }

  /** `_handleMeasure(name, event)`: a size equal to the stored one is
      ignored; otherwise it is stored, and if all three are then stored the
      state is set to `allMeasured` with the three stored sizes. */
  function Measure(m: Measurements, slot: Slot, size: Size): (r: Measurements)
    ensures Stored(r, slot) == Some(size)
    ensures forall other :: other != slot ==> Stored(r, other) == Stored(m, other)
  {
    if Redundant(m, slot, size) then m
    else
      var s := Store(m, slot, size);
      if AllStored(s) then
        s.(allMeasured := true,
           trackSize := s.storedTrack.value,
           thumbSize := s.storedThumb.value,
           containerSize := s.storedContainer.value,
           publishes := m.publishes + 1)
      else s
  }

  /** A size equal to the stored one changes nothing: no store, no publish. */
  lemma RedundantMeasureIsNoop(m: Measurements, slot: Slot, size: Size)
    requires Redundant(m, slot, size)
    ensures Measure(m, slot, size) == m
  {
  }

  lemma MeasureIdempotent(m: Measurements, slot: Slot, size: Size)
    ensures Measure(Measure(m, slot, size), slot, size) == Measure(m, slot, size)
  {
  }

  lemma MeasurePreservesConsistent(m: Measurements, slot: Slot, size: Size)
    requires Consistent(m)
    ensures Consistent(Measure(m, slot, size))
  {
  }

  /** Every measurement that changes a size after all three are known
      publishes all three current sizes with `allMeasured`, and counts one
      more `setState`; before that, nothing is published. */
  lemma MeasurePublishes(m: Measurements, slot: Slot, size: Size)
    requires Consistent(m)
    requires !Redundant(m, slot, size)
    ensures var r := Measure(m, slot, size);
            if AllStored(r)
            then r.allMeasured && r.publishes == m.publishes + 1
                 && forall s :: Stored(r, s) == Some(Published(r, s))
            else !r.allMeasured && r.publishes == 0
                 && forall s :: Published(r, s) == Unmeasured
  {
  }

  /** The join completes on exactly the event that supplies the last missing
      size. */
  lemma MeasureCompletesJoin(m: Measurements, slot: Slot, size: Size)
    requires Consistent(m)
    requires !m.allMeasured
    ensures Measure(m, slot, size).allMeasured <==>
            (forall other :: other != slot ==> Stored(m, other).Some?)
  {
    MeasurePreservesConsistent(m, slot, size);
    var r := Measure(m, slot, size);
    assert AllStored(r) <==> forall s :: Stored(r, s).Some? by {
      assert Stored(r, Container) == r.storedContainer;
      assert Stored(r, Track) == r.storedTrack;
      assert Stored(r, Thumb) == r.storedThumb;
    }
  }

  /** Measurements of two different elements may arrive in either order:
      the resulting state is the same (only the number of `setState` calls
      may differ). */
  lemma MeasureOrderIndependent(m: Measurements, a: Slot, sa: Size, b: Slot, sb: Size)
    requires Consistent(m)
    requires a != b
    ensures Measure(Measure(m, a, sa), b, sb).(publishes := 0)
            == Measure(Measure(m, b, sb), a, sa).(publishes := 0)
  {
  }

  /** The layout events of a run, oldest first, applied in turn. */
  function MeasureAll(m: Measurements, events: seq<(Slot, Size)>): Measurements
    decreases |events|
  {
    if events == [] then m
    else MeasureAll(Measure(m, events[0].0, events[0].1), events[1..])
  }

  /** The size most recently delivered for `slot`, or `before` if none was. */
  function LastFor(events: seq<(Slot, Size)>, slot: Slot, before: Option<Size>): Option<Size>
    decreases |events|
  {
    if events == [] then before
    else LastFor(events[1..], slot, if events[0].0 == slot then Some(events[0].1) else before)
  }

  /** Whether `slot` was measured at all in `events`. */
  predicate Delivered(events: seq<(Slot, Size)>, slot: Slot)
  {
    exists i :: 0 <= i < |events| && events[i].0 == slot
  }

  /** After any run of layout events, each stored size is the last one
      delivered for its element. */
  lemma {:induction false} MeasureAllStoresLast(m: Measurements, events: seq<(Slot, Size)>, slot: Slot)
    ensures Stored(MeasureAll(m, events), slot) == LastFor(events, slot, Stored(m, slot))
    decreases |events|
  {
    if events != [] {
      var m' := Measure(m, events[0].0, events[0].1);
      MeasureAllStoresLast(m', events[1..], slot);
    }
  }

  lemma {:induction false} LastForSomeIffDelivered(events: seq<(Slot, Size)>, slot: Slot)
    ensures LastFor(events, slot, None).Some? <==> Delivered(events, slot)
    decreases |events|
  {
    if events != [] {
      var rest := events[1..];
      LastForSomeIffDelivered(rest, slot);
      if events[0].0 == slot {
        LastForKeepsSome(rest, slot, events[0].1);
      }
      assert Delivered(events, slot) <==> events[0].0 == slot || Delivered(rest, slot) by {
        if Delivered(events, slot) && events[0].0 != slot {
          var i :| 0 <= i < |events| && events[i].0 == slot;
          assert rest[i - 1].0 == slot;
        }
        if Delivered(rest, slot) {
          var i :| 0 <= i < |rest| && rest[i].0 == slot;
          assert events[i + 1].0 == slot;
        }
      }
    }
  }

  lemma {:induction false} LastForKeepsSome(events: seq<(Slot, Size)>, slot: Slot, size: Size)
    ensures LastFor(events, slot, Some(size)).Some?
    decreases |events|
  {
    if events != [] {
      var next := if events[0].0 == slot then events[0].1 else size;
      LastForKeepsSome(events[1..], slot, next);
    }
  }

  /** Starting from a fresh slider, `allMeasured` holds after a run of layout
      events exactly when each of the three elements was measured at least
      once, and then the state shows the size last delivered for each. */
  lemma {:induction false} AllMeasuredIffEachDelivered(events: seq<(Slot, Size)>)
    ensures var r := MeasureAll(Initial(), events);
            Consistent(r)
            && (r.allMeasured <==> forall slot :: Delivered(events, slot))
            && (r.allMeasured ==> forall slot :: Some(Published(r, slot)) == LastFor(events, slot, None))
  {
    MeasureAllConsistent(Initial(), events);
    var r := MeasureAll(Initial(), events);
    forall slot ensures Stored(r, slot) == LastFor(events, slot, None)
                     && (LastFor(events, slot, None).Some? <==> Delivered(events, slot)) {
      MeasureAllStoresLast(Initial(), events, slot);
      LastForSomeIffDelivered(events, slot);
    }
    assert AllStored(r) <==> forall slot :: Stored(r, slot).Some? by {
      assert Stored(r, Container) == r.storedContainer;
      assert Stored(r, Track) == r.storedTrack;
      assert Stored(r, Thumb) == r.storedThumb;
    }
  }

  lemma {:induction false} MeasureAllConsistent(m: Measurements, events: seq<(Slot, Size)>)
    requires Consistent(m)
    ensures Consistent(MeasureAll(m, events))
    decreases |events|
  {
    if events != [] {
      MeasurePreservesConsistent(m, events[0].0, events[0].1);
      MeasureAllConsistent(Measure(m, events[0].0, events[0].1), events[1..]);
    }
  }
}
