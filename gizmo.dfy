/**
 * The corner editor as the object the engine runs: four corners and their
 * selection flags in fixed-size arrays, a finger id -> corner map, and a
 * dirty flag, all updated in place. Each method is proved to move the state
 * as the matching function of GizmoSpec says.
 */
module Gizmo {
  import opened Geometry
  import opened Emulation
  import opened GizmoSpec

  class ViewportGizmo {
    /** Set when the corners may have changed; cleared by whoever consumes them. */
    var hasChanged: bool
    /** The behaviour's enabled flag; the engine runs Update only while it is set. */
    var enabled: bool
    const settings: Settings
    /** The quadrilateral, counter-clockwise. */
    const viewportCorners: array<Vec3>
    const selected: array<bool>
    var touchIdMap: map<int, int>
    const touchEmulation: TouchEmulation

    ghost predicate Valid()
      reads this, viewportCorners, selected
    {
      WellFormed(State())
    }

    /** The editor's state as a value. */
    ghost function State(): GizmoState
      reads this, viewportCorners, selected
    {
      GizmoState(viewportCorners[..], selected[..], touchIdMap, hasChanged)
    }

    constructor (settings: Settings)
      ensures Valid() && fresh(viewportCorners) && fresh(selected) && fresh(touchEmulation)
      ensures this.settings == settings
      ensures State() == GizmoState([Zero, Zero, Zero, Zero], [false, false, false, false], map[], false)
      ensures enabled && touchEmulation.id == NoId
    {
      this.settings := settings;
      hasChanged := false;
      enabled := true;
      viewportCorners := new Vec3[CornerCount](_ => Zero);
      selected := new bool[CornerCount](_ => false);
      touchIdMap := map[];
      touchEmulation := new TouchEmulation();
      new;
      assert viewportCorners[..] == [Zero, Zero, Zero, Zero];
      assert selected[..] == [false, false, false, false];
    }

    /** Copies the corners into `corners` when it has room for exactly four. */
    method ReadViewportCorners(corners: array<Vec3>) returns (ok: bool)
      requires Valid()
      modifies corners
      ensures ok <==> corners.Length == CornerCount
      ensures ok ==> corners[..] == old(viewportCorners[..])
      ensures !ok ==> corners[..] == old(corners[..])
      ensures State() == old(State())
    {
      if corners.Length != viewportCorners.Length {
        return false;
      }
      var i := 0;
      while i < viewportCorners.Length
        invariant 0 <= i <= CornerCount
        invariant viewportCorners[..] == old(viewportCorners[..])
        invariant forall j :: 0 <= j < i ==> corners[j] == old(viewportCorners[j])
      {
        corners[i] := viewportCorners[i];
        i := i + 1;
      }
      return true;
    }

    /** Replaces the corners by `corners` when it holds exactly four, and marks them dirty. */
    method WriteViewportCorners(corners: array<Vec3>) returns (ok: bool)
      requires Valid()
      modifies this`hasChanged, viewportCorners
      ensures Valid()
      ensures ok <==> corners.Length == CornerCount
      ensures ok ==> State() == old(State()).(corners := old(corners[..]), hasChanged := true)
      ensures !ok ==> State() == old(State())
    {
      if corners.Length != viewportCorners.Length {
        return false;
      }
      var i := 0;
      while i < viewportCorners.Length
        invariant 0 <= i <= CornerCount
        invariant forall j :: 0 <= j < i ==> viewportCorners[j] == old(corners[j])
        invariant forall j :: i <= j < CornerCount ==> corners[j] == old(corners[j])
      {
        viewportCorners[i] := corners[i];
        i := i + 1;
      }
      hasChanged := true;
      return true;
    }

    /** The lowest-indexed corner strictly within the selection radius of `position`, if any. */
    method IsAnchorHit(position: Vec3) returns (hit: bool, index: int)
      requires Valid()
      ensures hit <==> AnyHit(viewportCorners[..], position, settings.anchorSelectionRadius)
      ensures hit ==> IsLowestHit(viewportCorners[..], position, settings.anchorSelectionRadius, index)
      ensures !hit ==> index == -1
      ensures index == FirstHit(viewportCorners[..], position, settings.anchorSelectionRadius, 0)
    {
      ghost var corners := viewportCorners[..];
      var radius := settings.anchorSelectionRadius;
      FirstHitIsLowestHit(corners, position, radius);
      var i := 0;
      while i != viewportCorners.Length
        invariant 0 <= i <= CornerCount
        invariant FirstHit(corners, position, radius, i) == FirstHit(corners, position, radius, 0)
      {
        if WithinRadius(position, viewportCorners[i], radius) {
          return true, i;
        }
        i := i + 1;
      }
      return false, -1;
    }

    method DeselectAll()
      requires Valid()
      modifies selected
      ensures Valid()
      ensures State() == old(State()).(selected := [false, false, false, false])
    {
      var i := 0;
      while i != selected.Length
        invariant 0 <= i <= CornerCount
        invariant forall j :: 0 <= j < i ==> !selected[j]
      {
        selected[i] := false;
        i := i + 1;
      }
      assert selected[..] == [false, false, false, false];
    }

    /** Forgets every selection and every finger; the corners stay where they are. */
    method Reset()
      requires Valid()
      modifies this`touchIdMap, selected
      ensures Valid()
      ensures State() == old(State()).(selected := [false, false, false, false], touchIdMap := map[])
    {
      DeselectAll();
      touchIdMap := map[];
    }

    /**
     * Sets the enabled flag; as the engine does, enabling a disabled behaviour
     * runs its OnEnable hook, which resets the editor.
     */
    method SetEnabled(value: bool)
      requires Valid()
      modifies this`enabled, this`touchIdMap, selected
      ensures Valid() && enabled == value
      ensures State() == AfterSetEnabled(old(State()), old(enabled), value)
    {
      var wasEnabled := enabled;
      enabled := value;
      if value && !wasEnabled {
        Reset();
      }
    }

    /** Claims the lowest hit corner for a new finger; `duplicate` reports a finger id already in use. */
    method TouchDownHandler(touch: Touch) returns (duplicate: bool)
      requires Valid()
      modifies this`touchIdMap, selected
      ensures Valid()
      ensures State() == TouchDown(old(State()), settings.anchorSelectionRadius, touch.fingerId, ToViewport(settings, touch))
      ensures duplicate <==> AnyHit(old(viewportCorners[..]), ToViewport(settings, touch), settings.anchorSelectionRadius)
                             && touch.fingerId in old(touchIdMap)
    {
      var hit, index := IsAnchorHit(ToViewport(settings, touch));
      if hit {
        if touch.fingerId in touchIdMap {
          return true;
        }
        touchIdMap := touchIdMap[touch.fingerId := index];
        selected[index] := true;
      }
      return false;
    }

    method TouchUpHandler(touch: Touch)
      requires Valid()
      modifies this`touchIdMap, selected
      ensures Valid()
      ensures State() == TouchUp(old(State()), touch.fingerId)
    {
      if touch.fingerId in touchIdMap {
        selected[touchIdMap[touch.fingerId]] := false;
        touchIdMap := touchIdMap - {touch.fingerId};
      }
    }

    method TouchMoveHandler(touch: Touch)
      requires Valid()
      modifies viewportCorners
      ensures Valid()
      ensures State() == TouchMove(old(State()), touch.fingerId, ToViewport(settings, touch))
    {
      if touch.fingerId in touchIdMap {
        viewportCorners[touchIdMap[touch.fingerId]] := ToViewport(settings, touch);
      }
    }

    method TouchHandler(touch: Touch)
      requires Valid()
      modifies this`touchIdMap, this`hasChanged, selected, viewportCorners
      ensures Valid()
      ensures State() == HandleTouch(old(State()), settings, touch)
    {
      match touch.phase
      case Began =>
        var _ := TouchDownHandler(touch);
      case Moved =>
        TouchMoveHandler(touch);
        hasChanged := true;
      case Ended =>
        TouchUpHandler(touch);
      case Canceled =>
        TouchUpHandler(touch);
      case Stationary =>
    }

    /** The loop of UpdateTouchControls over the real touches, in order. */
    method HandleTouchList(touches: seq<Touch>)
      requires Valid()
      modifies this`touchIdMap, this`hasChanged, selected, viewportCorners
      ensures Valid()
      ensures State() == HandleTouches(old(State()), settings, touches)
    {
      ghost var s0 := State();
      var i := 0;
      while i < |touches|
        invariant 0 <= i <= |touches|
        invariant Valid()
        invariant State() == HandleTouches(s0, settings, touches[..i])
      {
        assert touches[..i + 1][..i] == touches[..i];
        TouchHandler(touches[i]);
        i := i + 1;
      }
      assert touches[..|touches|] == touches;
    }

    /** The emulated mouse touch, if the mouse emits one, then every real touch of the frame. */
    method UpdateTouchControls(mouse: MouseFrame, touches: seq<Touch>)
      requires Valid()
      modifies this`touchIdMap, this`hasChanged, selected, viewportCorners, touchEmulation
      ensures Valid()
      ensures State() == HandleTouches(old(State()), settings, FrameEvents(old(touchEmulation.id), mouse, touches))
      ensures touchEmulation.id == Step(old(touchEmulation.id), mouse).id
    {
      ghost var s0 := State();
      ghost var events := FrameEvents(touchEmulation.id, mouse, touches);
      var emitted, mouseTouch := touchEmulation.MouseToTouch(mouse);
      ghost var mouseEvents := if emitted then [mouseTouch] else [];
      assert events == mouseEvents + touches;
      if emitted {
        assert mouseEvents[..0] == [];
        TouchHandler(mouseTouch);
      }
      assert State() == HandleTouches(s0, settings, mouseEvents);
      HandleTouchList(touches);
      HandleTouchesAppend(s0, settings, mouseEvents, touches);
    }

    /** The number keys 0-3 overwrite the selection flags. */
    method UpdateKeyboardAnchorSelection(keys: DigitKeys)
      requires Valid()
      modifies selected
      ensures Valid()
      ensures State() == KeyboardSelection(old(State()), keys)
    {
      selected[0] := keys.alpha0;
      selected[1] := keys.alpha1;
      selected[2] := keys.alpha2;
      selected[3] := keys.alpha3;
    }

    /** The loop of UpdateArrowsControl: every selected corner moves by `step`. */
    method ShiftSelected(step: Vec3)
      requires Valid()
      modifies viewportCorners
      ensures Valid()
      ensures State() == old(State()).(corners := Shift(old(viewportCorners[..]), selected[..], step))
    {
      ghost var target := Shift(viewportCorners[..], selected[..], step);
      var i := 0;
      while i != viewportCorners.Length
        invariant 0 <= i <= CornerCount
        invariant forall j :: 0 <= j < i ==> viewportCorners[j] == target[j]
        invariant forall j :: i <= j < CornerCount ==> viewportCorners[j] == old(viewportCorners[j])
      {
        if selected[i] {
          viewportCorners[i] := Add(viewportCorners[i], step);
        }
        i := i + 1;
      }
      assert viewportCorners[..] == target;
    }

    /**
     * The direction of UpdateArrowsControl, a unit step per held arrow key,
     * and its test that the squared magnitude is positive.
     */
    static method ReadArrowDelta(keys: ArrowKeys) returns (delta: Vec3, moving: bool)
      ensures delta == ArrowDelta(keys)
      ensures moving <==> delta != Zero
    {
      delta := Zero;
      if keys.up {
        delta := Add(delta, Up);
      }
      if keys.down {
        delta := Add(delta, Down);
      }
      if keys.right {
        delta := Add(delta, Right);
      }
      if keys.left {
        delta := Add(delta, Left);
      }
      ArrowDeltaNonZero(keys);
      moving := SqrMagnitude(delta) > 0.0;
    }

    /** The arrow keys nudge every selected corner. */
    method UpdateArrowsControl(keys: ArrowKeys)
      requires Valid()
      modifies this`hasChanged, viewportCorners
      ensures Valid()
      ensures State() == Arrows(old(State()), settings.arrowToPositionFactor, keys)
    {
      var delta, moving := ReadArrowDelta(keys);
      if moving {
        hasChanged := true;
        ShiftSelected(Scale(delta, settings.arrowToPositionFactor));
      }
    }

    /** One frame: touches first, then the number keys, then the arrow keys. */
    method Update(mouse: MouseFrame, touches: seq<Touch>, digits: DigitKeys, arrows: ArrowKeys)
      requires Valid()
      modifies this`touchIdMap, this`hasChanged, selected, viewportCorners, touchEmulation
      ensures Valid()
      ensures State() == UpdateFrame(old(State()), settings, FrameEvents(old(touchEmulation.id), mouse, touches), digits, arrows)
      ensures touchEmulation.id == Step(old(touchEmulation.id), mouse).id
    {
      UpdateTouchControls(mouse, touches);
      UpdateKeyboardAnchorSelection(digits);
      UpdateArrowsControl(arrows);
    }
  }
}
