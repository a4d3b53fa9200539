/**
 * The corner editor's state as a value, and one function per way the editor
 * changes it. The ViewportGizmo class (gizmo.dfy) updates its fields in place
 * and is proved to follow these functions; the lemmas here state what the
 * editor promises over one or several events.
 */
module GizmoSpec {
  import opened Geometry
  import opened Emulation

  /** The quadrilateral always has four corners, counter-clockwise. */
  const CornerCount: nat := 4

  /** Held states of the number keys 0, 1, 2 and 3. */
  datatype DigitKeys = DigitKeys(alpha0: bool, alpha1: bool, alpha2: bool, alpha3: bool)

  /** Held states of the arrow keys. */
  datatype ArrowKeys = ArrowKeys(up: bool, down: bool, right: bool, left: bool)

  /**
   * The editor's serialized settings and its camera: the hit radius, the
   * arrow step, and the screen-to-viewport projection of the main camera.
   */
  datatype Settings = Settings(anchorSelectionRadius: real, arrowToPositionFactor: real,
                               screenToViewport: Vec3 -> Vec3)

  /** Corners, their selection flags, finger id -> corner index, and the dirty flag. */
  datatype GizmoState = GizmoState(corners: seq<Vec3>, selected: seq<bool>,
                                   touchIdMap: map<int, int>, hasChanged: bool)

  predicate WellFormed(s: GizmoState) {
    && |s.corners| == CornerCount
    && |s.selected| == CornerCount
    && forall f | f in s.touchIdMap :: 0 <= s.touchIdMap[f] < CornerCount
  }

  /** The viewport point of a touch: its screen position widened and projected. */
  function ToViewport(st: Settings, t: Touch): Vec3 {
    st.screenToViewport(Widen(t.position))
  }

  /** Some corner lies strictly inside the selection radius around `p`. */
  predicate AnyHit(corners: seq<Vec3>, p: Vec3, radius: real) {
    exists i :: 0 <= i < |corners| && WithinRadius(p, corners[i], radius)
  }

  /** Corner `i` is hit and no corner with a lower index is. */
  predicate IsLowestHit(corners: seq<Vec3>, p: Vec3, radius: real, i: int) {
    && 0 <= i < |corners|
    && WithinRadius(p, corners[i], radius)
    && forall j :: 0 <= j < i ==> !WithinRadius(p, corners[j], radius)
  }

  /** The scan of the corners from index `from` on: the first hit, or -1. */
  function FirstHit(corners: seq<Vec3>, p: Vec3, radius: real, from: nat): (i: int)
    requires from <= |corners|
    ensures i == -1 || from <= i < |corners|
    ensures i >= 0 ==> WithinRadius(p, corners[i], radius)
    ensures i >= 0 ==> forall j :: from <= j < i ==> !WithinRadius(p, corners[j], radius)
    ensures i == -1 ==> forall j :: from <= j < |corners| ==> !WithinRadius(p, corners[j], radius)
    decreases |corners| - from
  {
    if from == |corners| then -1
    else if WithinRadius(p, corners[from], radius) then from
    else FirstHit(corners, p, radius, from + 1)
  }

  /** At most one corner is the lowest hit. */
  lemma LowestHitUnique(corners: seq<Vec3>, p: Vec3, radius: real, i: int, j: int)
    requires IsLowestHit(corners, p, radius, i) && IsLowestHit(corners, p, radius, j)
    ensures i == j
  {
  }

  /** A scan from the first corner finds exactly the lowest hit corner, if any. */
  lemma FirstHitIsLowestHit(corners: seq<Vec3>, p: Vec3, radius: real)
    ensures FirstHit(corners, p, radius, 0) >= 0 <==> AnyHit(corners, p, radius)
    ensures AnyHit(corners, p, radius) ==> IsLowestHit(corners, p, radius, FirstHit(corners, p, radius, 0))
  {
  }

  /**
   * A finger touches down at viewport point `p`: the lowest hit corner is
   * claimed for the finger and selected, unless nothing is hit or the finger
   * is already registered.
   */
  function TouchDown(s: GizmoState, radius: real, fingerId: int, p: Vec3): (r: GizmoState)
    requires WellFormed(s)
    ensures WellFormed(r)
    ensures r.corners == s.corners && r.hasChanged == s.hasChanged
    ensures fingerId in s.touchIdMap || !AnyHit(s.corners, p, radius) ==> r == s
    ensures fingerId in r.touchIdMap <==> fingerId in s.touchIdMap || AnyHit(s.corners, p, radius)
    ensures fingerId !in s.touchIdMap && AnyHit(s.corners, p, radius) ==>
              && IsLowestHit(s.corners, p, radius, r.touchIdMap[fingerId])
              && r.touchIdMap == s.touchIdMap[fingerId := r.touchIdMap[fingerId]]
              && r.selected == s.selected[r.touchIdMap[fingerId] := true]
  {
    FirstHitIsLowestHit(s.corners, p, radius);
    var index := FirstHit(s.corners, p, radius, 0);
    if index >= 0 && fingerId !in s.touchIdMap then
      s.(touchIdMap := s.touchIdMap[fingerId := index], selected := s.selected[index := true])
    else
      s
  }

  /** A finger moves to viewport point `p`: the corner it holds, and only that one, follows. */
  function TouchMove(s: GizmoState, fingerId: int, p: Vec3): (r: GizmoState)
    requires WellFormed(s)
    ensures WellFormed(r)
    ensures r.selected == s.selected && r.touchIdMap == s.touchIdMap && r.hasChanged == s.hasChanged
    ensures fingerId in s.touchIdMap ==> r.corners[s.touchIdMap[fingerId]] == p
    ensures forall i :: 0 <= i < CornerCount && (fingerId !in s.touchIdMap || i != s.touchIdMap[fingerId]) ==>
              r.corners[i] == s.corners[i]
  {
    if fingerId in s.touchIdMap then s.(corners := s.corners[s.touchIdMap[fingerId] := p]) else s
  }

  /** A finger lifts or is cancelled: its corner is deselected and its entry removed. */
  function TouchUp(s: GizmoState, fingerId: int): (r: GizmoState)
    requires WellFormed(s)
    ensures WellFormed(r)
    ensures r.corners == s.corners && r.hasChanged == s.hasChanged
    ensures fingerId !in r.touchIdMap
    ensures forall f :: f != fingerId ==> (f in r.touchIdMap <==> f in s.touchIdMap)
    ensures forall f | f in r.touchIdMap :: r.touchIdMap[f] == s.touchIdMap[f]
    ensures fingerId in s.touchIdMap ==> r.selected == s.selected[s.touchIdMap[fingerId] := false]
    ensures fingerId !in s.touchIdMap ==> r == s
  {
    if fingerId in s.touchIdMap then
      s.(selected := s.selected[s.touchIdMap[fingerId] := false], touchIdMap := s.touchIdMap - {fingerId})
    else
      s
  }

  /** One touch event, dispatched on its phase. A Moved event always marks the corners dirty. */
  function HandleTouch(s: GizmoState, st: Settings, t: Touch): (r: GizmoState)
    requires WellFormed(s)
    ensures WellFormed(r)
    ensures t.phase == Moved ==> r.hasChanged
    ensures t.phase != Moved ==> r.hasChanged == s.hasChanged
    ensures t.phase != Moved ==> r.corners == s.corners
    ensures t.phase == Stationary ==> r == s
  {
    match t.phase
    case Began => TouchDown(s, st.anchorSelectionRadius, t.fingerId, ToViewport(st, t))
    case Moved => TouchMove(s, t.fingerId, ToViewport(st, t)).(hasChanged := true)
    case Ended => TouchUp(s, t.fingerId)
    case Canceled => TouchUp(s, t.fingerId)
    case Stationary => s
  }

  /** The touch events of one frame, in order. */
  function HandleTouches(s: GizmoState, st: Settings, ts: seq<Touch>): (r: GizmoState)
    requires WellFormed(s)
    ensures WellFormed(r)
    ensures (forall k :: 0 <= k < |ts| ==> ts[k].phase != Moved) ==> r.corners == s.corners && r.hasChanged == s.hasChanged
  {
    if ts == [] then s else HandleTouch(HandleTouches(s, st, ts[..|ts| - 1]), st, ts[|ts| - 1])
  }

  /** Handling two runs of events back to back is handling their concatenation. */
  lemma {:induction false} HandleTouchesAppend(s: GizmoState, st: Settings, a: seq<Touch>, b: seq<Touch>)
    requires WellFormed(s)
    ensures HandleTouches(s, st, a + b) == HandleTouches(HandleTouches(s, st, a), st, b)
    decreases |b|
  {
    if b == [] {
      assert a + b == a;
    } else {
      var n := |b| - 1;
      assert (a + b)[..|a + b| - 1] == a + b[..n];
      assert (a + b)[|a + b| - 1] == b[n];
      HandleTouchesAppend(s, st, a, b[..n]);
    }
  }

  /** The selection the number keys ask for: corner i is selected iff key i is held. */
  function DigitSelection(keys: DigitKeys): (sel: seq<bool>)
    ensures |sel| == CornerCount
    ensures sel[0] == keys.alpha0 && sel[1] == keys.alpha1 && sel[2] == keys.alpha2 && sel[3] == keys.alpha3
  {
    [keys.alpha0, keys.alpha1, keys.alpha2, keys.alpha3]
  }

  /** The number keys overwrite every selection flag, whatever touches selected before. */
  function KeyboardSelection(s: GizmoState, keys: DigitKeys): (r: GizmoState)
    requires WellFormed(s)
    ensures WellFormed(r)
    ensures r.selected == DigitSelection(keys)
    ensures r.corners == s.corners && r.touchIdMap == s.touchIdMap && r.hasChanged == s.hasChanged
  {
    s.(selected := DigitSelection(keys))
  }

  /** One axis of the arrow keys: 1 when only the positive key is held, -1 when only the negative one, else 0. */
  function Axis(positive: bool, negative: bool): real {
    if positive == negative then 0.0 else if positive then 1.0 else -1.0
  }

  /**
   * The direction the held arrow keys ask for: each held key contributes its
   * unit direction, so x is right against left, y is up against down, z is 0.
   */
  function ArrowDelta(keys: ArrowKeys): Vec3 {
    Vec3(Axis(keys.right, keys.left), Axis(keys.up, keys.down), 0.0)
  }

  /**
   * The delta's squared magnitude is positive exactly when the delta is
   * non-zero, which is exactly when the held arrow keys do not cancel out.
   */
  lemma ArrowDeltaNonZero(keys: ArrowKeys)
    ensures SqrMagnitude(ArrowDelta(keys)) > 0.0 <==> ArrowDelta(keys) != Zero
    ensures ArrowDelta(keys) != Zero <==> keys.up != keys.down || keys.right != keys.left
  {
    SqrMagnitudeOnUnitGrid(ArrowDelta(keys));
  }

  /** Every selected corner moved by `d`; the others kept. */
  function Shift(corners: seq<Vec3>, selected: seq<bool>, d: Vec3): (r: seq<Vec3>)
    requires |selected| == |corners|
    ensures |r| == |corners|
    ensures forall i :: 0 <= i < |r| && selected[i] ==> r[i] == Add(corners[i], d)
    ensures forall i :: 0 <= i < |r| && !selected[i] ==> r[i] == corners[i]
  {
    seq(|corners|, i requires 0 <= i < |corners| => if selected[i] then Add(corners[i], d) else corners[i])
  }

  /**
   * The arrow keys: when their delta is non-zero (its squared magnitude is
   * positive, by ArrowDeltaNonZero), the corners are marked dirty (even if
   * none is selected) and every selected corner moves by the delta times the
   * step factor.
   */
  function Arrows(s: GizmoState, factor: real, keys: ArrowKeys): (r: GizmoState)
    requires WellFormed(s)
    ensures WellFormed(r)
    ensures r.selected == s.selected && r.touchIdMap == s.touchIdMap
    ensures keys.up == keys.down && keys.right == keys.left ==> r == s
    ensures keys.up != keys.down || keys.right != keys.left ==>
              && r.hasChanged
              && forall i :: 0 <= i < CornerCount ==>
                   r.corners[i] == if s.selected[i] then Add(s.corners[i], Scale(ArrowDelta(keys), factor)) else s.corners[i]
  {
    var delta := ArrowDelta(keys);
    if delta != Zero then
      s.(hasChanged := true, corners := Shift(s.corners, s.selected, Scale(delta, factor)))
    else
      s
  }

  /** One frame of the editor: the touch events, then the number keys, then the arrow keys. */
  function UpdateFrame(s: GizmoState, st: Settings, events: seq<Touch>, digits: DigitKeys, arrows: ArrowKeys): (r: GizmoState)
    requires WellFormed(s)
    ensures WellFormed(r)
    ensures r.selected == DigitSelection(digits)
    ensures r.touchIdMap == HandleTouches(s, st, events).touchIdMap
  {
    Arrows(KeyboardSelection(HandleTouches(s, st, events), digits), st.arrowToPositionFactor, arrows)
  }

  /** The touch events the editor sees in a frame: the emulated mouse touch, if any, then the real touches. */
  function FrameEvents(emulatorId: int, mouse: MouseFrame, touches: seq<Touch>): (r: seq<Touch>)
    ensures |r| == |touches| + (if Step(emulatorId, mouse).emitted then 1 else 0)
    ensures Step(emulatorId, mouse).emitted ==> r[0] == Step(emulatorId, mouse).touch
    ensures forall k :: 0 <= k < |touches| ==> r[|r| - |touches| + k] == touches[k]
  {
    var e := Step(emulatorId, mouse);
    (if e.emitted then [e.touch] else []) + touches
  }

  /**
   * The state after the behaviour's enabled flag is set to `value`: enabling
   * a disabled editor runs its OnEnable hook, which forgets every selection
   * and every finger; any other change leaves the state as it was.
   */
  function AfterSetEnabled(s: GizmoState, wasEnabled: bool, value: bool): GizmoState {
    if value && !wasEnabled then s.(selected := [false, false, false, false], touchIdMap := map[]) else s
  }

  /** Ended and Canceled are handled alike. */
  lemma EndedLikeCanceled(s: GizmoState, st: Settings, fingerId: int, position: Vec2)
    requires WellFormed(s)
    ensures HandleTouch(s, st, Touch(fingerId, Ended, position)) == HandleTouch(s, st, Touch(fingerId, Canceled, position))
  {
  }

  /**
   * A press near corner k, a move and a release by the same finger leave
   * corner k at the moved-to point, deselected, the finger forgotten and the
   * corners dirty.
   */
  lemma DragAndRelease(s: GizmoState, st: Settings, fingerId: int, down: Vec2, moved: Vec2, up: Vec2, k: int)
    requires WellFormed(s)
    requires fingerId !in s.touchIdMap
    requires IsLowestHit(s.corners, st.screenToViewport(Widen(down)), st.anchorSelectionRadius, k)
    ensures var s1 := HandleTouch(s, st, Touch(fingerId, Began, down));
            var s2 := HandleTouch(s1, st, Touch(fingerId, Moved, moved));
            var s3 := HandleTouch(s2, st, Touch(fingerId, Ended, up));
            && s1.touchIdMap[fingerId] == k && s1.selected[k]
            && s2.hasChanged
            && s3.corners == s.corners[k := st.screenToViewport(Widen(moved))]
            && !s3.selected[k]
            && s3.touchIdMap == s.touchIdMap
            && s3.hasChanged
  {
    var p := st.screenToViewport(Widen(down));
    var s1 := HandleTouch(s, st, Touch(fingerId, Began, down));
    assert AnyHit(s.corners, p, st.anchorSelectionRadius);
    LowestHitUnique(s.corners, p, st.anchorSelectionRadius, s1.touchIdMap[fingerId], k);
    var s2 := HandleTouch(s1, st, Touch(fingerId, Moved, moved));
    var s3 := HandleTouch(s2, st, Touch(fingerId, Ended, up));
    assert s3.touchIdMap == s.touchIdMap;
  }

  /**
   * A touch claims a corner regardless of other fingers: two fingers pressing
   * near the same corner both hold it.
   */
  lemma TwoFingersShareCorner(s: GizmoState, st: Settings, f1: int, f2: int, p1: Vec2, p2: Vec2, k: int)
    requires WellFormed(s)
    requires f1 != f2 && f1 !in s.touchIdMap && f2 !in s.touchIdMap
    requires IsLowestHit(s.corners, st.screenToViewport(Widen(p1)), st.anchorSelectionRadius, k)
    requires IsLowestHit(s.corners, st.screenToViewport(Widen(p2)), st.anchorSelectionRadius, k)
    ensures var r := HandleTouches(s, st, [Touch(f1, Began, p1), Touch(f2, Began, p2)]);
            f1 in r.touchIdMap && f2 in r.touchIdMap && r.touchIdMap[f1] == k && r.touchIdMap[f2] == k
  {
    var ts := [Touch(f1, Began, p1), Touch(f2, Began, p2)];
    assert ts[..1][..0] == [];
    assert ts[..|ts| - 1] == [ts[0]];
    var s1 := HandleTouch(s, st, ts[0]);
    assert HandleTouches(s, st, ts[..1]) == s1;
    var q1 := st.screenToViewport(Widen(p1));
    var q2 := st.screenToViewport(Widen(p2));
    assert AnyHit(s.corners, q1, st.anchorSelectionRadius);
    LowestHitUnique(s.corners, q1, st.anchorSelectionRadius, s1.touchIdMap[f1], k);
    var r := HandleTouch(s1, st, ts[1]);
    assert AnyHit(s1.corners, q2, st.anchorSelectionRadius);
    LowestHitUnique(s.corners, q2, st.anchorSelectionRadius, r.touchIdMap[f2], k);
  }

  /** The arrow keys opposite to those held. */
  function Opposite(keys: ArrowKeys): ArrowKeys {
    ArrowKeys(keys.down, keys.up, keys.left, keys.right)
  }

  /** Shifting the selected corners by `d` and then by `-d` gives them back. */
  lemma ShiftUndo(corners: seq<Vec3>, selected: seq<bool>, d: Vec3)
    requires |selected| == |corners|
    ensures Shift(Shift(corners, selected, d), selected, Negate(d)) == corners
  {
    var r := Shift(Shift(corners, selected, d), selected, Negate(d));
    forall i | 0 <= i < |corners|
      ensures r[i] == corners[i]
    {
      AddNegateCancels(corners[i], d);
    }
  }

  /** The opposite keys give the opposite direction. */
  lemma ArrowDeltaOpposite(keys: ArrowKeys)
    ensures ArrowDelta(Opposite(keys)) == Negate(ArrowDelta(keys))
  {
    AxisSwap(keys.right, keys.left);
    AxisSwap(keys.up, keys.down);
  }

  /** Swapping an axis's two keys negates it. */
  lemma AxisSwap(positive: bool, negative: bool)
    ensures Axis(negative, positive) == -Axis(positive, negative)
  {
  }

  /** Nudging with the opposite arrow keys, the selection unchanged, undoes a nudge. */
  lemma ArrowsUndo(s: GizmoState, factor: real, keys: ArrowKeys)
    requires WellFormed(s)
    ensures Arrows(Arrows(s, factor, keys), factor, Opposite(keys)).corners == s.corners
  {
    if keys.up != keys.down || keys.right != keys.left {
      var d := Scale(ArrowDelta(keys), factor);
      var s1 := Arrows(s, factor, keys);
      assert s1.corners == Shift(s.corners, s.selected, d) && s1.selected == s.selected;
      assert Arrows(s1, factor, Opposite(keys)).corners == Shift(s1.corners, s.selected, Negate(d)) by {
        ArrowDeltaOpposite(keys);
        ScaleNegate(ArrowDelta(keys), factor);
      }
      ShiftUndo(s.corners, s.selected, d);
    }
  }

  /**
   * The number keys overwrite the selection after the touches: a new finger
   * that presses near corner k in a frame where key k is not held ends the
   * frame holding k in the finger map while k shows as deselected.
   */
  lemma KeysOverrideTouchSelection(s: GizmoState, st: Settings, f: int, p: Vec2, digits: DigitKeys,
                                   arrows: ArrowKeys, k: int)
    requires WellFormed(s)
    requires f !in s.touchIdMap
    requires IsLowestHit(s.corners, st.screenToViewport(Widen(p)), st.anchorSelectionRadius, k)
    requires !DigitSelection(digits)[k]
    ensures var r := UpdateFrame(s, st, [Touch(f, Began, p)], digits, arrows);
            f in r.touchIdMap && r.touchIdMap[f] == k && !r.selected[k]
  {
    var events := [Touch(f, Began, p)];
    var q := st.screenToViewport(Widen(p));
    assert events[..|events| - 1] == [];
    assert HandleTouches(s, st, []) == s;
    var s1 := HandleTouches(s, st, events);
    assert s1 == HandleTouch(s, st, events[0]);
    assert AnyHit(s.corners, q, st.anchorSelectionRadius);
    LowestHitUnique(s.corners, q, st.anchorSelectionRadius, s1.touchIdMap[f], k);
  }

  /**
   * A click whose press and release fall in the same frame reaches the
   * editor as a press only: the corner it hits stays claimed by the drawn
   * id, and no release for that id is emitted.
   */
  lemma SameFrameClickStaysClaimed(s: GizmoState, st: Settings, emulatorId: int, mouse: MouseFrame)
    requires WellFormed(s)
    requires mouse.buttonDown && mouse.buttonUp
    requires mouse.randomId !in s.touchIdMap
    requires AnyHit(s.corners, st.screenToViewport(Widen(Narrow(mouse.mousePosition))), st.anchorSelectionRadius)
    ensures FrameEvents(emulatorId, mouse, []) == [Touch(mouse.randomId, Began, Narrow(mouse.mousePosition))]
    ensures mouse.randomId in HandleTouches(s, st, FrameEvents(emulatorId, mouse, [])).touchIdMap
  {
    var events := FrameEvents(emulatorId, mouse, []);
    assert events[..0] == [];
    assert HandleTouches(s, st, events) == HandleTouch(s, st, events[0]);
  }
}
