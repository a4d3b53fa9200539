# Homography corner editor: a Dafny model

UnityHomography warps the camera image so that a quadrilateral the user
places on screen maps onto the full viewport. The user edits the
quadrilateral's four corners by dragging them with touches, with the mouse
(turned into a synthetic touch stream) or with the keyboard: number keys
select corners and arrow keys nudge the selected ones. Whenever the corners
change, the effect recomputes the homography. This is the 3x3 projective map
from the edited corners to the unit square. It is the null vector of an 8x9
linear system, reshaped into the upper-left block of a 4x4 matrix.

The project models the three scripts in six modules:

- `geometry.dfy` (`Geometry`): the engine's Vector2/Vector3 over exact reals,
  and the strict hit test `(p - c).magnitude < radius`.
- `emulation.dfy` (`Emulation`): `TouchEmulation`, a class holding the id of
  the current press. Its `MouseToTouch` is proved to follow the pure step
  function `Step`. Lemmas cover runs of many frames.
- `gizmo_state.dfy` (`GizmoSpec`): the corner editor's state as a value
  (corners, selection flags, finger id -> corner map, dirty flag). It has
  one function per event and lemmas about sequences of events.
- `gizmo.dfy` (`Gizmo`): `ViewportGizmo`, the editor as a class. The corners
  and flags are arrays updated in place. Every method is proved to move
  `State()` exactly as the matching `GizmoSpec` function says.
- `homography.dfy` (`Homography`): the linear system of four
  correspondences, proofs that its null space is exactly the set of maps
  sending each corner to its partner wherever w is non-zero at every source
  corner, and the reshape into a 4x4 matrix.
- `effect.dfy` (`Effect`): `HomographyImageEffect`, which owns the warped
  corners. It covers the edit toggle (Ctrl+H in, Ctrl out), reset (R),
  load and save through the player preferences, and recomputing the
  homography when the editor is dirty.

Behaviours of the code worth knowing:

- Two fingers pressing near the same corner both claim it
  (Assets/Scripts/ViewportGizmo.cs:172-178, `GizmoSpec.TwoFingersShareCorner`).
- Every Moved event marks the corners dirty, even for a finger that holds no
  corner (`GizmoSpec.HandleTouch`).
- Arrow keys that do not cancel out mark the corners dirty even when no
  corner is selected. Opposite keys cancel each other; only when both pairs
  cancel does nothing change (`GizmoSpec.Arrows`).
- A press with an already registered finger id is reported only if it hits
  a corner (`Gizmo.ViewportGizmo.TouchDownHandler`).
- In each frame the number keys overwrite every selection flag after the
  touches are handled. A corner that a finger claimed in that frame is
  deselected again unless its key is held, while the finger still holds it
  in the finger map (`GizmoSpec.KeysOverrideTouchSelection`).
- Solving from the unit square to itself gives a multiple of the identity
  matrix, not necessarily the identity: the code returns whatever singular
  vector the library picks. The identity lies in the system's null space
  (`Homography.IdentitySolvesFixedCorners`), the null space is closed under
  scaling (`Homography.KernelScales`), and every vector in it is the identity
  scaled by its last entry (`Homography.UnitSquareKernelIsIdentity`). So a
  null vector returned by the decomposition yields that multiple of the
  identity (`Homography.FindHomographyOfUnitSquare`).
- A mouse click whose press and release fall in the same frame emits only
  the press. The corner stays claimed by that press's id, and no release for
  it ever follows (`GizmoSpec.SameFrameClickStaysClaimed`).

## Model

| member | source | states |
|---|---|---|
| Emulation.Step | Assets/Scripts/TouchEmulation.cs:9-35 | A down edge emits Began and stores the newly drawn id. Otherwise an up edge emits Ended and a held button emits Moved, both with the stored id. A touch is emitted iff any of the three holds, and it is placed at the mouse position with z dropped. When nothing is emitted the touch is the default one. |
| Emulation.IdAfterIsLastPress | Assets/Scripts/TouchEmulation.cs:7-16 | After any run of frames, the stored id is the id drawn by the last press in the run, or the initial id when there was no press. |
| Emulation.EmittedIdIsLastPress | Assets/Scripts/TouchEmulation.cs:12-31 | In any frame of a run, an emitted Moved or Ended touch carries the id of the most recent press. |
| Emulation.TouchEmulation.constructor | Assets/Scripts/TouchEmulation.cs:7 | The stored id starts at -1. |
| Emulation.TouchEmulation.MouseToTouch | Assets/Scripts/TouchEmulation.cs:9-35 | The result flag, the touch and the new stored id are exactly `Step` of the old id and the frame's mouse input. |
| GizmoSpec.FirstHit | Assets/Scripts/ViewportGizmo.cs:199-211 | Scanning from an index gives -1 or an index at least that large. That corner is strictly within the radius and no corner scanned before it is. -1 means no corner from the start index on is within the radius. |
| GizmoSpec.LowestHitUnique | Assets/Scripts/ViewportGizmo.cs:199-211 | Only one index can be the lowest hit corner. |
| GizmoSpec.FirstHitIsLowestHit | Assets/Scripts/ViewportGizmo.cs:199-211 | A full scan finds a corner iff some corner is hit, and the corner it finds is the lowest hit one. |
| GizmoSpec.TouchDown | Assets/Scripts/ViewportGizmo.cs:166-180 | The state is unchanged when nothing is hit or the finger is already registered. Otherwise the finger is mapped to the lowest hit corner and that corner alone becomes selected. The corners and the dirty flag never change. |
| GizmoSpec.TouchMove | Assets/Scripts/ViewportGizmo.cs:191-197 | The corner held by the finger moves to the point. Every other corner, and every corner when the finger is unregistered, stays put. The selection and the map are unchanged. |
| GizmoSpec.TouchUp | Assets/Scripts/ViewportGizmo.cs:182-189 | The finger is removed from the map and every other entry is kept. Its corner is deselected. An unregistered finger leaves the state unchanged. |
| GizmoSpec.HandleTouch | Assets/Scripts/ViewportGizmo.cs:146-164 | A Moved event always marks the corners dirty. No other phase changes the corners or the dirty flag, and Stationary changes nothing. The state stays well formed. |
| GizmoSpec.HandleTouches | Assets/Scripts/ViewportGizmo.cs:87-99 | The events are handled in order. The state stays well formed. Without a Moved event the corners and the dirty flag are unchanged. |
| GizmoSpec.HandleTouchesAppend | Assets/Scripts/ViewportGizmo.cs:87-99 | Handling one run of touches and then another gives the same state as handling the two runs joined into one. |
| GizmoSpec.DigitSelection | Assets/Scripts/ViewportGizmo.cs:138-144 | Corner i is selected iff number key i is held. |
| GizmoSpec.KeyboardSelection | Assets/Scripts/ViewportGizmo.cs:138-144 | The selection becomes the number keys' selection. The corners, the map and the dirty flag are unchanged. |
| GizmoSpec.ArrowDeltaNonZero | Assets/Scripts/ViewportGizmo.cs:103-125 | The squared magnitude of the delta is positive iff the delta is non-zero, which holds iff Up and Down differ or Right and Left differ. |
| GizmoSpec.Shift | Assets/Scripts/ViewportGizmo.cs:128-134 | Every selected corner moves by the offset and every other corner is kept. |
| GizmoSpec.Arrows | Assets/Scripts/ViewportGizmo.cs:101-136 | Keys that cancel out, so that the delta is zero, leave the state unchanged. Otherwise the corners are marked dirty and each selected corner moves by the delta times the step factor. The selection and the map are unchanged. |
| GizmoSpec.FrameEvents | Assets/Scripts/ViewportGizmo.cs:87-99 | The events of a frame are the emulated mouse touch first, when the mouse emits one, and then every real touch in order. |
| GizmoSpec.UpdateFrame | Assets/Scripts/ViewportGizmo.cs:49-54 | After one frame the selection is exactly the number keys' selection. The finger map is the one left by the frame's touches. |
| GizmoSpec.EndedLikeCanceled | Assets/Scripts/ViewportGizmo.cs:157-160 | An Ended and a Canceled event have the same effect. |
| GizmoSpec.DragAndRelease | Assets/Scripts/ViewportGizmo.cs:146-197 | A press on corner k, a move and a release by a new finger do the following. The press claims and selects k, and the move sets dirty. At the end, k alone has moved to the moved-to point, k is deselected and the map is back to what it was. |
| GizmoSpec.TwoFingersShareCorner | Assets/Scripts/ViewportGizmo.cs:166-180 | Two new fingers pressing near the same lowest hit corner are both mapped to it. |
| GizmoSpec.ShiftUndo | Assets/Scripts/ViewportGizmo.cs:128-134 | Shifting the selected corners by d and then by -d restores them. |
| GizmoSpec.ArrowDeltaOpposite | Assets/Scripts/ViewportGizmo.cs:103-123 | The opposite arrow keys give the negated delta. |
| GizmoSpec.ArrowsUndo | Assets/Scripts/ViewportGizmo.cs:101-136 | Nudging with some arrow keys and then with the opposite ones restores the corners. |
| GizmoSpec.KeysOverrideTouchSelection | Assets/Scripts/ViewportGizmo.cs:49-54 | A new finger that presses near corner k, in a frame where number key k is not held, ends the frame holding k in the finger map while k shows as deselected. |
| GizmoSpec.SameFrameClickStaysClaimed | Assets/Scripts/ViewportGizmo.cs:87-99 | Suppose the press and the release of a click fall in one frame. Only a Began touch with the drawn id reaches the editor, and the hit corner stays mapped to that id. |
| Gizmo.ViewportGizmo.constructor | Assets/Scripts/ViewportGizmo.cs:7-19 | The editor starts with four zero corners, no selection, an empty map and a clear dirty flag. It is enabled, and its emulation holds id -1. |
| Gizmo.ViewportGizmo.ReadViewportCorners | Assets/Scripts/ViewportGizmo.cs:21-30 | Succeeds iff the target holds exactly four points, and then copies the corners into it. On failure the target is untouched. The editor never changes. |
| Gizmo.ViewportGizmo.WriteViewportCorners | Assets/Scripts/ViewportGizmo.cs:32-42 | Succeeds iff the source holds exactly four points. Then the corners become the source and are marked dirty. Otherwise nothing changes. |
| Gizmo.ViewportGizmo.IsAnchorHit | Assets/Scripts/ViewportGizmo.cs:199-211 | Reports a hit iff some corner is strictly within the radius. The index returned is the lowest such corner, or -1 when there is no hit. |
| Gizmo.ViewportGizmo.DeselectAll | Assets/Scripts/ViewportGizmo.cs:218-224 | Every flag becomes false and nothing else changes. |
| Gizmo.ViewportGizmo.Reset | Assets/Scripts/ViewportGizmo.cs:81-85 | Clears the selection and the finger map. The corners and the dirty flag are kept. |
| Gizmo.ViewportGizmo.SetEnabled | Assets/Scripts/ViewportGizmo.cs:44-47 | Enabling a disabled editor runs its OnEnable hook, which resets it. Any other change of the flag leaves the state unchanged. |
| Gizmo.ViewportGizmo.TouchDownHandler | Assets/Scripts/ViewportGizmo.cs:166-180 | The new state is `TouchDown`. A duplicate is reported iff a corner is hit and the finger is already registered. |
| Gizmo.ViewportGizmo.TouchUpHandler | Assets/Scripts/ViewportGizmo.cs:182-189 | The new state is `TouchUp`. |
| Gizmo.ViewportGizmo.TouchMoveHandler | Assets/Scripts/ViewportGizmo.cs:191-197 | The new state is `TouchMove`. |
| Gizmo.ViewportGizmo.TouchHandler | Assets/Scripts/ViewportGizmo.cs:146-164 | The new state is `HandleTouch`. |
| Gizmo.ViewportGizmo.UpdateTouchControls | Assets/Scripts/ViewportGizmo.cs:87-99 | The new state is `HandleTouches` of the emulated mouse touch, if any, followed by the real touches. The emulation's id advances by `Step`. |
| Gizmo.ViewportGizmo.HandleTouchList | Assets/Scripts/ViewportGizmo.cs:95-98 | The loop over the real touches: the new state is `HandleTouches` of the old state over those touches, in order. |
| Gizmo.ViewportGizmo.UpdateKeyboardAnchorSelection | Assets/Scripts/ViewportGizmo.cs:138-144 | The new state is `KeyboardSelection`. |
| Gizmo.ViewportGizmo.UpdateArrowsControl | Assets/Scripts/ViewportGizmo.cs:101-136 | The new state is `Arrows`. |
| Gizmo.ViewportGizmo.ReadArrowDelta | Assets/Scripts/ViewportGizmo.cs:103-125 | The four conditional additions of the held keys' unit directions equal `ArrowDelta`: x is 1 with only Right held, -1 with only Left held, and 0 otherwise; y likewise for Up and Down; z is 0. The squared-magnitude test holds iff that sum is non-zero. |
| Gizmo.ViewportGizmo.ShiftSelected | Assets/Scripts/ViewportGizmo.cs:128-134 | The loop over the corners: the corners become `Shift` of the old corners under the selection. Everything else is unchanged. |
| Gizmo.ViewportGizmo.Update | Assets/Scripts/ViewportGizmo.cs:49-54 | The new state is `UpdateFrame` of the frame's events, number keys and arrow keys. |
| Homography.XRow | Assets/Scripts/HomographyImageEffect.cs:184 | The x equation of a correspondence, applied to any h, is the multiplied-out residual x2 * w - x of the perspective divide. |
| Homography.YRow | Assets/Scripts/HomographyImageEffect.cs:185 | The y equation of a correspondence, applied to any h, is the residual y2 * w - y. |
| Homography.Equations | Assets/Scripts/HomographyImageEffect.cs:178-186 | There are two rows of nine per correspondence. Rows 2i and 2i+1 are the x and y equations of correspondence i. |
| Homography.LinearSystem | Assets/Scripts/HomographyImageEffect.cs:178-186 | Four correspondences give an 8x9 system whose rows 2i and 2i+1 are the x and y equations of correspondence i. |
| Homography.CorrespondenceEquations | Assets/Scripts/HomographyImageEffect.cs:184-185 | Where w is non-zero, both equations of p -> q vanish iff h maps p to q after the divide. |
| Homography.KernelIffMapsCorners | Assets/Scripts/HomographyImageEffect.cs:178-192 | Where w is non-zero at every source corner, h solves the system iff h maps every source corner onto its destination. |
| Homography.KernelMapsCorner | Assets/Scripts/HomographyImageEffect.cs:188-192 | A solution of the system maps each corner where its w is non-zero onto that corner's destination. |
| Homography.IdentitySolvesFixedCorners | Assets/Scripts/HomographyImageEffect.cs:178-186 | When source and destination agree, the identity solves the system. |
| Homography.KernelScales | Assets/Scripts/HomographyImageEffect.cs:188-192 | Every multiple of a solution is a solution. |
| Homography.UnitSquareKernelIsIdentity | Assets/Scripts/HomographyImageEffect.cs:178-192 | Every solution of the system that maps the unit square to itself is the identity scaled by its last entry. |
| Homography.Reshape | Assets/Scripts/HomographyImageEffect.cs:194-200 | The 9-vector fills the upper-left 3x3 block row by row, and the rest of the 4x4 matrix is zero. |
| Homography.ReshapeRoundTrip | Assets/Scripts/HomographyImageEffect.cs:194-200 | Reading back the 3x3 block gives the 9-vector. |
| Homography.FindHomography | Assets/Scripts/HomographyImageEffect.cs:176-201 | The upper-left 3x3 block of the result is the singular vector that the decomposition returns for the system of the four correspondences. The fourth row and the fourth column are zero. |
| Homography.FindHomographyOfUnitSquare | Assets/Scripts/HomographyImageEffect.cs:176-201 | Solving from the unit square to itself: when the decomposition returns a null vector, the 3x3 block of the result is the identity scaled by that vector's last entry. |
| Homography.FindHomographyMapsCorners | Assets/Scripts/HomographyImageEffect.cs:176-201 | When the decomposition returns a null vector, the 3x3 block of the result maps each source corner with non-zero w onto its destination. |
| Effect.StoredCorners | Assets/Scripts/HomographyImageEffect.cs:148-155 | A load accepts the stored payload iff the key is present and the payload parses to exactly four points. The accepted corners are those points. |
| Effect.LoadedCorners | Assets/Scripts/HomographyImageEffect.cs:148-155 | A load always ends with four corners. They are the accepted stored corners when a payload is accepted, and the unit square otherwise. |
| Effect.SaveThenLoad | Assets/Scripts/HomographyImageEffect.cs:140-155 | Loading after saving four corners gives them back, whenever the JSON utility reads back what it writes. |
| Effect.NextEditing | Assets/Scripts/HomographyImageEffect.cs:104-110 | The edit flag flips iff Ctrl is pressed and either H is held or editing is on. So entering needs Ctrl+H and leaving needs Ctrl. |
| Effect.CopyCorners | Assets/Scripts/HomographyImageEffect.cs:125 | The target array becomes the source. |
| Effect.HomographyImageEffect.constructor | Assets/Scripts/HomographyImageEffect.cs:16-19 | Starts with four zero corners, not editing, and a zero matrix. |
| Effect.HomographyImageEffect.ResetCorners | Assets/Scripts/HomographyImageEffect.cs:123-127 | The warped corners and the editor's corners become the unit square, and the editor is marked dirty. |
| Effect.HomographyImageEffect.CheckHomography | Assets/Scripts/HomographyImageEffect.cs:129-138 | When forced or dirty, the editor's corners are copied and the matrix is the homography from them to the unit square. Otherwise the corners and the matrix are kept. The dirty flag is cleared in every case. |
| Effect.HomographyImageEffect.Vec3ArrayFromString | Assets/Scripts/HomographyImageEffect.cs:162-172 | Succeeds iff the payload parses to an array of the target's length, and then copies it. On failure the target is untouched. |
| Effect.HomographyImageEffect.LoadSettings | Assets/Scripts/HomographyImageEffect.cs:148-155 | The warped corners become `LoadedCorners`. When nothing is accepted, the editor is reset to the unit square and marked dirty. |
| Effect.HomographyImageEffect.SaveSettings | Assets/Scripts/HomographyImageEffect.cs:140-146 | The preferences store the serialized corners under the key "homography". |
| Effect.HomographyImageEffect.CheckEditState | Assets/Scripts/HomographyImageEffect.cs:104-121 | The edit flag becomes `NextEditing`. Entering enables the editor, which clears its selection and finger map when it was disabled, and hands it the warped corners, marking them dirty. Leaving disables the editor, keeps its state and saves the corners. Without a toggle nothing changes. |
| Effect.HomographyImageEffect.Update | Assets/Scripts/HomographyImageEffect.cs:53-61 | The edit toggle's whole outcome: the edit flag, the editor's enabled flag, the saved preferences on leaving, and the editor's state on entering. Then R held while editing resets both corner arrays to the unit square and marks the editor dirty. Otherwise the warped corners are unchanged. |
| Effect.HomographyImageEffect.Reset | Assets/Scripts/HomographyImageEffect.cs:83-102 | Both corner arrays end as `LoadedCorners` and the editor is enabled iff editing. Enabling a disabled editor clears its selection and finger map; otherwise they are kept. The matrix is the homography from the loaded corners to the unit square, and the dirty flag is clear. |
| Effect.HomographyImageEffect.OnDisable | Assets/Scripts/HomographyImageEffect.cs:48-51 | Editing ends and the editor is disabled. Its corners, selection and map are unchanged. |

## Left out

- The singular value decomposition (MathNet's `Svd`) is a function parameter `rightSingularVector`, and nothing is assumed about it. `Homography.FindHomographyMapsCorners` states what holds when it returns an exact null vector.
- Floating point is not modelled: coordinates are exact reals, and the `(float)` casts of the singular vector are left out.
- `IsAnchorHit` compares `magnitude < radius`. It is modelled as `0 <= radius && sqrMagnitude < radius * radius`, which is the same condition over the reals, without a square root.
- `Camera.main.ScreenToViewportPoint` is the function `screenToViewport` in the editor's settings.
- `Input` polling (keys, mouse buttons, mouse position, `Input.touches`) becomes method parameters.
- `Random.value` becomes the `randomId` field of the mouse frame. Its range is not constrained.
- `JsonUtility` is a pair of function fields (`Json`). `PlayerPrefs` is a map field, and `PlayerPrefs.Save` writes nothing further.
- Rendering is not modelled: `RenderUI`, `GLDrawAnchor`, `GLDrawPath`, the material and shader setup in `Reset`, and `OnRenderImage` with its `SetColor`, `SetFloat` and `Blit` calls. `OnRenderImage` also calls `CheckHomography()` each frame while the effect is enabled, and that call is covered by `CheckHomography(false)`.
- CheckHomography: the `SetMatrix` call that hands the matrix to the material (Assets/Scripts/HomographyImageEffect.cs:135) is dropped, and the material is assumed to exist. When no shader is assigned, `Reset` never creates the material, so that call throws before the dirty flag is cleared; the model does not capture this.
- LoadSettings: `JsonUtility.FromJson` throws on malformed text, which abandons the load before `ResetCorners`. The model's `fromJson` has no failure besides a null array, so on such text the model falls back to the unit square instead.
- `Debug.Log` and `Debug.LogError` are left out. `TouchDownHandler` returns as a flag the duplicate-finger case it would log.
- The engine's scheduling is reduced to `SetEnabled`. It runs OnEnable when a disabled editor is enabled. The engine's rule that `Update` runs only while a behaviour is enabled is left to the caller, and the effect's own enabled flag is not modelled.
