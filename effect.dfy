/**
 * The image effect that owns the warped corners: it toggles the corner
 * editor, resets, loads and saves the corners, and recomputes the homography
 * from the editor's corners to the unit square whenever they are dirty.
 */
module Effect {
  import opened Geometry
  import opened GizmoSpec
  import opened Gizmo
  import opened Homography

  datatype Option<T> = None | Some(value: T)

  /** The key under which the corners are stored in the player preferences. */
  const SettingsCornersKey: string := "homography"

  /**
   * The engine's JSON utility on the wrapped corner array: serialise, and
   * parse to the wrapped array (None when it comes back null).
   */
  datatype Json = Json(toJson: seq<Vec3> -> string, fromJson: string -> Option<seq<Vec3>>)

  /** Which stored corners a load accepts: the stored payload, if present and parsed to exactly four points. */
  function StoredCorners(prefs: map<string, string>, json: Json): (r: Option<seq<Vec3>>)
    ensures r.Some? <==> SettingsCornersKey in prefs && json.fromJson(prefs[SettingsCornersKey]).Some?
                         && |json.fromJson(prefs[SettingsCornersKey]).value| == CornerCount
    ensures r.Some? ==> r.value == json.fromJson(prefs[SettingsCornersKey]).value && |r.value| == CornerCount
  {
    if SettingsCornersKey in prefs then
      var parsed := json.fromJson(prefs[SettingsCornersKey]);
      if parsed.Some? && |parsed.value| == CornerCount then parsed else None
    else
      None
  }

  /** The corners a load ends with: the stored ones when accepted, otherwise the unit square. */
  function LoadedCorners(prefs: map<string, string>, json: Json): (c: seq<Vec3>)
    ensures |c| == CornerCount
    ensures StoredCorners(prefs, json).Some? ==> c == StoredCorners(prefs, json).value
    ensures StoredCorners(prefs, json).None? ==> c == UnitSquare
  {
    var stored := StoredCorners(prefs, json);
    if stored.Some? then stored.value else UnitSquare
  }

  /**
   * Saving and then loading restores the corners, whenever the JSON utility
   * reads back what it writes.
   */
  lemma SaveThenLoad(prefs: map<string, string>, json: Json, corners: seq<Vec3>)
    requires |corners| == CornerCount
    requires json.fromJson(json.toJson(corners)) == Some(corners)
    ensures LoadedCorners(prefs[SettingsCornersKey := json.toJson(corners)], json) == corners
  {
  }

  /** The edit flag after a frame: a Ctrl press toggles it when H is held or editing is on. */
  function NextEditing(isEditing: bool, ctrlPressed: bool, hHeld: bool): (r: bool)
    ensures r != isEditing <==> ctrlPressed && (hHeld || isEditing)
    ensures !isEditing && r ==> ctrlPressed && hHeld
    ensures isEditing && !r ==> ctrlPressed
  {
    if ctrlPressed && (hHeld || isEditing) then !isEditing else isEditing
  }

  /** System.Array.Copy of four corners. */
  method CopyCorners(source: seq<Vec3>, target: array<Vec3>)
    requires |source| == target.Length
    modifies target
    ensures target[..] == source
  {
    var i := 0;
    while i < target.Length
      invariant 0 <= i <= target.Length
      invariant forall j :: 0 <= j < i ==> target[j] == source[j]
    {
      target[i] := source[i];
      i := i + 1;
    }
  }

  class HomographyImageEffect {
    const viewportGizmo: ViewportGizmo
    /** The matrix handed to the shader: the homography in the upper-left 3x3 block of a 4x4. */
    var homographyMatrix: Matrix4
    const warpedViewportCorners: array<Vec3>
    var isEditing: bool
    /** The player preferences store. */
    var playerPrefs: map<string, string>
    /** The right singular vector of the smallest singular value, from the linear algebra library. */
    const rightSingularVector: seq<seq<real>> -> Vec9
    const json: Json

    ghost predicate Valid()
      reads this, viewportGizmo, viewportGizmo.viewportCorners, viewportGizmo.selected
    {
      && viewportGizmo.Valid()
      && warpedViewportCorners.Length == CornerCount
      && warpedViewportCorners != viewportGizmo.viewportCorners
    }

    constructor (gizmo: ViewportGizmo, rightSingularVector: seq<seq<real>> -> Vec9, json: Json,
                 playerPrefs: map<string, string>)
      requires gizmo.Valid()
      ensures Valid() && fresh(warpedViewportCorners)
      ensures viewportGizmo == gizmo && this.rightSingularVector == rightSingularVector && this.json == json
      ensures this.playerPrefs == playerPrefs && !isEditing
      ensures warpedViewportCorners[..] == [Zero, Zero, Zero, Zero]
      ensures homographyMatrix == Reshape([0.0, 0.0, 0.0, 0.0, 0.0, 0.0, 0.0, 0.0, 0.0])
    {
      viewportGizmo := gizmo;
      this.rightSingularVector := rightSingularVector;
      this.json := json;
      this.playerPrefs := playerPrefs;
      isEditing := false;
      homographyMatrix := Reshape([0.0, 0.0, 0.0, 0.0, 0.0, 0.0, 0.0, 0.0, 0.0]);
      warpedViewportCorners := new Vec3[CornerCount](_ => Zero);
      new;
      assert warpedViewportCorners[..] == [Zero, Zero, Zero, Zero];
    }

    /** Puts the corners back on the unit square and hands them to the editor, which marks them dirty. */
    method ResetCorners()
      requires Valid()
      modifies warpedViewportCorners, viewportGizmo`hasChanged, viewportGizmo.viewportCorners
      ensures Valid()
      ensures warpedViewportCorners[..] == UnitSquare
      ensures viewportGizmo.State() == old(viewportGizmo.State()).(corners := UnitSquare, hasChanged := true)
    {
      CopyCorners(UnitSquare, warpedViewportCorners);
      var _ := viewportGizmo.WriteViewportCorners(warpedViewportCorners);
    }

    /** Recomputes the homography when forced or when the editor's corners are dirty; the dirty flag is consumed. */
    method CheckHomography(force: bool)
      requires Valid()
      modifies this`homographyMatrix, warpedViewportCorners, viewportGizmo`hasChanged
      ensures Valid()
      ensures !viewportGizmo.hasChanged
      ensures viewportGizmo.State() == old(viewportGizmo.State()).(hasChanged := false)
      ensures force || old(viewportGizmo.hasChanged) ==>
                && warpedViewportCorners[..] == old(viewportGizmo.viewportCorners[..])
                && homographyMatrix == FindHomography(warpedViewportCorners[..], UnitSquare, rightSingularVector)
      ensures !(force || old(viewportGizmo.hasChanged)) ==>
                && warpedViewportCorners[..] == old(warpedViewportCorners[..])
                && homographyMatrix == old(homographyMatrix)
    {
      if force || viewportGizmo.hasChanged {
        var _ := viewportGizmo.ReadViewportCorners(warpedViewportCorners);
        homographyMatrix := FindHomography(warpedViewportCorners[..], UnitSquare, rightSingularVector);
      }
      viewportGizmo.hasChanged := false;
    }

    /** Parses `str` into `arr`, accepting only a non-null array of exactly arr's length. */
    method Vec3ArrayFromString(arr: array<Vec3>, str: string) returns (ok: bool)
      modifies arr
      ensures ok <==> json.fromJson(str).Some? && |json.fromJson(str).value| == arr.Length
      ensures ok ==> arr[..] == json.fromJson(str).value
      ensures !ok ==> arr[..] == old(arr[..])
    {
      var data := json.fromJson(str);
      if data.Some? && |data.value| == arr.Length {
        CopyCorners(data.value, arr);
        return true;
      }
      return false;
    }

    /** Loads the stored corners, falling back to the unit square when none are stored or they are rejected. */
    method LoadSettings()
      requires Valid()
      modifies warpedViewportCorners, viewportGizmo`hasChanged, viewportGizmo.viewportCorners
      ensures Valid()
      ensures warpedViewportCorners[..] == LoadedCorners(playerPrefs, json)
      ensures StoredCorners(playerPrefs, json).Some? ==> viewportGizmo.State() == old(viewportGizmo.State())
      ensures StoredCorners(playerPrefs, json).None? ==>
                viewportGizmo.State() == old(viewportGizmo.State()).(corners := UnitSquare, hasChanged := true)
    {
      var loaded := false;
      if SettingsCornersKey in playerPrefs {
        loaded := Vec3ArrayFromString(warpedViewportCorners, playerPrefs[SettingsCornersKey]);
      }
      if !loaded {
        ResetCorners();
      }
    }

    /** Stores the corners under the settings key. */
    method SaveSettings()
      modifies this`playerPrefs
      ensures playerPrefs == old(playerPrefs)[SettingsCornersKey := json.toJson(warpedViewportCorners[..])]
    {
      playerPrefs := playerPrefs[SettingsCornersKey := json.toJson(warpedViewportCorners[..])];
    }

    /**
     * Ctrl+H enters editing, Ctrl leaves it. Entering enables the editor and
     * hands it the corners; leaving disables it and saves the corners.
     */
    method CheckEditState(ctrlPressed: bool, hHeld: bool)
      requires Valid()
      modifies this`isEditing, this`playerPrefs, viewportGizmo`enabled, viewportGizmo`touchIdMap,
               viewportGizmo`hasChanged, viewportGizmo.selected, viewportGizmo.viewportCorners
      ensures Valid()
      ensures isEditing == NextEditing(old(isEditing), ctrlPressed, hHeld)
      ensures isEditing == old(isEditing) ==>
                && viewportGizmo.enabled == old(viewportGizmo.enabled)
                && viewportGizmo.State() == old(viewportGizmo.State())
                && playerPrefs == old(playerPrefs)
      ensures isEditing != old(isEditing) ==> viewportGizmo.enabled == isEditing
      ensures isEditing && !old(isEditing) ==>
                && viewportGizmo.State()
                   == AfterSetEnabled(old(viewportGizmo.State()), old(viewportGizmo.enabled), true)
                        .(corners := warpedViewportCorners[..], hasChanged := true)
                && playerPrefs == old(playerPrefs)
      ensures !isEditing && old(isEditing) ==>
                && playerPrefs == old(playerPrefs)[SettingsCornersKey := json.toJson(warpedViewportCorners[..])]
                && viewportGizmo.State() == old(viewportGizmo.State())
      ensures warpedViewportCorners[..] == old(warpedViewportCorners[..])
    {
      if ctrlPressed && (hHeld || isEditing) {
        isEditing := !isEditing;
        viewportGizmo.SetEnabled(isEditing);
        if isEditing {
          var _ := viewportGizmo.WriteViewportCorners(warpedViewportCorners);
        } else {
          SaveSettings();
        }
      }
    }

    /** One frame: the edit toggle, then R resets the corners while editing. */
    method Update(ctrlPressed: bool, hHeld: bool, rHeld: bool)
      requires Valid()
      modifies this`isEditing, this`playerPrefs, viewportGizmo`enabled, viewportGizmo`touchIdMap,
               viewportGizmo`hasChanged, viewportGizmo.selected, viewportGizmo.viewportCorners, warpedViewportCorners
      ensures Valid()
      ensures isEditing == NextEditing(old(isEditing), ctrlPressed, hHeld)
      ensures viewportGizmo.enabled == if isEditing != old(isEditing) then isEditing else old(viewportGizmo.enabled)
      ensures playerPrefs == if old(isEditing) && !isEditing
                             then old(playerPrefs)[SettingsCornersKey := json.toJson(old(warpedViewportCorners[..]))]
                             else old(playerPrefs)
      ensures var toggled := if isEditing && !old(isEditing)
                             then AfterSetEnabled(old(viewportGizmo.State()), old(viewportGizmo.enabled), true)
                                    .(corners := old(warpedViewportCorners[..]), hasChanged := true)
                             else old(viewportGizmo.State());
              viewportGizmo.State() == if isEditing && rHeld then toggled.(corners := UnitSquare, hasChanged := true) else toggled
      ensures warpedViewportCorners[..] == if isEditing && rHeld then UnitSquare else old(warpedViewportCorners[..])
    {
      CheckEditState(ctrlPressed, hHeld);
      if isEditing && rHeld {
        ResetCorners();
      }
    }

    /**
     * The OnEnable hook: load the corners, hand them to the editor, enable
     * the editor only while editing, and compute the homography.
     */
    method Reset()
      requires Valid()
      modifies this`homographyMatrix, warpedViewportCorners, viewportGizmo`enabled, viewportGizmo`touchIdMap,
               viewportGizmo`hasChanged, viewportGizmo.selected, viewportGizmo.viewportCorners
      ensures Valid()
      ensures warpedViewportCorners[..] == LoadedCorners(playerPrefs, json)
      ensures viewportGizmo.viewportCorners[..] == LoadedCorners(playerPrefs, json)
      ensures homographyMatrix == FindHomography(LoadedCorners(playerPrefs, json), UnitSquare, rightSingularVector)
      ensures !viewportGizmo.hasChanged && viewportGizmo.enabled == isEditing
      ensures viewportGizmo.State()
              == AfterSetEnabled(old(viewportGizmo.State()), old(viewportGizmo.enabled), isEditing)
                   .(corners := LoadedCorners(playerPrefs, json), hasChanged := false)
    {
      ghost var loaded := LoadedCorners(playerPrefs, json);
      LoadSettings();
      assert warpedViewportCorners[..] == loaded;
      var _ := viewportGizmo.WriteViewportCorners(warpedViewportCorners);
      assert viewportGizmo.viewportCorners[..] == loaded;
      viewportGizmo.SetEnabled(isEditing);
      assert viewportGizmo.viewportCorners[..] == loaded;
      CheckHomography(true);
    }

    /** The OnDisable hook: leave editing and disable the editor. */
    method OnDisable()
      requires Valid()
      modifies this`isEditing, viewportGizmo`enabled, viewportGizmo`touchIdMap, viewportGizmo.selected
      ensures Valid()
      ensures !isEditing && !viewportGizmo.enabled
      ensures viewportGizmo.State() == old(viewportGizmo.State())
    {
      isEditing := false;
      viewportGizmo.SetEnabled(isEditing);
    }
  }
}
