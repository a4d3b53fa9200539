/**
 * Touch events and the mouse-to-touch emulation: a single mouse button is
 * turned into a synthetic touch stream whose finger id is drawn anew on each
 * press and kept until the next one.
 */
module Emulation {
  import opened Geometry

  /** The engine's TouchPhase, in its declaration order. */
  datatype TouchPhase = Began | Moved | Stationary | Ended | Canceled

  datatype Touch = Touch(fingerId: int, phase: TouchPhase, position: Vec2)

  /** `new Touch()`: every field at its default (phase Began is the enum's zero). */
  const DefaultTouch: Touch := Touch(0, Began, Vec2(0.0, 0.0))

  /** The id the emulation starts with, before any press. */
  const NoId: int := -1

  /**
   * What the input system reports about mouse button 0 in one frame:
   * GetMouseButtonDown, GetMouseButtonUp, GetMouseButton, the mouse position,
   * and the id a press in this frame would draw at random.
   */
  datatype MouseFrame = MouseFrame(buttonDown: bool, buttonUp: bool, button: bool,
                                   mousePosition: Vec3, randomId: int)

  /** The outcome of one call: whether a touch is emitted, the touch, and the stored id afterwards. */
  datatype Emission = Emission(emitted: bool, touch: Touch, id: int)

  /**
   * One call of MouseToTouch with stored id `id`. A down edge wins over an up
   * edge, which wins over a held button; a down edge alone stores a new id.
   */
  function Step(id: int, f: MouseFrame): (e: Emission)
    ensures f.buttonDown ==> e.emitted && e.touch.phase == Began && e.id == f.randomId && e.touch.fingerId == f.randomId
    ensures !f.buttonDown ==> e.id == id
    ensures !f.buttonDown && f.buttonUp ==> e.emitted && e.touch.phase == Ended && e.touch.fingerId == id
    ensures !f.buttonDown && !f.buttonUp && f.button ==> e.emitted && e.touch.phase == Moved && e.touch.fingerId == id
    ensures e.emitted <==> f.buttonDown || f.buttonUp || f.button
    ensures e.emitted ==> e.touch.position == Narrow(f.mousePosition)
    ensures !e.emitted ==> e.touch == DefaultTouch
  {
    var (phase, id') :=
      if f.buttonDown then (Began, f.randomId)
      else if f.buttonUp then (Ended, id)
      else if f.button then (Moved, id)
      else (Canceled, id);
    if phase != Canceled then Emission(true, Touch(id', phase, Narrow(f.mousePosition)), id')
    else Emission(false, DefaultTouch, id')
  }

  /** The stored id after running `frames` one call per frame, starting from `id0`. */
  function IdAfter(id0: int, frames: seq<MouseFrame>): int
  {
    if frames == [] then id0 else Step(IdAfter(id0, frames[..|frames| - 1]), frames[|frames| - 1]).id
  }

  /** The index of the last frame with a down edge, or -1 when there is none. */
  function LastPress(frames: seq<MouseFrame>): (k: int)
    ensures -1 <= k < |frames|
    ensures k >= 0 ==> frames[k].buttonDown && forall j :: k < j < |frames| ==> !frames[j].buttonDown
    ensures k == -1 ==> forall j :: 0 <= j < |frames| ==> !frames[j].buttonDown
  {
    if frames == [] then -1
    else if frames[|frames| - 1].buttonDown then |frames| - 1
    else LastPress(frames[..|frames| - 1])
  }

  /** The id drawn by the last press in `frames`, or `id0` when nothing was pressed. */
  function PressId(id0: int, frames: seq<MouseFrame>): int
  {
    var k := LastPress(frames);
    if k >= 0 then frames[k].randomId else id0
  }

  /** The id changes only on a press: the stored id is always the last press's id. */
  lemma {:induction false} IdAfterIsLastPress(id0: int, frames: seq<MouseFrame>)
    ensures IdAfter(id0, frames) == PressId(id0, frames)
  {
    if frames != [] {
      var init := frames[..|frames| - 1];
      IdAfterIsLastPress(id0, init);
      if !frames[|frames| - 1].buttonDown {
        assert LastPress(frames) == LastPress(init);
        if LastPress(init) >= 0 {
          assert frames[LastPress(init)] == init[LastPress(init)];
        }
      }
    }
  }

  /**
   * Every Moved or Ended touch the emulation emits, at any frame of a run,
   * carries the id drawn by the most recent press (the initial id if none).
   */
  lemma EmittedIdIsLastPress(id0: int, frames: seq<MouseFrame>, k: nat)
    requires k < |frames|
    ensures var e := Step(IdAfter(id0, frames[..k]), frames[k]);
            e.emitted && e.touch.phase != Began ==> e.touch.fingerId == PressId(id0, frames[..k + 1])
  {
    var prefix := frames[..k + 1];
    assert prefix[..k] == frames[..k];
    assert prefix[k] == frames[k];
    IdAfterIsLastPress(id0, prefix);
  }

  /** The mouse-to-touch converter, holding the id of the current press. */
  class TouchEmulation {
    var id: int

    constructor ()
      ensures id == NoId
    {
      id := NoId;
    }

    method MouseToTouch(f: MouseFrame) returns (ok: bool, touch: Touch)
      modifies this
      ensures Emission(ok, touch, id) == Step(old(id), f)
    {
      var phase := Canceled;
      if f.buttonDown {
        id := f.randomId;
        phase := Began;
      } else if f.buttonUp {
        phase := Ended;
      } else if f.button {
        phase := Moved;
      }

      touch := DefaultTouch;
      if phase != Canceled {
        touch := Touch(id, phase, Narrow(f.mousePosition));
        return true, touch;
      }
      return false, touch;
    }
  }
}
