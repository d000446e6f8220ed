/** The joystick's handle object as LVGL holds it: a mutable offset from the
    centre of the base, a user-data slot pointing at the joystick record, and
    the callback invocations made so far. Each method follows one handler of
    the widget and is specified by the corresponding function of Protocol. */
module Widget {
  import opened Types
  import opened Geometry
  import opened Protocol
  import opened Properties

  class Joystick {
    /** Offset of the handle from the centre of the base. */
    var x: int
    var y: int
    /** The user-data slot of the handle object; `None` is NULL. */
    var userData: Option<Data>
    /** Whether the record in the user-data slot has been freed. */
    var freed: bool
    /** Every callback invocation made so far, in order. */
    ghost var log: seq<Report>

    /** The handle object as a value. */
    function Snapshot(): State
      reads this
    {
      State(Point(x, y), userData, freed)
    }

    /** The containment invariant of the handle object. */
    ghost predicate Valid()
      reads this
    {
      Contained(Snapshot())
    }

    /** Creation: the record receives the identifier, callback and mode
        unchanged and the radii narrowed to `uint8_t`; the handle is centred;
        the record is attached before any event can arrive. */
    constructor Create(id: uint8, baseRadius: int, stickRadius: int,
                       hasCallback: bool, mode: ReportMode)
      ensures userData == Some(Data(id, Narrow8(baseRadius), Narrow8(stickRadius), mode, hasCallback))
      ensures x == 0 && y == 0 && !freed && log == []
      ensures Valid()
    {
      var data := Data(id, Narrow8(baseRadius), Narrow8(stickRadius), mode, hasCallback);
      x, y := 0, 0;
      userData := Some(data);
      freed := false;
      log := [];
    }

    /** Calls the callback of `d`, if it has one, with `(id, cx, cy)`. */
    method TriggerCallback(d: Data, cx: int, cy: int)
      modifies this`log
      ensures log == old(log) + Callback(d, cx, cy)
    {
      if d.hasCallback {
        log := log + [Report(d.id, ToInt16(cx), ToInt16(cy))];
      }
    }

    /** Release: centres the handle, and reports the centre in absolute mode. */
    method HandleRelease(d: Data)
      modifies this`x, this`y, this`log
      ensures Point(x, y) == Release(d).pos
      ensures log == old(log) + Release(d).reports
    {
      x, y := 0, 0;
      if d.mode == Absolute {
        TriggerCallback(d, 0, 0);
      }
    }

    /** Press-move: with an input device whose motion is `indev`, moves the
        handle to the candidate offset when it passes the acceptance test,
        then reports according to the mode. */
    method HandlePressing(d: Data, indev: Option<Point>)
      modifies this`x, this`y, this`log
      ensures Point(x, y) == Press(d, old(Point(x, y)), indev).pos
      ensures log == old(log) + Press(d, old(Point(x, y)), indev).reports
    {
      if indev.None? {
        return;
      }
      var vect := indev.value;
      var cx := x + vect.x;
      var cy := y + vect.y;
      var shouldMove := Admissible(cx, cy, d.baseRadius as int, d.stickRadius as int);
      if !shouldMove {
        return;
      }
      x, y := cx, cy;
      if !d.hasCallback {
        return;
      }
      if d.mode == Absolute {
        TriggerCallback(d, cx, cy);
      } else {
        TriggerCallback(d, vect.x, vect.y);
      }
    }

    /** The event handler registered on the handle object. Every object
        built by `Create` and changed only through this handler is valid;
        events after a delete are undefined, hence `!freed`. */
    method EventHandler(e: Event)
      requires Valid() && !freed
      modifies this
      ensures Snapshot() == Dispatch(old(Snapshot()), e).state
      ensures log == old(log) + Dispatch(old(Snapshot()), e).reports
      ensures Valid()
    {
      DispatchKeepsContained(Snapshot(), e);
      if userData.None? {
        return;
      }
      var data := userData.value;
      match e
      case Pressing(indev) =>
        HandlePressing(data, indev);
      case Released =>
        HandleRelease(data);
      case Delete =>
        freed := true;
      case Other =>
    }
  }
}
