/** Worked examples of the joystick's behaviour with a base radius of 50 and a
    stick radius of 10, where the acceptance bound is 50 - 12 = 38. */
module Scenarios {
  import opened Types
  import opened Protocol
  import opened Widget

  /** From the centre, a motion of (5, 0) is accepted and reported as the new
      offset in absolute mode. */
  lemma AbsoluteSmallMove(id: uint8)
    ensures Press(Data(id, 50, 10, Absolute, true), Point(0, 0), Some(Point(5, 0)))
      == Step(Point(5, 0), [Report(id, 5, 0)])
  {
  }

  /** From the centre, a motion of (100, 0) is rejected: no move, no report. */
  lemma LargeMoveRejected(id: uint8, mode: ReportMode, hasCallback: bool)
    ensures Press(Data(id, 50, 10, mode, hasCallback), Point(0, 0), Some(Point(100, 0)))
      == Step(Point(0, 0), [])
  {
  }

  /** Relative mode reports the motion (3, -2), not the resulting offset. */
  lemma RelativeMoveReportsMotion(id: uint8)
    ensures Press(Data(id, 50, 10, Relative, true), Point(4, 4), Some(Point(3, -2)))
      == Step(Point(7, 2), [Report(id, 3, -2)])
  {
  }

  /** Release from (5, 5) in absolute mode centres the handle and reports the
      centre; in relative mode it reports nothing. */
  lemma ReleaseFromOffset(id: uint8, mode: ReportMode)
    ensures Dispatch(State(Point(5, 5), Some(Data(id, 50, 10, mode, true)), false), Released)
      == Outcome(State(Point(0, 0), Some(Data(id, 50, 10, mode, true)), false),
                 if mode == Absolute then [Report(id, 0, 0)] else [])
  {
  }

  /** A client of the widget class: a drag of two steps, one rejected step,
      a release and the final delete, in absolute mode. */
  method DragAndRelease()
  {
    var j := new Joystick.Create(7, 50, 10, true, Absolute);
    var d := Data(7, 50, 10, Absolute, true);
    assert j.userData == Some(d);
    j.EventHandler(Pressing(Some(Point(5, 0))));
    AbsoluteSmallMove(7);
    assert j.x == 5 && j.y == 0 && j.log == [Report(7, 5, 0)];
    j.EventHandler(Pressing(Some(Point(0, 3))));
    assert Fits(d, Point(5, 3));
    assert j.x == 5 && j.y == 3 && j.log == [Report(7, 5, 0), Report(7, 5, 3)];
    j.EventHandler(Pressing(Some(Point(100, 0))));
    assert !Fits(d, Point(105, 3));
    assert j.x == 5 && j.y == 3;
    j.EventHandler(Released);
    assert j.x == 0 && j.y == 0;
    j.EventHandler(Delete);
    assert j.freed;
    assert j.log == [Report(7, 5, 0), Report(7, 5, 3), Report(7, 0, 0)];
  }
}
