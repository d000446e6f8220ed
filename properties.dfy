/** What the joystick guarantees, proved about the functions of Protocol:
    the acceptance rule of a press-move, the reports each mode produces, the
    containment of the handle inside the base over any sequence of events,
    silence without a callback, and what each mode's reports let the
    application reconstruct. */
module Properties {
  import opened Types
  import opened Geometry
  import opened Protocol

  /** A press-move moves the handle to exactly the candidate `p + v` when the
      candidate passes the acceptance test, and otherwise leaves it where it
      was on both axes and reports nothing. Without an input device nothing
      happens at all. */
  lemma PressMovesIffFits(d: Data, p: Point, indev: Option<Point>)
    ensures indev.None? ==> Press(d, p, indev) == Step(p, [])
    ensures indev.Some? ==>
      var c := Point(p.x + indev.value.x, p.y + indev.value.y);
      (Fits(d, c) ==> Press(d, p, indev).pos == c) &&
      (!Fits(d, c) ==> Press(d, p, indev) == Step(p, []))
  {
  }

  /** From a contained offset, an accepted press-move with a callback reports
      exactly once: the new offset in absolute mode, the step's own motion
      (never the accumulated offset) in relative mode. The `int16_t`
      narrowing of the callback arguments loses nothing. */
  lemma PressReportsExact(d: Data, p: Point, v: Point)
    requires Fits(d, p) || p == Point(0, 0)
    ensures var c := Point(p.x + v.x, p.y + v.y);
      Press(d, p, Some(v)).reports ==
        if !Fits(d, c) || !d.hasCallback then []
        else if d.mode == Absolute then [Report(d.id, c.x, c.y)]
        else [Report(d.id, v.x, v.y)]
  {
    var b, s := d.baseRadius as int, d.stickRadius as int;
    var c := Point(p.x + v.x, p.y + v.y);
    if Fits(d, c) {
      AdmissibleBounds(c.x, c.y, b, s);
      if Fits(d, p) {
        AdmissibleBounds(p.x, p.y, b, s);
      }
      assert InInt16(v.x) && InInt16(v.y);
    }
  }

  /** Release centres the handle whatever its offset was, and reports the
      centre once in absolute mode with a callback, and nothing otherwise. */
  lemma ReleaseCentres(d: Data)
    ensures Release(d).pos == Point(0, 0)
    ensures Release(d).reports ==
      if d.mode == Absolute && d.hasCallback then [Report(d.id, 0, 0)] else []
  {
  }

  /** Without user data every event is a no-op; delete, an event code the
      handler does not know, and a press-move without an input device change
      nothing but, for delete, the freed flag, and report nothing. */
  lemma IgnoredEventsChangeNothing(st: State, e: Event)
    requires !st.freed
    ensures st.userData.None? ==> Dispatch(st, e) == Outcome(st, [])
    ensures e == Delete ==> Dispatch(st, e) == Outcome(st.(freed := st.userData.Some?), [])
    ensures e == Other || e == Pressing(None) ==> Dispatch(st, e) == Outcome(st, [])
  {
  }

  /** One event keeps the record, frees it only on delete, and keeps the
      containment invariant. */
  lemma DispatchKeepsContained(st: State, e: Event)
    requires !st.freed && Contained(st)
    ensures Dispatch(st, e).state.userData == st.userData
    ensures Dispatch(st, e).state.freed == (e.Delete? && st.userData.Some?)
    ensures Contained(Dispatch(st, e).state)
  {
  }

  /** Containment: from a contained state (in particular the state right
      after creation), every state reached by any sequence of events is
      contained, and the record attached to the handle never changes. */
  lemma {:induction false} RunKeepsContained(st: State, es: seq<Event>)
    requires !st.freed && NoEventAfterDelete(es) && Contained(st)
    ensures Run(st, es).state.userData == st.userData
    ensures Contained(Run(st, es).state)
    decreases |es|
  {
    if es != [] {
      DispatchKeepsContained(st, es[0]);
      if |es| > 1 {
        var o := Dispatch(st, es[0]);
        assert NoEventAfterDelete(es[1..]) by {
          forall i | 0 <= i < |es[1..]| - 1 ensures !es[1..][i].Delete? {
            assert es[1..][i] == es[i + 1];
          }
        }
        RunKeepsContained(o.state, es[1..]);
      }
    }
  }

  /** A freshly created joystick is contained. */
  lemma CreatedContained(d: Data)
    ensures Contained(Created(d)) && Created(d).pos == Point(0, 0)
    ensures Created(d).userData == Some(d) && !Created(d).freed
  {
  }

  /** When `baseRadius <= 1.2 * stickRadius` no move is ever accepted: after
      any sequence of events from creation the handle is still centred. */
  lemma NoRoomStaysCentred(d: Data, es: seq<Event>)
    requires NoEventAfterDelete(es)
    requires 5 * (d.baseRadius as int) <= 6 * (d.stickRadius as int)
    ensures Run(Created(d), es).state.pos == Point(0, 0)
  {
    RunKeepsContained(Created(d), es);
  }

  /** Without a callback (or without user data) no sequence of events reports
      anything. */
  lemma {:induction false} NoCallbackNoReports(st: State, es: seq<Event>)
    requires !st.freed && NoEventAfterDelete(es)
    requires st.userData.None? || !st.userData.value.hasCallback
    ensures Run(st, es).reports == []
    decreases |es|
  {
    if |es| > 1 {
      var o := Dispatch(st, es[0]);
      assert o.reports == [] && o.state.userData == st.userData && !o.state.freed;
      assert NoEventAfterDelete(es[1..]) by {
        forall i | 0 <= i < |es[1..]| - 1 ensures !es[1..][i].Delete? {
          assert es[1..][i] == es[i + 1];
        }
      }
      NoCallbackNoReports(o.state, es[1..]);
    }
  }

  /** Without user data no sequence of events changes anything. */
  lemma {:induction false} NoDataNoOp(st: State, es: seq<Event>)
    requires !st.freed && NoEventAfterDelete(es) && st.userData.None?
    ensures Run(st, es) == Outcome(st, [])
    decreases |es|
  {
    if |es| > 1 {
      assert NoEventAfterDelete(es[1..]) by {
        forall i | 0 <= i < |es[1..]| - 1 ensures !es[1..][i].Delete? {
          assert es[1..][i] == es[i + 1];
        }
      }
      NoDataNoOp(st, es[1..]);
    }
  }

  /** In absolute mode with a callback, one event from a contained state
      reports at most once, and reports the new offset exactly; an event that
      reports nothing does not move the handle. */
  lemma AbsoluteStep(st: State, e: Event)
    requires !st.freed && Contained(st)
    requires st.userData.Some? && st.userData.value.mode == Absolute && st.userData.value.hasCallback
    ensures var o := Dispatch(st, e);
      if o.reports == [] then o.state.pos == st.pos
      else o.reports == [Report(st.userData.value.id, o.state.pos.x, o.state.pos.y)]
  {
    var d := st.userData.value;
    if e.Pressing? && e.indev.Some? {
      PressReportsExact(d, st.pos, e.indev.value);
    }
  }

  /** Absolute mode: after any sequence of events, the last report the
      application received is the handle's current offset, and if none was
      received the handle has not moved. */
  lemma {:induction false} AbsoluteReportsTrackPosition(st: State, es: seq<Event>)
    requires !st.freed && NoEventAfterDelete(es) && Contained(st)
    requires st.userData.Some? && st.userData.value.mode == Absolute && st.userData.value.hasCallback
    ensures var o := Run(st, es);
      if o.reports == [] then o.state.pos == st.pos
      else o.reports[|o.reports| - 1] == Report(st.userData.value.id, o.state.pos.x, o.state.pos.y)
    decreases |es|
  {
    if es != [] {
      AbsoluteStep(st, es[0]);
      if |es| > 1 {
        var o := Dispatch(st, es[0]);
        DispatchKeepsContained(st, es[0]);
        assert NoEventAfterDelete(es[1..]) by {
          forall i | 0 <= i < |es[1..]| - 1 ensures !es[1..][i].Delete? {
            assert es[1..][i] == es[i + 1];
          }
        }
        AbsoluteReportsTrackPosition(o.state, es[1..]);
      }
    }
  }

  /** Sum of the reported motions. */
  function Total(rs: seq<Report>): Point
    decreases |rs|
  {
    if rs == [] then Point(0, 0)
    else Point(rs[0].x + Total(rs[1..]).x, rs[0].y + Total(rs[1..]).y)
  }

  lemma {:induction false} TotalAppend(a: seq<Report>, b: seq<Report>)
    ensures Total(a + b) == Point(Total(a).x + Total(b).x, Total(a).y + Total(b).y)
    decreases |a|
  {
    if a == [] {
      assert a + b == b;
    } else {
      assert (a + b)[1..] == a[1..] + b;
      TotalAppend(a[1..], b);
    }
  }

  /** In relative mode with a callback, one event other than release, from a
      contained state, moves the handle by exactly the motion it reports. */
  lemma RelativeStep(st: State, e: Event)
    requires !st.freed && Contained(st) && !e.Released?
    requires st.userData.Some? && st.userData.value.mode == Relative && st.userData.value.hasCallback
    ensures var o := Dispatch(st, e);
      o.state.pos == Point(st.pos.x + Total(o.reports).x, st.pos.y + Total(o.reports).y)
  {
    var d := st.userData.value;
    if e.Pressing? && e.indev.Some? {
      PressReportsExact(d, st.pos, e.indev.value);
    }
  }

  /** Relative mode: during a drag (no release among the events) the handle's
      offset is its starting offset plus the sum of all reported motions, so
      the application can integrate the reports into the position. */
  lemma {:induction false} RelativeReportsSumToMotion(st: State, es: seq<Event>)
    requires !st.freed && NoEventAfterDelete(es) && Contained(st)
    requires forall i :: 0 <= i < |es| ==> !es[i].Released?
    requires st.userData.Some? && st.userData.value.mode == Relative && st.userData.value.hasCallback
    ensures var o := Run(st, es);
      o.state.pos == Point(st.pos.x + Total(o.reports).x, st.pos.y + Total(o.reports).y)
    decreases |es|
  {
    if es != [] {
      RelativeStep(st, es[0]);
      if |es| > 1 {
        var o := Dispatch(st, es[0]);
        DispatchKeepsContained(st, es[0]);
        assert NoEventAfterDelete(es[1..]) by {
          forall i | 0 <= i < |es[1..]| - 1 ensures !es[1..][i].Delete? {
            assert es[1..][i] == es[i + 1];
          }
        }
        assert forall i :: 0 <= i < |es[1..]| ==> !es[1..][i].Released? by {
          forall i | 0 <= i < |es[1..]| ensures !es[1..][i].Released? {
            assert es[1..][i] == es[i + 1];
          }
        }
        var rest := Run(o.state, es[1..]);
        RelativeReportsSumToMotion(o.state, es[1..]);
        TotalAppend(o.reports, rest.reports);
      }
    }
  }
}
