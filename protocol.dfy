/** The behaviour of the joystick as pure functions over its state: the report
    protocol (the callback invocation), the press-move and release handlers,
    and the event dispatcher. The widget class in module Widget is specified
    by these functions; the lemmas about them are in module Properties. */
module Protocol {
  import opened Types
  import opened Geometry

  /** How the callback reports: the handle's offset from the centre, or the
      pointer motion of the current step. */
  datatype ReportMode = Absolute | Relative

  /** The per-joystick record attached to the handle object as user data.
      `hasCallback` says whether the callback pointer is non-NULL. */
  datatype Data = Data(id: uint8, baseRadius: uint8, stickRadius: uint8,
                       mode: ReportMode, hasCallback: bool)

  /** One invocation of the application callback with `(id, x, y)`. */
  datatype Report = Report(id: uint8, x: int, y: int)

  /** A two-dimensional integer point: the handle offset from the centre of
      the base, or the pointer motion delivered by the input device. */
  datatype Point = Point(x: int, y: int)

  /** The effect of one handler: the handle offset afterwards and the
      callback invocations, in order. */
  datatype Step = Step(pos: Point, reports: seq<Report>)

  /** The events the handle object receives. `Pressing` carries the motion
      vector of the active input device, or `None` when there is none;
      `Other` stands for every event code the dispatcher does not handle. */
  datatype Event = Pressing(indev: Option<Point>) | Released | Delete | Other

  /** The handle object: its offset, its user-data slot (`None` is a NULL
      pointer) and whether the record it points to has been freed. */
  datatype State = State(pos: Point, userData: Option<Data>, freed: bool)

  /** The effect of one or more events: the state afterwards and the callback
      invocations, in order. */
  datatype Outcome = Outcome(state: State, reports: seq<Report>)

  /** The acceptance test of the handle offset `p` for the radii of `d`. */
  predicate Fits(d: Data, p: Point) {
    Admissible(p.x, p.y, d.baseRadius as int, d.stickRadius as int)
  }

  /** The callback invocation for `(x, y)`: nothing without a callback,
      otherwise one report whose coordinates are narrowed to `int16_t`. */
  function Callback(d: Data, x: int, y: int): (r: seq<Report>)
    ensures |r| == (if d.hasCallback then 1 else 0)
    ensures forall i :: 0 <= i < |r| ==> r[i].id == d.id && InInt16(r[i].x) && InInt16(r[i].y)
    ensures InInt16(x) && InInt16(y) ==> r == if d.hasCallback then [Report(d.id, x, y)] else []
  {
    if d.hasCallback then [Report(d.id, ToInt16(x), ToInt16(y))] else []
  }

  /** Release: the handle returns to the centre; only the absolute mode
      reports, and it reports the centre. */
  function Release(d: Data): (r: Step)
    ensures r.pos == Point(0, 0)
    ensures r.reports != [] ==> d.mode == Absolute && d.hasCallback && r.reports == [Report(d.id, 0, 0)]
  {
    Step(Point(0, 0), if d.mode == Absolute then Callback(d, 0, 0) else [])
  }

  /** Press-move from offset `p`: with an input device whose motion is `v`, the
      candidate `p + v` is taken only if it passes the acceptance test, and is
      then reported as a position (absolute mode) or as the motion `v`
      (relative mode). */
  function Press(d: Data, p: Point, indev: Option<Point>): (r: Step)
    ensures r.pos == p || (indev.Some? && Fits(d, r.pos))
    ensures |r.reports| <= 1
    ensures r.reports != [] ==> d.hasCallback && indev.Some? && Fits(d, r.pos)
  {
    match indev
    case None => Step(p, [])
    case Some(v) =>
      var c := Point(p.x + v.x, p.y + v.y);
      if !Fits(d, c) then Step(p, [])
      else if !d.hasCallback then Step(c, [])
      else if d.mode == Absolute then Step(c, Callback(d, c.x, c.y))
      else Step(c, Callback(d, v.x, v.y))
  }

  /** The event handler: a no-op without user data; otherwise press-move and
      release go to their handlers, delete frees the record, and every other
      event code is ignored. Events after delete are undefined, so the state
      must not be freed. */
  function Dispatch(st: State, e: Event): (r: Outcome)
    requires !st.freed
    ensures r.state.userData == st.userData
    ensures r.state.freed == (e.Delete? && st.userData.Some?)
    ensures r.state.pos != st.pos ==> st.userData.Some? && (e.Released? || e.Pressing?)
    ensures |r.reports| <= 1
  {
    match st.userData
    case None => Outcome(st, [])
    case Some(d) =>
      match e
      case Pressing(indev) =>
        var s := Press(d, st.pos, indev);
        Outcome(st.(pos := s.pos), s.reports)
      case Released =>
        var s := Release(d);
        Outcome(st.(pos := s.pos), s.reports)
      case Delete => Outcome(st.(freed := true), [])
      case Other => Outcome(st, [])
  }

  /** The host delivers no event after a delete. */
  predicate NoEventAfterDelete(es: seq<Event>) {
    forall i :: 0 <= i < |es| - 1 ==> !es[i].Delete?
  }

  /** The events `es` delivered in order, starting from `st`. */
  function Run(st: State, es: seq<Event>): Outcome
    requires !st.freed && NoEventAfterDelete(es)
    decreases |es|
  {
    if es == [] then Outcome(st, [])
    else
      var o := Dispatch(st, es[0]);
      if |es| == 1 then o
      else
        var rest := Run(o.state, es[1..]);
        Outcome(rest.state, o.reports + rest.reports)
  }

  /** The containment invariant: with a record attached, the handle lies
      where the acceptance test admits it, or at the centre. */
  predicate Contained(st: State) {
    st.userData.Some? ==> Fits(st.userData.value, st.pos) || st.pos == Point(0, 0)
  }

  /** The handle object right after creation: centred, record attached. */
  function Created(d: Data): (r: State)
    ensures Contained(r) && r.userData == Some(d) && !r.freed
  {
    State(Point(0, 0), Some(d), false)
  }
}
