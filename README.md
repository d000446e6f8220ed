# LVGL joystick widget — behavioural model

A model of the behaviour of the on-screen joystick widget in
`src/lvgl_joystick.c`: a movable handle (the stick) dragged inside a circular
base, whose offset from the centre of the base is reported to an application
callback `(id, x, y)`.

The model has four parts:

- **Types**: the C types involved. `uint8_t` is modelled as the newtype `uint8`. `Narrow8` models how the radii are narrowed into the record. `ToInt16` models how `int32_t` coordinates are narrowed into the callback's `int16_t` parameters.
- **Geometry**: the acceptance test of a press-move. The C code tests `sqrt(x*x + y*y) < base_radius - 1.2 * stick_radius`. The model states this exactly over the integers as `5b - 6s > 0 && 25(x² + y²) < (5b - 6s)²`. A lemma proves this agrees with the real-valued comparison.
- **Protocol**: the handlers as pure functions over the handle's state. `Callback` models `joystick_trigger_callback`, `Release` models `joystick_handle_release`, `Press` models `joystick_handle_pressing`, `Dispatch` models `joystic_event_handler`, and `Run` delivers a sequence of events. **Properties** holds the lemmas about them.
- **Widget**: the class `Joystick` for the handle object. It has a mutable offset `x, y`, the user-data slot `userData` (`None` is NULL) and a `freed` flag for the record after DELETE. A ghost `log` records every callback invocation. Each method follows one C handler statement by statement and is specified by the matching Protocol function. **Scenarios** holds worked examples and a client of the class.

Where the inputs come from:

- The pointer motion from `lv_indev_get_vect` is a parameter of the press-move event.
- "No active input device" (`lv_indev_active() == NULL`) is the value `Pressing(None)`.
- A NULL callback pointer is `hasCallback == false`.
- `malloc`/`free` of the record become the user-data slot and the `freed` flag. Events after DELETE are undefined behaviour in C, so the model has the precondition `!freed` (and `NoEventAfterDelete` for sequences).

The code checks neither that the radii are positive nor that
`stick_radius < base_radius`. It stores each radius reduced modulo 256, since
the record's fields are `uint8_t`. When `base_radius <= 1.2 * stick_radius`
the handle simply never moves (`NoRoomStaysCentred`).

## Model

| member | source | states |
|---|---|---|
| Types.Narrow8 | src/lvgl_joystick.c:92-93 | the stored radius is the value in [0, 256) congruent to the argument modulo 256, and equals the argument when that is already in range |
| Types.ToInt16 | src/lvgl_joystick.c:48-50 | the callback argument is the `int16_t` value congruent to the `int32_t` coordinate modulo 2^16, and equals it when it is in range |
| Geometry.Admissible | src/lvgl_joystick.c:36-38 | the acceptance test of a candidate offset, exact over the integers; nothing passes unless `base_radius > 1.2 * stick_radius`; specified against the real distance by AdmissibleIffDistance and bounded by AdmissibleBounds |
| Geometry.AdmissibleIffDistance | src/lvgl_joystick.c:36-38 | the integer acceptance test holds exactly when the Euclidean distance `d` (any non-negative root of x²+y²) is below `b - 1.2 s`, in both directions |
| Geometry.AdmissibleBounds | src/lvgl_joystick.c:36-38 | an accepted offset lies strictly within `(-b, b)` on each axis |
| Protocol.Callback | src/lvgl_joystick.c:6-11 | nothing is reported without a callback; otherwise exactly one report carrying the joystick's id and `int16_t` coordinates, equal to the arguments when they fit |
| Protocol.Release | src/lvgl_joystick.c:13-19 | the handle ends at the centre whatever its offset, and the only report possible is `(id, 0, 0)`, in absolute mode with a callback; fully specified by ReleaseCentres |
| Protocol.Press | src/lvgl_joystick.c:21-52 | the handle either stays where it was or moves to an admissible offset given by an input device; at most one report, and only after an accepted move with a callback; specified by PressMovesIffFits and PressReportsExact |
| Protocol.Dispatch | src/lvgl_joystick.c:55-79 | one event never changes the attached record, frees it exactly on DELETE with a record present, moves the handle only on press-move or release with a record present, and reports at most once; see also IgnoredEventsChangeNothing and DispatchKeepsContained |
| Protocol.Created | src/lvgl_joystick.c:138-141 | the state after creation has the record attached, is not freed, and satisfies the containment invariant |
| Properties.PressMovesIffFits | src/lvgl_joystick.c:23-42 | without an input device nothing happens; an accepted candidate becomes exactly `(x0+dx, y0+dy)`; a rejected one leaves both axes unchanged and reports nothing |
| Properties.PressReportsExact | src/lvgl_joystick.c:42-51 | from a contained offset, an accepted move with a callback reports exactly `(id, newX, newY)` in absolute mode and exactly `(id, dx, dy)` in relative mode; a rejected move or a missing callback reports nothing |
| Properties.ReleaseCentres | src/lvgl_joystick.c:13-19 | release centres the handle whatever its offset, and reports `(id, 0, 0)` exactly in absolute mode with a callback, nothing otherwise |
| Properties.IgnoredEventsChangeNothing | src/lvgl_joystick.c:60-78 | without user data every event is a no-op; DELETE only sets the freed flag and reports nothing; an unhandled event code or a press-move without an input device changes nothing |
| Properties.DispatchKeepsContained | src/lvgl_joystick.c:55-79 | one event never changes the attached record, frees it only on DELETE, and keeps the handle admissible or centred |
| Properties.RunKeepsContained | src/lvgl_joystick.c:13-42 | after any sequence of events from a contained state, the handle is admissible or centred and the record is unchanged |
| Properties.CreatedContained | src/lvgl_joystick.c:138-141 | right after creation the handle is centred, the record is attached and not freed, and the state is contained |
| Properties.NoRoomStaysCentred | src/lvgl_joystick.c:36-42 | if `base_radius <= 1.2 * stick_radius`, the handle is still centred after any sequence of events from creation |
| Properties.NoCallbackNoReports | src/lvgl_joystick.c:44-46 | without a callback, or without user data, no sequence of events reports anything |
| Properties.NoDataNoOp | src/lvgl_joystick.c:62-64 | without user data no sequence of events changes the state or reports anything |
| Properties.AbsoluteStep | src/lvgl_joystick.c:47-48 | in absolute mode, one event reports at most the new offset, and an event with no report leaves the handle where it was |
| Properties.AbsoluteReportsTrackPosition | src/lvgl_joystick.c:13-48 | in absolute mode, after any sequence of events the last report is the current offset, and with no report the handle has not moved |
| Properties.RelativeStep | src/lvgl_joystick.c:49-50 | in relative mode, one event other than release moves the handle by exactly the motion it reports |
| Properties.RelativeReportsSumToMotion | src/lvgl_joystick.c:29-50 | in relative mode, during a drag with no release, the offset is the start offset plus the sum of all reported motions |
| Widget.Joystick.Create | src/lvgl_joystick.c:89-95 | the record holds the id, mode and callback unchanged and the radii reduced modulo 256; the handle is centred, the record attached, the log empty, the invariant established |
| Widget.Joystick.TriggerCallback | src/lvgl_joystick.c:6-11 | appends exactly the reports of `Callback` to the log and changes nothing else |
| Widget.Joystick.HandleRelease | src/lvgl_joystick.c:13-19 | the new offset and the appended reports are those of `Release` |
| Widget.Joystick.HandlePressing | src/lvgl_joystick.c:21-52 | the new offset and the appended reports are those of `Press` for the old offset |
| Widget.Joystick.EventHandler | src/lvgl_joystick.c:55-79 | the new state and the appended reports are those of `Dispatch` for the old state; the containment invariant that `Create` establishes is required and re-established |
| Scenarios.AbsoluteSmallMove | src/lvgl_joystick.c:36-48 | radii 50 and 10, absolute mode: the motion (5, 0) from the centre is accepted and reported as (5, 0) |
| Scenarios.LargeMoveRejected | src/lvgl_joystick.c:36-41 | radii 50 and 10: the motion (100, 0) from the centre is rejected, with no move and no report in either mode |
| Scenarios.RelativeMoveReportsMotion | src/lvgl_joystick.c:49-50 | relative mode: the motion (3, -2) from (4, 4) moves the handle to (7, 2) and reports (3, -2) |
| Scenarios.ReleaseFromOffset | src/lvgl_joystick.c:13-19 | release from (5, 5) centres the handle; it reports (0, 0) in absolute mode and nothing in relative mode |

## Left out

- Styling is not modelled: the default styles initialised lazily in static storage, and any style arguments (src/lvgl_joystick.c:97-109, 119-131). It has no behaviour.
- LVGL object creation, sizing, alignment and event registration are not modelled (src/lvgl_joystick.c:112-117, 134-137, 144). These are calls into the host framework. The model keeps only their effect: the handle starts at offset (0, 0) with the record attached.
- `lv_indev_active` and `lv_indev_get_vect` are not modelled. Their results are the `Option<Point>` carried by a press-move event.
- `lv_obj_get_x_aligned`, `lv_obj_get_y_aligned` and `lv_obj_set_pos` are modelled as reads and writes of the fields `x` and `y`.
- `malloc` and `free` become the user-data slot and the `freed` flag. A failure of `malloc` is not checked by the code and is not modelled. A second DELETE, or any event after DELETE, is undefined behaviour and is excluded by precondition.
- The function-pointer call is modelled as an append to the ghost `log` of callback invocations.
- Geometry.Admissible: the rounding of `sqrt`, of the `float` conversion and of the `double` product `stick_radius * 1.2` is not modelled. The test is exact over the reals. For radii below 256 the rounding cannot change the outcome, by the following argument (not mechanised):
  - When the threshold `(5b - 6s)/5` is not an integer, it lies at least about 7.8e-5 from any `sqrt(n)` near it. The `float` half-ulp there is about 7.6e-6, so the rounding is too small to matter.
  - When the threshold is an integer (5 divides `s`), `double` computes it exactly, and the root of a perfect square is exact.
- Geometry.Admissible: `int32_t` overflow is not modelled, for two expressions:
  - `x * x + y * y` overflows once `x² + y² > 2³¹ - 1`, that is, once the candidate lies more than about 46341 from the centre (for example `x = y = 32768`).
  - The sum of the offset and the motion (src/lvgl_joystick.c:29-30) overflows only for a motion near 2³¹.
- The report mode is one of the two enumerators. A `joystick_report_mode_t` holding another value, which C would allow, is not modelled.
