# doctor: a Dafny model of the health-check scheduler's bookkeeping

`doctor` is a Go library for running named health checks ("appointments") periodically.
A `Doctor` keeps a calendar that maps names to appointments. `Schedule` validates a request
and registers it. `Examine` starts every registered check, once or on a ticker, with an
optional time-to-live. Each run stamps a `Health` report and sends it on a result channel.
`Close` shuts every appointment down. A separate reaper keeps a map of cancellation handles.

This project models the sequential bookkeeping of that engine as pure state transitions on
immutable datatypes:

- `common.dfy` (`Common`): bytes, channel identities (`ChanId`), abstract time, `Option`.
- `health.dfy` (`HealthRecord`): the `Health` report, its accessors, and its setters as written
  and as intended.
- `opts.dfy` (`Opts`): the `options` record and the five option setters.
- `appt.dfy` (`Appts`): an appointment, its construction, its once-only close, and a run of its check.
- `cal.dfy` (`Cal`): the calendar registry with its lock-out flag, the one-shot/periodic/TTL
  decision, starting all checks, and running one check.
- `doc.dfy` (`Doc`): `Schedule`, `Examine`, `BillsOfHealth` and `Close`.
- `reaper.dfy` (`Reaper`): the cancellation-handle map.

Concurrency is replaced by data:

- A channel is a `ChanId`. A channel variable that may be nil is an `Option<ChanId>`.
- Closing a channel appends its identity to a log: an appointment's `signalled`, or the
  channels the reaper's `Close` returns. A channel in the log counts as closed.
- Closing a nil or closed channel panics in Go. An operation that can do that returns a
  `Result`, and `Panic` is its outcome. A panic ends the program, so `Panic` carries no state.
- The wait group is the calendar's `waiting` counter.
- The result channel is the calendar's `published` sequence.
- The two `time.Now()` reads of a run are the parameters `t0` and `t1`.
- The user's check is a function `Health -> Health`. A nil check is `None` in `Appointment`.
- Channels that `make` creates are parameters (`done`, `notify`, `quit`). The two channels one
  appointment makes are distinct.

The model follows the code:

- An appointment's options start at Go's zero value. With no `Regularity` option the
  interval is 0 and the check runs once.
- Deleting an appointment closes it directly. It does not go through the reaper.
- The reaper's bulk close is not idempotent (see Findings).
- `Schedule` after `Close` is accepted with a nil error but registers nothing.
- A nil option passed to `Schedule` is called like any other, so it panics, but only after
  the request passed validation.
- A health check written outside the package cannot set the unexported close-notify field.
  If it returns the record it was given with only exported fields changed, the channel is
  copied along and a later close goes through. If it builds a new `Health` value, such as
  `Health{Body: b}`, the channel is nil and a later close of that appointment panics.

## Model

| member | source | states |
|---|---|---|
| HealthRecord.AccessorsReadBack | health.go:16-51 | `Name`, `Healthy`, `Start`, `End` and `CloseNotify` give back the record's name, status, timestamps and channel unchanged |
| HealthRecord.SetHealthy | health.go:26-29 | because the receiver is a value, the caller's record after `SetHealthy` equals the record before, status included |
| HealthRecord.SetUnhealthy | health.go:31-34 | because the receiver is a value, the caller's record after `SetUnhealthy` equals the record before, status included |
| HealthRecord.SetHealthyCounterexample | health.go:26-29 | an unhealthy record is still unhealthy after `SetHealthy` |
| HealthRecord.MarkHealthy | health.go:26-29 | the intended setter: the status becomes true and every other field is kept |
| HealthRecord.MarkUnhealthy | health.go:31-34 | the intended setter: the status becomes false and every other field is kept |
| HealthRecord.MarkRoundTrip | health.go:26-34 | the intended setters undo each other and are idempotent; setting a status a record already has changes nothing |
| Opts.Apply | opts.go:16-56 | each setter returns a nil error, writes its value into exactly the one field it targets, and leaves the other four fields unchanged |
| Opts.ApplyAll | doc.go:39-41 | with no options the options stay as they were; otherwise the field the last option targets holds that option's value |
| Opts.UntouchedFieldKept | doc.go:39-41 | applying options in order leaves a field unchanged when no option targets it |
| Opts.LastSetterWins | doc.go:39-41 | applying options in order, the last option that targets a field decides that field's value |
| Opts.Setters | doc.go:39-41 | an option list with no nil entry gives the setters it holds, one per entry, in order |
| Opts.Given | doc.go:22 | any sequence of setters can be passed as an option list with no nil entry, and reading the setters back gives the same sequence |
| Appts.NewAppt | appt.go:26-37 | a new appointment is open and has closed no channel; its options are the zero value; its record has the appointment's name, is not healthy, has zero timestamps, carries the placeholder JSON body byte for byte, has content type `application/json`, and holds the fresh close-notify channel, distinct from `done` |
| Appts.Get | appt.go:39-43 | the copy handed out is the appointment's current report |
| Appts.Close | appt.go:45-53 | closing a closed appointment changes nothing; the first close of an open one goes through exactly when `done` and the record's close-notify channel are non-nil, distinct and not closed yet, and then signals `done` and then that channel and sets `closed`; otherwise it panics; no other field changes |
| Appts.CloseIdempotent | appt.go:45-53 | once a close went through, closing again is the same as closing once, and closing does not change the stored report |
| Appts.CheckInput | appt.go:65-72 | the check receives the current report with only `start` changed, to the clock value |
| Appts.Run | appt.go:58-77 | the returned report equals the stored report after the call; it is the check's output with `end` set to the second clock reading; nothing but the report changes |
| Appts.RunStartBeforeEnd | appt.go:65-75 | with a non-decreasing clock and a check that keeps the start it is given, the stored report starts at the first clock reading and does not end before it starts |
| Appts.RunCanEndBeforeStart | appt.go:65-75 | a check that moves `start` past the second clock reading leaves a stored report that ends before it starts |
| Appts.ForeignRecordMakesClosePanic | appt.go:45-75 | an open appointment that can be closed, whose check always returns a record with a nil close-notify channel (as a check that builds a new `Health` value outside the package does), panics when closed after a run |
| Appts.CopyingCheckKeepsClose | appt.go:45-75 | when the check passes the close-notify channel through unchanged (as one that edits only exported fields of the record it is given does), closing after a run panics exactly when closing before it would, and otherwise has the same effect, with the new report |
| Appts.CloseOnce | appt.go:45-53 | for any sequence of close, run and get: without a close of an open appointment nothing panics; when nothing panics, `closed` ends true exactly when it started true or some close happened, so it never goes back to false, the two channels are signalled once, only by the first close of an open appointment, and the signal log only grows |
| Cal.NewCalendar | cal.go:20-25 | a new calendar is empty and open, with a zero wait counter and nothing published |
| Cal.Len | cal.go:27-31 | the length is the number of registered names |
| Cal.Set | cal.go:33-39 | on an open calendar, the appointment is stored under its name and the size grows by one exactly when the name was new; on a closed calendar nothing changes; no other entry changes |
| Cal.Get | cal.go:41-46 | the lookup finds an appointment exactly when the name is registered, and then returns the stored one |
| Cal.Delete | cal.go:48-56 | an absent name changes nothing; for a registered name the call panics exactly when closing its appointment panics, and otherwise the name is removed, the size drops by one, and the appointment is handed back closed; no other entry changes |
| Cal.Close | cal.go:58-65 | the call panics exactly when closing some registered appointment panics; otherwise the calendar becomes closed, every entry is its appointment after `close`, and the set of names, the wait counter and the published reports are unchanged |
| Cal.CloseIdempotent | cal.go:58-65 | once a close went through, closing the calendar again is the same as closing it once |
| Cal.PlanFor | cal.go:87-116 | an interval below 1 means the check runs once with no expiry; otherwise it is periodic, and an expiry is armed exactly when the TTL is positive |
| Cal.Examine | cal.go:80-94 | examining raises the wait counter by one, changes nothing else, and starts the appointment by the plan its options give |
| Cal.Begin | cal.go:67-74 | every registered appointment is examined exactly once: there is one plan per registered name, each matching that appointment's options, and the wait counter rises by the number of appointments |
| Cal.Run | cal.go:123-133 | on an open calendar the appointment's check runs and the stored report is published; on a closed calendar nothing runs or is published; in both cases each completion callback lowers the wait counter by one; other appointments are untouched |
| Cal.OneShotPublishesOnce | cal.go:91-93 | an appointment with interval below 1 on an open calendar is started as one-shot, publishes exactly one report, and leaves the wait counter where it was |
| Cal.ClosedStaysClosed | cal.go:33-133 | no calendar operation that returns reopens a closed calendar |
| Cal.SetThenDelete | cal.go:27-56 | registering a new name grows the calendar by one; deleting that name again restores the calendar and hands back the appointment closed, or panics exactly when closing the appointment panics |
| Doc.New | doc.go:18-19 | a new doctor has an empty, open calendar |
| Doc.Schedule | doc.go:22-47 | an empty name fails first, then a nil check, then a duplicate; each failure leaves the doctor unchanged; a request that passes these panics exactly when some option is nil; otherwise the error is nil; on an open calendar success adds exactly one entry, under that name, holding a new appointment with the options applied, and leaves the other entries alone; on a closed calendar success changes nothing |
| Doc.Register | doc.go:37-46 | building and storing the appointment adds one entry with the options applied on an open calendar, and is dropped on a closed one |
| Doc.ScheduleAppliesOptionsInOrder | doc.go:38-41 | for any option list on a valid request: in the registered appointment, the last option that targets a field decides that field, and a field no option targets keeps Go's zero value |
| Doc.ScheduleTwiceRejects | doc.go:32-35 | after a name is registered, scheduling it again fails with the duplicate error, whatever options come with it, nil ones included, and leaves the doctor unchanged |
| Doc.ScheduleAfterCloseDropped | doc.go:43-46 | after a `Close` that went through, a fresh name is accepted with a nil error, even twice in a row, but the calendar does not grow |
| Doc.Examine | doc.go:49-53 | every registered appointment is started exactly once by its plan, and the wait counter rises by the calendar size |
| Doc.BillsOfHealth | doc.go:65-72 | exactly one report per registered appointment: the reports are the appointments' stored reports, taken over a repeat-free listing of all names |
| Doc.Close | doc.go:74-77 | the call panics exactly when closing some appointment panics; otherwise the calendar is closed, each entry is its appointment after `close`, and the names, wait counter and published reports are kept |
| Doc.CloseTwice | doc.go:74-77 | once a `Close` went through, calling it again is the same as calling it once |
| Reaper.NewReaper | reaper.go:18-20 | a new reaper has no workers |
| Reaper.Set | reaper.go:22-27 | the name gets a new, open worker holding the given quit channel, nil or not, replacing any older one; the error is nil; no other entry changes |
| Reaper.Delete | reaper.go:29-33 | only the named entry is removed; deleting an absent name changes nothing |
| Reaper.Get | reaper.go:35-40 | the lookup reports whether the name is registered, and gives that worker's quit channel, or a nil channel when the name is absent |
| Reaper.SetGetDelete | reaper.go:22-40 | `Get` after `Set` returns the channel that was set; after `Delete` it finds nothing; setting and then deleting a new name restores the reaper |
| Reaper.Close | reaper.go:42-52 | the call panics exactly when some pending worker's quit channel is nil, was closed before, or is shared with another pending worker; otherwise every worker not flagged closed is signalled exactly once, each through its own channel, and no other worker is; the reaper itself is returned unchanged |
| Reaper.SafeWhenAllClosed | reaper.go:42-52 | if every pending worker had its own non-nil, not yet closed channel closed, the close could not panic |
| Reaper.CloseTwice | reaper.go:42-52 | when a first `Close` goes through, a second one panics exactly when some worker is pending |
| Reaper.MarkAll | reaper.go:42-52 | the corrected close's bookkeeping: every worker is flagged closed, keeping its channel, so nothing is pending |
| Reaper.CloseMarked | reaper.go:42-52 | the corrected close panics under the same conditions as `Close`; otherwise it signals each pending worker exactly once and then flags every worker closed |
| Reaper.CloseMarkedTwice | reaper.go:42-52 | with the corrected close, a first call that goes through is followed by a second that signals nothing |

## Left out

- Goroutines, the ticker loop, `time.After`, and the wait-group wait that closes the result
  channel (cal.go:96-116, doc.go:55-59). A started appointment is represented only by the
  `Cal.Plan` it was started with and by the raised `waiting` counter. The ticker loop's own
  `wg.Done` on exit is not modelled.
- Cal.Run: requires the appointment to be registered under its name. In the code, `run`
  receives the `*appointment` that `begin` took from the map. The model addresses
  appointments by name and does not cover a run racing a `delete`.
- Cal.Run: the completion callbacks are only counted. The code's only callback is `wg.Done`,
  so each one lowers `waiting` by one. A negative counter, which panics in Go, is not excluded.
- Locks (`sync.Mutex`, `sync.RWMutex`). The model is sequential. `calendar.delete` takes the
  mutex and then calls `get`, which takes it again, so it deadlocks in Go. The model gives
  its intended effect. `BillsOfHealth` reads the map without the lock (doc.go:68).
- Real clock reads. Each `time.Now()` becomes an explicit parameter.
- The body of the health check. It is an opaque function parameter.
- Error message texts. `Doc.ScheduleError` keeps only the kind of error and the
  duplicate's name.
- `fmt.Printf` logging in the reaper, and JSON struct tags.
- The `Examine` signature at doc.go:50 does not compile. It is modelled as returning the
  started plans. `BillOfHealth` is used where the code works with `Health`:
  `HealthCheck` is declared over `BillOfHealth` (doc.go:9) but applied to `Health`
  (appt.go:72); the result channel is a `chan BillOfHealth` (cal.go:14) that is sent a
  `Health` (cal.go:128); and `BillsOfHealth` appends `Health` values to a `[]BillOfHealth`
  (doc.go:66-69). The model uses `Health` in all these places.
- Appts.RunStartBeforeEnd: `start <= end` holds only for a check that keeps the start it is
  given, because the code stores whatever the check returns. `Appts.RunCanEndBeforeStart`
  shows a check for which it fails.
- Appts.Close: only channels this appointment closed itself count as already closed. A check
  can return a record taken from another appointment, and closing both appointments then
  closes one channel twice. The model does not track channels across appointments.
- A panic inside the user's check, and `recover`, are not modelled. The check is a total
  function.
- `Body` is a `[]byte`. Copies of a report from `get` and `BillsOfHealth` share the backing
  array with the stored report, so a caller can change it in place. The model treats the body
  as a value.
- Which appointments or workers were closed before a panic is not modelled. The map order is
  not observable, and a panic ends the program.
- `Doctor.closeNotify` is never used by the code.
- The older drafts `calendar.go`, `doctor.go`, `options.go`, `appointment.go` and
  `billofhealth.go` redefine the same types. They are not part of this model. Neither are
  `examples/example.go` and `doctor_test.go`.

## Findings

| source | as written | input that shows it | evidently intended | confidence | as-written member | corrected member |
|---|---|---|---|---|---|---|
| reaper.go:42-52 | `Close` skips workers flagged closed but never sets the flag, so a second `Close` closes every quit channel again, and Go panics on closing a closed channel | a reaper with one worker made by `Set("db", q)` with a non-nil `q`, then `Close` called twice: the first call goes through, the second panics | flag each worker closed after closing its channel | high (not executed) | Reaper.CloseTwice | Reaper.CloseMarkedTwice |
| health.go:26-34 | `SetHealthy` and `SetUnhealthy` have value receivers, so they change a copy and the caller's record keeps its status | a record with status false, then `SetHealthy()`; `Healthy()` is still false | the caller's record gets status true or false | high (not executed) | HealthRecord.SetHealthyCounterexample | HealthRecord.MarkHealthy |
