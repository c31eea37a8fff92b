/** One registered appointment: its check, its options, its current report
    and its once-only close. */
module Appts {
  import opened Common
  import opened HealthRecord
  import opened Opts

  /** A health check: given the previous report, with a fresh start time,
      it returns the new report. */
  type HealthCheck = Health -> Health

  /** The caller's request to schedule a check; `None` is a nil check. */
  datatype Appointment = Appointment(name: string, healthCheck: Option<HealthCheck>)

  /** The scheduler's own record of an appointment. `done` is the channel
      that stops its loop; `signalled` logs, in order, every channel this
      appointment has closed. */
  datatype Appt = Appt(
    name: string,
    hc: HealthCheck,
    opts: Options,
    done: ChanId,
    closed: bool,
    h: Health,
    signalled: seq<ChanId>)

  /** The body a report carries before the first check has run. */
  const PlaceholderText := "{\"report\": \"no health check results\"}"

  const PlaceholderBody: seq<byte> := Bytes(PlaceholderText)

  const JsonContentType := "application/json"

  /** A new, open appointment. `done` and `notify` are the two channels the
      constructor makes, so they are distinct. */
  function NewAppt(name: string, hc: HealthCheck, done: ChanId, notify: ChanId): (a: Appt)
    requires done != notify
    ensures a.name == name && a.hc == hc && a.done == done
    ensures !a.closed && a.signalled == []
    ensures a.opts == Zero
    ensures Name(a.h) == name && !Healthy(a.h) && Start(a.h) == 0 && End(a.h) == 0
    ensures CloseNotify(a.h) == Some(notify)
    ensures a.h.contentType == JsonContentType
    ensures |a.h.body| == |PlaceholderText|
    ensures forall i :: 0 <= i < |PlaceholderText| ==> a.h.body[i] as int == PlaceholderText[i] as int
  {
    Appt(name, hc, Zero, done, false,
         Health(name, false, 0, 0, PlaceholderBody, JsonContentType, Some(notify)), [])
  }

  /** A copy of the current report. */
  function Get(a: Appt): (r: Health)
    ensures r == a.h
  {
    a.h
  }

  /** Closing an open appointment closes `done` and then the report's
      close-notify channel. That goes through only when neither channel is
      nil or already closed by this appointment, and the two differ. */
  predicate CloseSafe(a: Appt)
  {
    && a.done !in a.signalled
    && a.h.closeNotify.Some?
    && a.h.closeNotify.value != a.done
    && a.h.closeNotify.value !in a.signalled
  }

  /** Closes the appointment. The first call closes `done` and the report's
      close-notify channel and marks it closed; later calls do nothing. A
      nil or already closed channel makes the first call panic. */
  function Close(a: Appt): (r: Result<Appt>)
    ensures a.closed ==> r == Ok(a)
    ensures !a.closed ==> (r.Ok? <==> CloseSafe(a))
    ensures r.Ok? ==> r.value.closed && r.value.(closed := a.closed, signalled := a.signalled) == a
    ensures r.Ok? && !a.closed ==> r.value.signalled == a.signalled + [a.done, CloseNotify(a.h).value]
  {
    if a.closed then Ok(a)
    else if a.done in a.signalled then Panic
    else match a.h.closeNotify
      case None => Panic
      case Some(n) =>
        if n == a.done || n in a.signalled then Panic
        else Ok(a.(closed := true, signalled := a.signalled + [a.done, n]))
  }

  /** Once a close went through, closing again changes nothing; closing
      leaves the report alone. */
  lemma CloseIdempotent(a: Appt)
    ensures Close(a).Ok? ==> Close(Close(a).value) == Close(a)
    ensures Close(a).Ok? ==> Get(Close(a).value) == Get(a)
  {
  }

  /** The report handed to the check at time `now`: the current one with
      its start stamped. */
  function CheckInput(a: Appt, now: Time): (r: Health)
    ensures Start(r) == now
    ensures r.(start := a.h.start) == a.h
  {
    a.h.(start := now)
  }

  /** Runs the check: stamps `start` with `t0`, stores what the check
      returns, stamps `end` with `t1`, and returns the stored report. */
  function Run(a: Appt, t0: Time, t1: Time): (r: (Appt, Health))
    ensures r.1 == Get(r.0)
    ensures End(r.1) == t1
    ensures r.1.(end := a.hc(CheckInput(a, t0)).end) == a.hc(CheckInput(a, t0))
    ensures r.0.(h := a.h) == a
  {
    var stamped := a.h.(start := t0);
    var checked := a.hc(stamped);
    var h := checked.(end := t1);
    (a.(h := h), h)
  }

  /** With a non-decreasing clock and a check that keeps the start it is
      given, the stored report starts at the first clock reading and ends
      no earlier. */
  lemma RunStartBeforeEnd(a: Appt, t0: Time, t1: Time)
    requires t0 <= t1
    requires forall h :: a.hc(h).start == h.start
    ensures Start(Run(a, t0, t1).1) == t0
    ensures Start(Run(a, t0, t1).1) <= End(Run(a, t0, t1).1)
  {
    assert a.hc(CheckInput(a, t0)).start == CheckInput(a, t0).start;
  }

  /** A check that moves `start` past the second clock reading leaves a
      stored report that ends before it starts. */
  lemma RunCanEndBeforeStart()
    ensures var a := NewAppt("db", (h: Health) => h.(start := h.start + 10), 1, 2);
      var r := Run(a, 0, 5).1;
      End(r) < Start(r)
  {
  }

  /** A check that builds a fresh `Health` value, as `Health{Body: b}`
      written outside the package does, returns a nil close-notify channel,
      since that field is unexported. Once such a record is stored, closing
      the appointment panics, though closing it before the run would not. */
  lemma ForeignRecordMakesClosePanic(a: Appt, t0: Time, t1: Time)
    requires !a.closed && CloseSafe(a)
    requires forall h :: a.hc(h).closeNotify == None
    ensures Close(a).Ok?
    ensures Close(Run(a, t0, t1).0) == Panic
  {
  }

  /** A check that returns the record it is given with only exported fields
      changed carries the close-notify channel along, so a close after the
      run goes through whenever it would have before. */
  lemma CopyingCheckKeepsClose(a: Appt, t0: Time, t1: Time)
    requires forall h :: a.hc(h).closeNotify == h.closeNotify
    ensures Close(Run(a, t0, t1).0) == (if Close(a).Ok? then Ok(Close(a).value.(h := Run(a, t0, t1).1)) else Panic)
  {
  }

  /** The operations a caller can apply to an appointment. */
  datatype Op = CloseOp | RunOp(t0: Time, t1: Time) | GetOp

  /** One operation. */
  function Step(a: Appt, op: Op): Result<Appt>
  {
    match op
    case CloseOp => Close(a)
    case RunOp(t0, t1) => Ok(Run(a, t0, t1).0)
    case GetOp => Ok(a)
  }

  /** The appointment after the operations, in order, or a panic. */
  function ApplyOps(a: Appt, ops: seq<Op>): Result<Appt>
    decreases |ops|
  {
    if ops == [] then Ok(a)
    else
      match Step(a, ops[0])
      case Panic => Panic
      case Ok(a') => ApplyOps(a', ops[1..])
  }

  /** Over any run of operations: without a close of an open appointment
      nothing panics; when nothing panics, `closed` never goes from true to
      false and is set exactly when some close happened, and the two
      channels are signalled exactly once, by the first close. */
  lemma {:induction false} CloseOnce(a: Appt, ops: seq<Op>)
    ensures a.closed || CloseOp !in ops ==> ApplyOps(a, ops).Ok?
    ensures ApplyOps(a, ops).Ok? ==>
      var r := ApplyOps(a, ops).value;
      && r.closed == (a.closed || CloseOp in ops)
      && r.done == a.done && r.name == a.name
      && |r.signalled| == |a.signalled| + (if !a.closed && CloseOp in ops then 2 else 0)
      && a.signalled <= r.signalled
    decreases |ops|
  {
    if ops != [] {
      assert ops == [ops[0]] + ops[1..];
      assert CloseOp in ops <==> ops[0] == CloseOp || CloseOp in ops[1..];
      match Step(a, ops[0])
      case Panic =>
      case Ok(a') =>
        CloseOnce(a', ops[1..]);
    }
  }
}
