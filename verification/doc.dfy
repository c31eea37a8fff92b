/** The doctor: the public surface that schedules appointments, starts the
    checks, lists the reports and shuts everything down. */
module Doc {
  import opened Common
  import opened HealthRecord
  import opened Opts
  import Appts
  import Cal

  datatype Doctor = Doctor(cal: Cal.Calendar)

  /** A doctor with an empty, open calendar. */
  function New(): (d: Doctor)
    ensures Cal.Len(d.cal) == 0 && !d.cal.closed
  {
    Doctor(Cal.NewCalendar())
  }

  /** The errors `Schedule` reports. */
  datatype ScheduleError = NameNotSet | CheckNotAssigned | AlreadyExists(name: string)

  /** What `Schedule` returns from: the doctor and the error it returns
      (`None` is nil). */
  datatype Outcome = Outcome(doctor: Doctor, err: Option<ScheduleError>)

  /** The request passes the three checks `Schedule` makes before it builds
      the appointment. */
  predicate Valid(d: Doctor, a: Appts.Appointment)
  {
    a.name != [] && a.healthCheck.Some? && a.name !in d.cal.exams
  }

  /** Validates the request, builds the appointment, calls the option
      closures on its options in order, and registers it. A nil option
      (`None`) is called like the others, so it panics, but only once the
      request has passed validation. `done` and `notify` are the channels
      the new appointment is made with. */
  function Schedule(d: Doctor, a: Appts.Appointment, opts: seq<Option<Setter>>, done: ChanId, notify: ChanId): (r: Result<Outcome>)
    requires done != notify
    // empty name first, then a nil check, then a duplicate, then a nil option
    ensures a.name == [] ==> r == Ok(Outcome(d, Some(NameNotSet)))
    ensures a.name != [] && a.healthCheck.None? ==> r == Ok(Outcome(d, Some(CheckNotAssigned)))
    ensures a.name != [] && a.healthCheck.Some? && a.name in d.cal.exams ==>
              r == Ok(Outcome(d, Some(AlreadyExists(a.name))))
    ensures r == Panic <==> Valid(d, a) && !NoNil(opts)
    ensures r.Ok? && r.value.err.None? <==> Valid(d, a) && NoNil(opts)
    // success on a closed calendar: nil, but nothing is registered
    ensures r.Ok? && r.value.err.None? && d.cal.closed ==> r.value.doctor == d
    // success on an open calendar: exactly one new entry under the name
    ensures r.Ok? && r.value.err.None? && !d.cal.closed ==>
              && Cal.Len(r.value.doctor.cal) == Cal.Len(d.cal) + 1
              && Cal.OthersUnchanged(d.cal, r.value.doctor.cal, a.name)
              && a.name in r.value.doctor.cal.exams
              && var e := r.value.doctor.cal.exams[a.name];
                 e == Appts.NewAppt(a.name, a.healthCheck.value, done, notify).(opts := ApplyAll(Setters(opts), Zero))
  {
    if a.name == [] then Ok(Outcome(d, Some(NameNotSet)))
    else if a.healthCheck.None? then Ok(Outcome(d, Some(CheckNotAssigned)))
    else if Cal.Get(d.cal, a.name).Some? then Ok(Outcome(d, Some(AlreadyExists(a.name))))
    else if !NoNil(opts) then Panic
    else Ok(Outcome(Register(d, a.name, a.healthCheck.value, Setters(opts), done, notify), None))
  }

  /** Builds a new appointment with the options applied and hands it to the
      calendar. */
  function Register(d: Doctor, name: string, hc: Appts.HealthCheck, opts: seq<Setter>, done: ChanId, notify: ChanId): (r: Doctor)
    requires name !in d.cal.exams && done != notify
    ensures d.cal.closed ==> r == d
    ensures !d.cal.closed ==>
              && Cal.Len(r.cal) == Cal.Len(d.cal) + 1
              && Cal.OthersUnchanged(d.cal, r.cal, name)
              && name in r.cal.exams
              && r.cal.exams[name] == Appts.NewAppt(name, hc, done, notify).(opts := ApplyAll(opts, Zero))
  {
    var appt := Appts.NewAppt(name, hc, done, notify);
    var appt' := appt.(opts := ApplyAll(opts, appt.opts));
    var cal' := Cal.Set(d.cal, appt');
    Doctor(cal')
  }

  /** The last option setting a field decides that field of the registered
      appointment; a field no option sets keeps Go's zero value. */
  lemma ScheduleAppliesOptionsInOrder(d: Doctor, a: Appts.Appointment, ss: seq<Setter>, done: ChanId, notify: ChanId, i: nat, f: Field)
    requires Valid(d, a) && !d.cal.closed && done != notify
    ensures Schedule(d, a, Given(ss), done, notify).Ok?
    ensures i < |ss| && (forall j :: i < j < |ss| ==> Target(ss[j]) != Target(ss[i])) ==>
      Holds(Schedule(d, a, Given(ss), done, notify).value.doctor.cal.exams[a.name].opts, ss[i])
    ensures (forall j :: 0 <= j < |ss| ==> Target(ss[j]) != f) ==>
      Agree(Zero, Schedule(d, a, Given(ss), done, notify).value.doctor.cal.exams[a.name].opts, f)
  {
    if i < |ss| && forall j :: i < j < |ss| ==> Target(ss[j]) != Target(ss[i]) {
      LastSetterWins(ss, Zero, i);
    }
    if forall j :: 0 <= j < |ss| ==> Target(ss[j]) != f {
      UntouchedFieldKept(ss, Zero, f);
    }
  }

  /** Names are unique: once a name is registered, scheduling it again is
      rejected and leaves the doctor as it was, whatever options come with
      it, nil ones included. */
  lemma ScheduleTwiceRejects(d: Doctor, a: Appts.Appointment, ss: seq<Setter>, o2: seq<Option<Setter>>, c1: ChanId, c2: ChanId, c3: ChanId, c4: ChanId)
    requires Valid(d, a) && !d.cal.closed && c1 != c2 && c3 != c4
    ensures Schedule(d, a, Given(ss), c1, c2).Ok?
    ensures var d1 := Schedule(d, a, Given(ss), c1, c2).value.doctor;
      Schedule(d1, a, o2, c3, c4) == Ok(Outcome(d1, Some(AlreadyExists(a.name))))
  {
  }

  /** After a `Close` that went through, a fresh name is accepted every
      time, yet the calendar never grows. */
  lemma ScheduleAfterCloseDropped(d: Doctor, a: Appts.Appointment, s1: seq<Setter>, s2: seq<Setter>, c1: ChanId, c2: ChanId, c3: ChanId, c4: ChanId)
    requires a.name != [] && a.healthCheck.Some? && a.name !in d.cal.exams && c1 != c2 && c3 != c4
    ensures Close(d).Ok? ==>
      var closed := Close(d).value;
      && Schedule(closed, a, Given(s1), c1, c2) == Ok(Outcome(closed, None))
      && Schedule(Schedule(closed, a, Given(s1), c1, c2).value.doctor, a, Given(s2), c3, c4) == Ok(Outcome(closed, None))
      && Cal.Len(closed.cal) == Cal.Len(d.cal)
  {
  }

  /** Starts every registered check; returns the plan each was started
      with. The goroutine that closes the result channel once the wait
      counter drains is not modelled. */
  method Examine(d: Doctor) returns (d': Doctor, plans: map<string, Cal.Plan>)
    ensures plans.Keys == d.cal.exams.Keys
    ensures forall n :: n in plans ==> plans[n] == Cal.PlanFor(d.cal.exams[n].opts)
    ensures d'.cal.waiting == d.cal.waiting + Cal.Len(d.cal)
    ensures d'.cal.(waiting := d.cal.waiting) == d.cal
  {
    var c', p := Cal.Begin(d.cal);
    d' := Doctor(c');
    plans := p;
  }

  /** One report per registered appointment, in map order; `order` names
      the appointment each report came from. */
  method BillsOfHealth(d: Doctor) returns (bills: seq<Health>, ghost order: seq<string>)
    ensures |bills| == Cal.Len(d.cal)
    ensures |order| == |bills| && Distinct(order)
    ensures forall n :: n in order <==> n in d.cal.exams
    ensures forall i :: 0 <= i < |bills| ==> order[i] in d.cal.exams && bills[i] == Appts.Get(d.cal.exams[order[i]])
  {
    bills := [];
    order := [];
    var rest := d.cal.exams.Keys;
    while rest != {}
      invariant rest <= d.cal.exams.Keys
      invariant |order| == |bills| && Distinct(order)
      invariant |bills| + |rest| == |d.cal.exams|
      invariant forall n :: n in order <==> n in d.cal.exams && n !in rest
      invariant forall i :: 0 <= i < |bills| ==> order[i] in d.cal.exams && bills[i] == Appts.Get(d.cal.exams[order[i]])
      decreases |rest|
    {
      var n :| n in rest;
      bills := bills + [Appts.Get(d.cal.exams[n])];
      order := order + [n];
      rest := rest - {n};
    }
  }

  /** Closes every appointment and locks the calendar; panics when closing
      some appointment does. */
  function Close(d: Doctor): (r: Result<Doctor>)
    ensures r.Ok? <==> Cal.AllCloseSafe(d.cal)
    ensures r.Ok? ==> r.value.cal.closed && r.value.cal.exams.Keys == d.cal.exams.Keys
    ensures r.Ok? ==> forall n :: n in d.cal.exams ==>
              r.value.cal.exams[n].closed && r.value.cal.exams[n] == Appts.Close(d.cal.exams[n]).value
    ensures r.Ok? ==> r.value.cal.waiting == d.cal.waiting && r.value.cal.published == d.cal.published
  {
    match Cal.Close(d.cal)
    case Panic => Panic
    case Ok(c) => Ok(Doctor(c))
  }

  /** Once a close went through, closing again changes nothing. */
  lemma CloseTwice(d: Doctor)
    ensures Close(d).Ok? ==> Close(Close(d).value) == Close(d)
  {
    Cal.CloseIdempotent(d.cal);
  }
}
