/** The calendar: the name-keyed registry of appointments, its lock-out
    flag, and the bookkeeping of starting and running the checks. */
module Cal {
  import opened Common
  import opened HealthRecord
  import opened Opts
  import Appts

  /** `waiting` is the wait-group counter; `published` is every report sent
      on the result channel, in order. */
  datatype Calendar = Calendar(
    exams: map<string, Appts.Appt>,
    closed: bool,
    waiting: int,
    published: seq<Health>)

  /** An empty, open calendar. */
  function NewCalendar(): (c: Calendar)
    ensures |c.exams| == 0 && !c.closed
    ensures c.waiting == 0 && c.published == []
  {
    Calendar(map[], false, 0, [])
  }

  /** The number of registered appointments. */
  function Len(c: Calendar): (r: nat)
    ensures r == |c.exams.Keys|
  {
    |c.exams|
  }

  /** `c` and `c'` differ at most in the entry for `name`. */
  ghost predicate OthersUnchanged(c: Calendar, c': Calendar, name: string)
  {
    && (forall n :: n != name ==> (n in c.exams <==> n in c'.exams))
    && (forall n :: n != name && n in c.exams ==> c'.exams[n] == c.exams[n])
    && c'.closed == c.closed && c'.waiting == c.waiting && c'.published == c.published
  }

  /** Registers `a` under its name, replacing any entry there; a closed
      calendar silently ignores it. */
  function Set(c: Calendar, a: Appts.Appt): (r: Calendar)
    ensures c.closed ==> r == c
    ensures !c.closed ==> a.name in r.exams && r.exams[a.name] == a
    ensures OthersUnchanged(c, r, a.name)
    ensures !c.closed && a.name !in c.exams ==> Len(r) == Len(c) + 1
    ensures !c.closed && a.name in c.exams ==> Len(r) == Len(c)
  {
    if !c.closed then
      assert c.exams[a.name := a].Keys == c.exams.Keys + {a.name};
      c.(exams := c.exams[a.name := a])
    else c
  }

  /** Looks an appointment up by name. */
  function Get(c: Calendar, name: string): (r: Option<Appts.Appt>)
    ensures r.Some? <==> name in c.exams
    ensures r.Some? ==> r.value == c.exams[name]
  {
    if name in c.exams then Some(c.exams[name]) else None
  }

  /** What deleting leaves: the calendar, and the removed appointment after
      it was closed (its loop still holds it). */
  datatype Deleted = Deleted(cal: Calendar, removed: Option<Appts.Appt>)

  /** Closes and removes the appointment under `name`; does nothing when
      there is none. Closing the appointment may panic. */
  function Delete(c: Calendar, name: string): (r: Result<Deleted>)
    ensures name !in c.exams ==> r == Ok(Deleted(c, None))
    ensures name in c.exams ==> (r.Ok? <==> Appts.Close(c.exams[name]).Ok?)
    ensures r.Ok? ==> name !in r.value.cal.exams && OthersUnchanged(c, r.value.cal, name)
    ensures r.Ok? && name in c.exams ==>
              && r.value.removed == Some(Appts.Close(c.exams[name]).value)
              && r.value.removed.value.closed
              && Len(r.value.cal) == Len(c) - 1
  {
    match Get(c, name)
    case None => Ok(Deleted(c, None))
    case Some(a) =>
      match Appts.Close(a)
      case Panic => Panic
      case Ok(a') =>
        var c' := c.(exams := c.exams - {name});
        assert c'.exams.Keys == c.exams.Keys - {name};
        Ok(Deleted(c', Some(a')))
  }

  /** Every registered appointment can be closed without a panic. */
  predicate AllCloseSafe(c: Calendar)
  {
    forall n :: n in c.exams ==> Appts.Close(c.exams[n]).Ok?
  }

  /** Closes every appointment and locks the calendar. A panic while
      closing any appointment ends the program before the flag is set. */
  function Close(c: Calendar): (r: Result<Calendar>)
    ensures r.Ok? <==> AllCloseSafe(c)
    ensures r.Ok? ==>
              && r.value.closed
              && r.value.exams.Keys == c.exams.Keys
              && (forall n :: n in c.exams ==>
                    r.value.exams[n].closed && r.value.exams[n] == Appts.Close(c.exams[n]).value)
              && r.value.waiting == c.waiting && r.value.published == c.published
  {
    if AllCloseSafe(c) then
      Ok(Calendar(map n | n in c.exams :: Appts.Close(c.exams[n]).value, true, c.waiting, c.published))
    else
      Panic
  }

  /** Closing a calendar a second time changes nothing. */
  lemma CloseIdempotent(c: Calendar)
    ensures Close(c).Ok? ==> Close(Close(c).value) == Close(c)
  {
    if Close(c).Ok? {
      var once := Close(c).value;
      forall n | n in once.exams ensures Appts.Close(once.exams[n]) == Ok(once.exams[n]) {
        Appts.CloseIdempotent(c.exams[n]);
      }
      assert AllCloseSafe(once);
      var twice := Close(once).value;
      assert twice.exams == once.exams;
    }
  }

  /** How `examine` starts an appointment: once, or on a ticker with or
      without a time-to-live expiry. */
  datatype Plan = OneShot | Periodic(expiry: bool)

  /** The decision `examine` takes from an appointment's options. */
  function PlanFor(o: Options): (p: Plan)
    ensures p.OneShot? <==> o.interval < 1
    ensures p.Periodic? ==> (p.expiry <==> o.ttl > 0)
  {
    if o.interval < 1 then OneShot else Periodic(o.ttl > 0)
  }

  /** Starts one appointment: raises the wait counter and returns the plan. */
  function Examine(c: Calendar, name: string): (r: (Calendar, Plan))
    requires name in c.exams
    ensures r.0.waiting == c.waiting + 1
    ensures r.0.(waiting := c.waiting) == c
    ensures r.1 == PlanFor(c.exams[name].opts)
  {
    (c.(waiting := c.waiting + 1), PlanFor(c.exams[name].opts))
  }

  /** Examines every registered appointment once, in some order, and
      returns the plan each was started with. */
  method Begin(c: Calendar) returns (c': Calendar, plans: map<string, Plan>)
    ensures plans.Keys == c.exams.Keys
    ensures forall n :: n in plans ==> plans[n] == PlanFor(c.exams[n].opts)
    ensures c'.waiting == c.waiting + |c.exams|
    ensures c'.(waiting := c.waiting) == c
  {
    c' := c;
    plans := map[];
    var rest := c.exams.Keys;
    while rest != {}
      invariant rest <= c.exams.Keys
      invariant plans.Keys == c.exams.Keys - rest
      invariant forall n :: n in plans ==> plans[n] == PlanFor(c.exams[n].opts)
      invariant c'.waiting == c.waiting + |plans|
      invariant c'.(waiting := c.waiting) == c
      decreases |rest|
    {
      var n :| n in rest;
      var step := Examine(c', n);
      c' := step.0;
      plans := plans[n := step.1];
      rest := rest - {n};
    }
    assert plans.Keys == c.exams.Keys;
  }

  /** Runs the named appointment's check. On an open calendar the stored
      report is updated and published; on a closed one nothing runs. Each
      completion callback lowers the wait counter either way. */
  function Run(c: Calendar, name: string, t0: Time, t1: Time, callbacks: nat): (r: Calendar)
    requires name in c.exams
    ensures r.waiting == c.waiting - callbacks
    ensures r.closed == c.closed && r.exams.Keys == c.exams.Keys
    ensures c.closed ==> r.exams == c.exams && r.published == c.published
    ensures !c.closed ==> r.exams[name] == Appts.Run(c.exams[name], t0, t1).0
    ensures !c.closed ==> r.published == c.published + [Appts.Get(r.exams[name])]
    ensures forall n :: n in c.exams && n != name ==> r.exams[n] == c.exams[n]
  {
    var c1 :=
      if !c.closed then
        var (a', h) := Appts.Run(c.exams[name], t0, t1);
        c.(exams := c.exams[name := a'], published := c.published + [h])
      else c;
    c1.(waiting := c1.waiting - callbacks)
  }

  /** A one-shot appointment on an open calendar publishes exactly one
      report and leaves the wait counter where it was before it started. */
  lemma OneShotPublishesOnce(c: Calendar, name: string, t0: Time, t1: Time)
    requires name in c.exams && !c.closed
    requires c.exams[name].opts.interval < 1
    ensures var (c1, plan) := Examine(c, name);
      && plan == OneShot
      && var c2 := Run(c1, name, t0, t1, 1);
      && |c2.published| == |c.published| + 1
      && c2.waiting == c.waiting
      && Name(c2.published[|c.published|]) == Name(c.exams[name].hc(Appts.CheckInput(c.exams[name], t0)))
  {
  }

  /** No calendar operation reopens a closed calendar. */
  lemma ClosedStaysClosed(c: Calendar, a: Appts.Appt, name: string, t0: Time, t1: Time, k: nat)
    requires c.closed
    ensures Set(c, a).closed
    ensures Delete(c, name).Ok? ==> Delete(c, name).value.cal.closed
    ensures name in c.exams ==> Examine(c, name).0.closed && Run(c, name, t0, t1, k).closed
  {
  }

  /** Registering a new name on an open calendar adds one entry; deleting
      it again restores the registry, unless closing the appointment
      panics. */
  lemma SetThenDelete(c: Calendar, a: Appts.Appt)
    requires !c.closed && a.name !in c.exams
    ensures Len(Set(c, a)) == Len(c) + 1
    ensures Appts.Close(a).Ok? ==> Delete(Set(c, a), a.name) == Ok(Deleted(c, Some(Appts.Close(a).value)))
    ensures Appts.Close(a) == Panic ==> Delete(Set(c, a), a.name) == Panic
  {
    var s := Set(c, a);
    if Appts.Close(a).Ok? {
      var d := Delete(s, a.name).value.cal;
      assert d.exams == c.exams;
    }
  }
}
