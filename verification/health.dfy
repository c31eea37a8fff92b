/** The `Health` record: the outcome of one appointment's latest check. */
module HealthRecord {
  import opened Common

  /** One report. `closeNotify` is the channel closed when the owning
      appointment closes; it is nil (`None`) in a record built outside the
      package, since the field is unexported. */
  datatype Health = Health(
    name: string,
    status: bool,
    start: Time,
    end: Time,
    body: seq<byte>,
    contentType: string,
    closeNotify: Option<ChanId>)

  /** The record's name. */
  function Name(h: Health): string { h.name }

  /** The health status. */
  function Healthy(h: Health): bool { h.status }

  /** When the last check started. */
  function Start(h: Health): Time { h.start }

  /** When the last check ended. */
  function End(h: Health): Time { h.end }

  /** The channel that is closed when the appointment closes. */
  function CloseNotify(h: Health): Option<ChanId> { h.closeNotify }

  /** Each accessor gives back what the record was built with. */
  lemma AccessorsReadBack(n: string, s: bool, t0: Time, t1: Time, b: seq<byte>, ct: string, ch: Option<ChanId>)
    ensures var h := Health(n, s, t0, t1, b, ct, ch);
      Name(h) == n && Healthy(h) == s && Start(h) == t0 && End(h) == t1 && CloseNotify(h) == ch
  {
  }

  /* The setters have value receivers: the assignment happens on a copy, so
     the caller's record after the call is the record before it. */

  /** The caller's record after `h.SetHealthy()` as the code is written. */
  function SetHealthy(h: Health): (r: Health)
    ensures r == h
  {
    h
  }

  /** The caller's record after `h.SetUnhealthy()` as the code is written. */
  function SetUnhealthy(h: Health): (r: Health)
    ensures r == h
  {
    h
  }

  /** An unhealthy record stays unhealthy after `SetHealthy`, against the
      setter's documented purpose. */
  lemma SetHealthyCounterexample()
    ensures var h := Health("db", false, 0, 0, [], "", None);
      !Healthy(SetHealthy(h))
  {
  }

  /** The evidently intended setter: status becomes true, nothing else changes. */
  function MarkHealthy(h: Health): (r: Health)
    ensures Healthy(r)
    ensures r.(status := h.status) == h
  {
    h.(status := true)
  }

  /** The evidently intended unhealthy setter. */
  function MarkUnhealthy(h: Health): (r: Health)
    ensures !Healthy(r)
    ensures r.(status := h.status) == h
  {
    h.(status := false)
  }

  /** The intended setters are each other's undo and are idempotent. */
  lemma MarkRoundTrip(h: Health)
    ensures MarkUnhealthy(MarkHealthy(h)) == MarkUnhealthy(h)
    ensures MarkHealthy(MarkUnhealthy(h)) == MarkHealthy(h)
    ensures MarkHealthy(MarkHealthy(h)) == MarkHealthy(h)
    ensures !Healthy(h) ==> MarkUnhealthy(h) == h
    ensures Healthy(h) ==> MarkHealthy(h) == h
  {
  }
}
