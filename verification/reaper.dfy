/** The reaper: a name-keyed map of cancellation handles, with bulk close. */
module Reaper {
  import opened Common

  /** A cancellation handle: the quit channel (`None` is nil) and whether
      it was closed. */
  datatype Worker = Worker(quit: Option<ChanId>, closed: bool)

  datatype Reaper = Reaper(workers: map<string, Worker>)

  /** An empty reaper. */
  function NewReaper(): (r: Reaper)
    ensures |r.workers| == 0
  {
    Reaper(map[])
  }

  /** What `Set` leaves: the reaper and its error (`None` is nil). */
  datatype SetResult = SetResult(reaper: Reaper, err: Option<string>)

  /** Records a fresh, open handle for `name`, replacing any older one. The
      channel is stored as given, nil or not. */
  function Set(r: Reaper, name: string, quit: Option<ChanId>): (res: SetResult)
    ensures res.err == None
    ensures name in res.reaper.workers && res.reaper.workers[name] == Worker(quit, false)
    ensures forall n :: n != name ==> (n in res.reaper.workers <==> n in r.workers)
    ensures forall n :: n != name && n in r.workers ==> res.reaper.workers[n] == r.workers[n]
  {
    SetResult(Reaper(r.workers[name := Worker(quit, false)]), None)
  }

  /** Drops the handle for `name`, if any. */
  function Delete(r: Reaper, name: string): (r': Reaper)
    ensures r'.workers.Keys == r.workers.Keys - {name}
    ensures forall n :: n in r'.workers ==> r'.workers[n] == r.workers[n]
    ensures name !in r.workers ==> r' == r
  {
    Reaper(r.workers - {name})
  }

  /** What `Get` returns: the quit channel and whether the name was found.
      A missing name gives the zero value, a nil channel. */
  datatype Lookup = Lookup(quit: Option<ChanId>, ok: bool)

  /** The quit channel recorded for `name`. */
  function Get(r: Reaper, name: string): (l: Lookup)
    ensures l.ok <==> name in r.workers
    ensures l.ok ==> l.quit == r.workers[name].quit
    ensures !l.ok ==> l.quit == None
  {
    if name in r.workers then Lookup(r.workers[name].quit, true) else Lookup(None, false)
  }

  /** Setting then getting a name gives back its channel; setting then
      deleting forgets it. */
  lemma SetGetDelete(r: Reaper, name: string, quit: Option<ChanId>)
    ensures Get(Set(r, name, quit).reaper, name) == Lookup(quit, true)
    ensures Get(Delete(Set(r, name, quit).reaper, name), name) == Lookup(None, false)
    ensures name !in r.workers ==> Delete(Set(r, name, quit).reaper, name) == r
  {
    var s := Set(r, name, quit).reaper;
    if name !in r.workers {
      assert Delete(s, name).workers == r.workers;
    }
  }

  /** The workers `Close` signals: those not flagged closed. */
  function Pending(r: Reaper): set<string>
  {
    set n | n in r.workers && !r.workers[n].closed
  }

  /** Closing every pending quit channel goes through when each of them is
      non-nil, none was closed before (`already` holds the channels closed
      earlier), and no two pending workers share one. */
  predicate Safe(r: Reaper, already: set<ChanId>)
  {
    && (forall n :: n in Pending(r) ==> r.workers[n].quit.Some? && r.workers[n].quit.value !in already)
    && (forall n, m :: n in Pending(r) && m in Pending(r) && n != m ==> r.workers[n].quit != r.workers[m].quit)
  }

  /** Closes the quit channel of every worker not flagged closed, once each,
      in map order. `already` holds the channels closed before the call.
      `signalled` names the workers in the order closed and `chans` their
      channels. Closing a nil or closed channel panics (`crashed`), which
      ends the loop. The flags are never set, so the reaper comes back
      unchanged. */
  method Close(r: Reaper, already: set<ChanId>) returns (r': Reaper, signalled: seq<string>, chans: seq<ChanId>, crashed: bool)
    ensures r' == r
    ensures crashed <==> !Safe(r, already)
    ensures !crashed ==> Distinct(signalled) && forall n :: n in signalled <==> n in Pending(r)
    ensures !crashed ==> |signalled| == |Pending(r)|
    ensures |chans| == |signalled|
    ensures forall i :: 0 <= i < |chans| ==> signalled[i] in r.workers && r.workers[signalled[i]].quit == Some(chans[i])
    ensures Distinct(chans) && forall i :: 0 <= i < |chans| ==> chans[i] !in already
  {
    r' := r;
    signalled := [];
    chans := [];
    crashed := false;
    var rest := r.workers.Keys;
    while rest != {} && !crashed
      invariant rest <= r.workers.Keys
      invariant Distinct(signalled)
      invariant forall n :: n in signalled <==> n in Pending(r) && n !in rest
      invariant |chans| == |signalled|
      invariant forall i :: 0 <= i < |chans| ==> signalled[i] in r.workers && r.workers[signalled[i]].quit == Some(chans[i])
      invariant Distinct(chans) && forall i :: 0 <= i < |chans| ==> chans[i] !in already
      invariant crashed ==> !Safe(r, already)
      decreases |rest| + (if crashed then 0 else 1)
    {
      var n :| n in rest;
      var w := r.workers[n];
      if !w.closed {
        if w.quit.None? || w.quit.value in already {
          crashed := true;
        } else if w.quit.value in chans {
          var i :| 0 <= i < |chans| && chans[i] == w.quit.value;
          assert signalled[i] in Pending(r) && signalled[i] != n;
          crashed := true;
        } else {
          signalled := signalled + [n];
          chans := chans + [w.quit.value];
          rest := rest - {n};
        }
      } else {
        rest := rest - {n};
      }
    }
    if !crashed {
      SafeWhenAllClosed(r, already, signalled, chans);
      DistinctCard(signalled);
      assert Elems(signalled) == Pending(r);
    }
  }

  /** When every pending worker got its own, fresh, non-nil channel closed,
      the close was safe. */
  lemma SafeWhenAllClosed(r: Reaper, already: set<ChanId>, signalled: seq<string>, chans: seq<ChanId>)
    requires forall n :: n in signalled <==> n in Pending(r)
    requires |chans| == |signalled|
    requires forall i :: 0 <= i < |chans| ==> signalled[i] in r.workers && r.workers[signalled[i]].quit == Some(chans[i])
    requires Distinct(chans) && forall i :: 0 <= i < |chans| ==> chans[i] !in already
    ensures Safe(r, already)
  {
  }

  /** Calling `Close` twice closes every pending quit channel a second
      time: when the first call goes through, the second panics exactly
      when some worker is pending. */
  method CloseTwice(r: Reaper) returns (firstCrashed: bool, secondCrashed: bool)
    ensures firstCrashed <==> !Safe(r, {})
    ensures !firstCrashed ==> (secondCrashed <==> Pending(r) != {})
    ensures firstCrashed ==> !secondCrashed
  {
    var r1, _, chans, c1 := Close(r, {});
    firstCrashed := c1;
    secondCrashed := false;
    if !firstCrashed {
      var _, _, _, c2 := Close(r1, Elems(chans));
      secondCrashed := c2;
      ghost var closedOnce := Elems(chans);
      if Pending(r) != {} {
        var n :| n in Pending(r);
        assert r.workers[n].quit.value in closedOnce;
      }
    }
  }

  /** Every worker flagged closed, channels kept. */
  function MarkAll(r: Reaper): (r': Reaper)
    ensures r'.workers.Keys == r.workers.Keys
    ensures forall n :: n in r'.workers ==> r'.workers[n] == Worker(r.workers[n].quit, true)
    ensures Pending(r') == {}
  {
    Reaper(map n | n in r.workers :: Worker(r.workers[n].quit, true))
  }

  /** The evidently intended close: as `Close`, but each worker is flagged
      closed, so nothing is left pending. */
  method CloseMarked(r: Reaper, already: set<ChanId>) returns (r': Reaper, signalled: seq<string>, chans: seq<ChanId>, crashed: bool)
    ensures crashed <==> !Safe(r, already)
    ensures !crashed ==> Distinct(signalled) && forall n :: n in signalled <==> n in Pending(r)
    ensures !crashed ==> |signalled| == |Pending(r)|
    ensures |chans| == |signalled|
    ensures forall i :: 0 <= i < |chans| ==> signalled[i] in r.workers && r.workers[signalled[i]].quit == Some(chans[i])
    ensures Distinct(chans) && forall i :: 0 <= i < |chans| ==> chans[i] !in already
    ensures !crashed ==> r' == MarkAll(r)
  {
    r', signalled, chans, crashed := Close(r, already);
    if !crashed {
      r' := MarkAll(r);
    }
  }

  /** With the intended close, a second close signals nothing and cannot
      panic. */
  method CloseMarkedTwice(r: Reaper) returns (first: seq<string>, second: seq<string>, crashed: bool)
    ensures crashed <==> !Safe(r, {})
    ensures !crashed ==> forall n :: n in first <==> n in Pending(r)
    ensures second == []
  {
    var r1, s1, chans, c1 := CloseMarked(r, {});
    first := s1;
    crashed := c1;
    second := [];
    if !crashed {
      var _, s2, _, c2 := CloseMarked(r1, Elems(chans));
      assert !c2;
      second := s2;
    }
  }
}
