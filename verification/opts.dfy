/** Per-appointment configuration and the option setters that fill it in. */
module Opts {
  import opened Common

  /** Durations are nanosecond counts, as Go's `time.Duration`. */
  datatype Options = Options(ttl: int, interval: int, sleep: int, attempts: int, verbose: bool)

  /** Go's zero value for `options`, which every new appointment starts from. */
  const Zero := Options(0, 0, 0, 0, false)

  /** The option constructors; each stands for the closure it returns. */
  datatype Setter =
    | Verbose
    | Regularity(interval: int)
    | TTL(ttl: int)
    | MaxAttempts(attempts: int)
    | Sleep(sleep: int)

  /** The fields of `options`. */
  datatype Field = TtlField | IntervalField | SleepField | AttemptsField | VerboseField

  /** The one field a setter writes. */
  function Target(s: Setter): Field
  {
    match s
    case Verbose => VerboseField
    case Regularity(_) => IntervalField
    case TTL(_) => TtlField
    case MaxAttempts(_) => AttemptsField
    case Sleep(_) => SleepField
  }

  /** `o` and `o'` agree on field `f`. */
  predicate Agree(o: Options, o': Options, f: Field)
  {
    match f
    case TtlField => o.ttl == o'.ttl
    case IntervalField => o.interval == o'.interval
    case SleepField => o.sleep == o'.sleep
    case AttemptsField => o.attempts == o'.attempts
    case VerboseField => o.verbose == o'.verbose
  }

  /** The field `s` targets holds the value `s` carries. */
  predicate Holds(o: Options, s: Setter)
  {
    match s
    case Verbose => o.verbose
    case Regularity(d) => o.interval == d
    case TTL(d) => o.ttl == d
    case MaxAttempts(n) => o.attempts == n
    case Sleep(d) => o.sleep == d
  }

  /** What calling an option closure leaves behind: the options and the
      error it returns (`None` is nil). */
  datatype Applied = Applied(opts: Options, err: Option<string>)

  /** Calls the option closure `s` on `o`. */
  function Apply(s: Setter, o: Options): (r: Applied)
    ensures r.err == None
    ensures Holds(r.opts, s)
    ensures forall f :: f != Target(s) ==> Agree(o, r.opts, f)
  {
    match s
    case Verbose => Applied(o.(verbose := true), None)
    case Regularity(d) => Applied(o.(interval := d), None)
    case TTL(d) => Applied(o.(ttl := d), None)
    case MaxAttempts(n) => Applied(o.(attempts := n), None)
    case Sleep(d) => Applied(o.(sleep := d), None)
  }

  /** Applies the setters in argument order, ignoring their errors. */
  function ApplyAll(ss: seq<Setter>, o: Options): (r: Options)
    ensures ss == [] ==> r == o
    ensures ss != [] ==> Holds(r, ss[|ss| - 1])
    decreases |ss|
  {
    if ss == [] then o else ApplyAll(ss[1..], Apply(ss[0], o).opts)
  }

  /** A field no setter targets keeps its value. */
  lemma {:induction false} UntouchedFieldKept(ss: seq<Setter>, o: Options, f: Field)
    requires forall j :: 0 <= j < |ss| ==> Target(ss[j]) != f
    ensures Agree(o, ApplyAll(ss, o), f)
    decreases |ss|
  {
    if ss != [] {
      var o1 := Apply(ss[0], o).opts;
      assert Agree(o, o1, f);
      assert forall j :: 0 <= j < |ss[1..]| ==> Target(ss[1..][j]) != f by {
        forall j | 0 <= j < |ss[1..]| ensures Target(ss[1..][j]) != f {
          assert ss[1..][j] == ss[j + 1];
        }
      }
      UntouchedFieldKept(ss[1..], o1, f);
    }
  }

  /** The last setter of a field wins: its value is the one left. */
  lemma {:induction false} LastSetterWins(ss: seq<Setter>, o: Options, i: nat)
    requires i < |ss|
    requires forall j :: i < j < |ss| ==> Target(ss[j]) != Target(ss[i])
    ensures Holds(ApplyAll(ss, o), ss[i])
    decreases |ss|
  {
    var o1 := Apply(ss[0], o).opts;
    if i == 0 {
      assert forall j :: 0 <= j < |ss[1..]| ==> Target(ss[1..][j]) != Target(ss[0]) by {
        forall j | 0 <= j < |ss[1..]| ensures Target(ss[1..][j]) != Target(ss[0]) {
          assert ss[1..][j] == ss[j + 1];
        }
      }
      UntouchedFieldKept(ss[1..], o1, Target(ss[0]));
      HoldsTransfers(o1, ApplyAll(ss[1..], o1), ss[0]);
    } else {
      assert ss[1..][i - 1] == ss[i];
      assert forall j :: i - 1 < j < |ss[1..]| ==> Target(ss[1..][j]) != Target(ss[1..][i - 1]) by {
        forall j | i - 1 < j < |ss[1..]| ensures Target(ss[1..][j]) != Target(ss[1..][i - 1]) {
          assert ss[1..][j] == ss[j + 1];
        }
      }
      LastSetterWins(ss[1..], o1, i - 1);
    }
  }

  /** Agreement on a setter's field carries whether it holds. */
  lemma HoldsTransfers(o: Options, o': Options, s: Setter)
    requires Agree(o, o', Target(s))
    ensures Holds(o, s) == Holds(o', s)
  {
  }

  /** True when no option in a `Schedule` argument list is nil (`None`). */
  predicate NoNil(opts: seq<Option<Setter>>)
  {
    forall i :: 0 <= i < |opts| ==> opts[i].Some?
  }

  /** The setters of an option list with no nil in it, in order. */
  function Setters(opts: seq<Option<Setter>>): (ss: seq<Setter>)
    requires NoNil(opts)
    ensures |ss| == |opts|
    ensures forall i :: 0 <= i < |opts| ==> opts[i] == Some(ss[i])
  {
    seq(|opts|, i requires 0 <= i < |opts| => opts[i].value)
  }

  /** The option list that passes the setters `ss` in order, none of them nil. */
  function Given(ss: seq<Setter>): (opts: seq<Option<Setter>>)
    ensures NoNil(opts)
    ensures Setters(opts) == ss
  {
    seq(|ss|, i requires 0 <= i < |ss| => Some(ss[i]))
  }
}
