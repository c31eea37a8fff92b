/** Types shared by every part of the health-check scheduler model. */
module Common {

  /** A byte of a report body. */
  newtype byte = x: int | 0 <= x < 256

  /** The identity of a channel made with `make(chan struct{})`. Closing a
      channel is modelled by recording its identity in a signal log; a
      channel variable that may be nil is an `Option<ChanId>`. */
  type ChanId = nat

  /** An abstract clock reading; 0 stands for Go's zero `time.Time`. */
  type Time = int

  /** An optional value: a Go `(value, ok)` pair or a nil-able reference. */
  datatype Option<T> = None | Some(value: T)

  /** How a step ends: normally with a new state, or in a Go panic (closing
      a nil or already closed channel), after which the program is gone. */
  datatype Result<T> = Ok(value: T) | Panic

  /** True when every element of `s` occurs once. */
  predicate Distinct<T(==)>(s: seq<T>)
  {
    forall i, j :: 0 <= i < j < |s| ==> s[i] != s[j]
  }

  /** The bytes of a string literal made of 8-bit characters, as Go's
      `[]byte("...")` conversion gives for ASCII text. */
  function Bytes(s: string): (r: seq<byte>)
    requires forall i :: 0 <= i < |s| ==> s[i] as int < 256
    ensures |r| == |s|
    ensures forall i :: 0 <= i < |s| ==> r[i] as int == s[i] as int
  {
    if s == [] then [] else [s[0] as int as byte] + Bytes(s[1..])
  }

  /** The elements of a sequence, as a set. */
  function Elems<T>(s: seq<T>): set<T>
  {
    set x | x in s
  }

  /** A sequence without repeats has as many elements as its set. */
  lemma {:induction false} DistinctCard<T>(s: seq<T>)
    requires Distinct(s)
    ensures |Elems(s)| == |s|
  {
    if s != [] {
      var tail := s[1..];
      assert Distinct(tail) by {
        forall i, j | 0 <= i < j < |tail| ensures tail[i] != tail[j] {
          assert tail[i] == s[i + 1] && tail[j] == s[j + 1];
        }
      }
      DistinctCard(tail);
      assert Elems(s) == {s[0]} + Elems(tail) by {
        assert s == [s[0]] + tail;
      }
      assert s[0] !in Elems(tail) by {
        forall k | 0 <= k < |tail| ensures tail[k] != s[0] {
          assert tail[k] == s[k + 1];
        }
      }
    }
  }
}
