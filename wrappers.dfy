/** Failure-compatible wrappers shared by every module: Python's `None`-or-value
    results and raised-or-returned outcomes. */
module Wrappers {

  /** A value that may be absent (Python `None`). */
  datatype Option<+T> = None | Some(value: T) {

    /** The wrapped value, or `default` when absent (`d.get(k, default)`). */
    function GetOr(default: T): T
    {
      match this
      case Some(v) => v
      case None => default
    }
  }

  /** Either a returned value or a raised error. */
  datatype Result<+R, +E> = Success(value: R) | Failure(error: E) {

    predicate IsFailure()
    {
      Failure?
    }

    function PropagateFailure<U>(): Result<U, E>
      requires Failure?
    {
      Failure(error)
    }

    function Extract(): R
      requires Success?
    {
      value
    }
  }

  /** The index of the first present element of `xs` at or after `from`, or `|xs|`
      when there is none: a `for` loop that returns on its first hit. */
  function FirstSomeFrom<T>(xs: seq<Option<T>>, from: nat): (i: nat)
    requires from <= |xs|
    ensures from <= i <= |xs|
    ensures forall j | from <= j < i :: xs[j].None?
    ensures i < |xs| ==> xs[i].Some?
    decreases |xs| - from
  {
    if from == |xs| || xs[from].Some? then from else FirstSomeFrom(xs, from + 1)
  }

  /** The scan stops at the first `Some`, wherever that is. */
  lemma {:induction false} FirstSomeAt<T>(xs: seq<Option<T>>, from: nat, i: nat)
    requires from <= i < |xs| && xs[i].Some?
    requires forall j | from <= j < i :: xs[j].None?
    ensures FirstSomeFrom(xs, from) == i
    decreases i - from
  {
    if from < i {
      FirstSomeAt(xs, from + 1, i);
    }
  }
}
