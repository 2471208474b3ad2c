/** Failure-compatible result types used for the library's thrown errors. */
module Wrappers {

  /** A value that may be absent; `None` stands for JavaScript's NaN or undefined. */
  datatype Option<+T> = None | Some(value: T) {

    /** `x ?? fallback`. */
    function GetOr(fallback: T): (r: T)
      ensures Some? ==> r == value
      ensures None? ==> r == fallback
    {
      if Some? then value else fallback
    }
  }

  /** The outcome of an operation that can throw: the value, or the error it throws. */
  datatype Result<+T, +E> = Success(value: T) | Failure(error: E) {

    predicate IsFailure() {
      Failure?
    }

    function PropagateFailure<U>(): Result<U, E>
      requires Failure?
    {
      Failure(error)
    }

    function Extract(): T
      requires Success?
    {
      value
    }
  }

  /** The values of all outcomes in order, or the error of the first failure. */
  function Collect<T(==), E(==)>(rs: seq<Result<T, E>>): (r: Result<seq<T>, E>)
    ensures r.Success? <==> forall i :: 0 <= i < |rs| ==> rs[i].Success?
    ensures r.Success? ==> |r.value| == |rs| && forall i :: 0 <= i < |rs| ==> rs[i] == Success(r.value[i])
    ensures r.Failure? ==> exists i :: 0 <= i < |rs| && rs[i] == Failure(r.error) && forall j :: 0 <= j < i ==> rs[j].Success?
  {
    if rs == [] then Success([])
    else
      match rs[0]
      case Failure(e) => Failure(e)
      case Success(x) =>
        match Collect(rs[1..])
        case Failure(e) =>
          var i :| 0 <= i < |rs| - 1 && rs[1..][i] == Failure(e) && forall j :: 0 <= j < i ==> rs[1..][j].Success?;
          assert rs[i + 1] == Failure(e);
          Failure(e)
        case Success(xs) => Success([x] + xs)
  }

  /** Outcomes that all succeed collect to exactly their values. */
  lemma CollectSuccesses<T, E>(rs: seq<Result<T, E>>, vs: seq<T>)
    requires |rs| == |vs| && forall i :: 0 <= i < |rs| ==> rs[i] == Success(vs[i])
    ensures Collect(rs) == Success(vs)
  {
    var r := Collect(rs);
    assert r.Success?;
    assert r.value == vs;
  }
}
