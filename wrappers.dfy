/** Failure-carrying results, standing for the exceptions thrown by the model's
    factories and the `undefined` values returned by its lookups. */
module Wrappers {

  datatype Option<+T> = None | Some(value: T)

  /** The two kinds of JavaScript error the model raises, with their messages. */
  datatype Error =
    | RangeError(message: string)
    | TypeError(message: string)

  datatype Result<+T> = Ok(value: T) | Err(error: Error) {
    predicate IsFailure() {
      Err?
    }

    function PropagateFailure<U>(): Result<U>
      requires Err?
    {
      Err(error)
    }

    function Extract(): T
      requires Ok?
    {
      value
    }
  }

  /** The index of the first failure in `rs`, or -1 when every entry succeeded. */
  function FirstFailure<T>(rs: seq<Result<T>>): (k: int)
    ensures -1 <= k < |rs|
    ensures k >= 0 ==> rs[k].Err?
    ensures forall j :: 0 <= j < |rs| && (k == -1 || j < k) ==> rs[j].Ok?
  {
    if rs == [] then -1
    else if rs[0].Err? then 0
    else if FirstFailure(rs[1..]) == -1 then -1
    else FirstFailure(rs[1..]) + 1
  }

  /** `Array.prototype.map` with a callback that may throw: the mapped values when every
      call succeeded, otherwise the error of the first call that threw. */
  function Collect<T>(rs: seq<Result<T>>): (r: Result<seq<T>>)
    ensures r.Ok? <==> forall i :: 0 <= i < |rs| ==> rs[i].Ok?
    ensures r.Ok? ==> |r.value| == |rs| && forall i :: 0 <= i < |rs| ==> rs[i] == Ok(r.value[i])
    ensures r.Err? ==> FirstFailure(rs) >= 0 && r.error == rs[FirstFailure(rs)].error
  {
    if FirstFailure(rs) >= 0 then Err(rs[FirstFailure(rs)].error)
    else Ok(seq(|rs|, i requires 0 <= i < |rs| => rs[i].value))
  }
}
