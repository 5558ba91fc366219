/** Failure-compatible result types shared by every parser of the model.

    `Option` stands for a nom-style parse that either produces a value or
    fails without saying why; `Result` stands for an `anyhow::Result`, whose
    error side is a per-module error datatype naming the `ensure!`/`bail!`
    that fired. */
module Wrappers {

  datatype Option<+T> = None | Some(value: T) {
    predicate IsFailure() { None? }

    function PropagateFailure<U>(): Option<U>
      requires None?
    {
      None
    }

    function Extract(): T
      requires Some?
    {
      value
    }
  }

  datatype Result<+T, +E> = Ok(value: T) | Err(error: E) {
    predicate IsFailure() { Err? }

    function PropagateFailure<U>(): Result<U, E>
      requires Err?
    {
      Err(error)
    }

    function Extract(): T
      requires Ok?
    {
      value
    }
  }

  /** `collect::<Result<Vec<_>, _>>()`: every value in order, or the first
      error. */
  function Collect<T, E(==)>(rs: seq<Result<T, E>>): (r: Result<seq<T>, E>)
    ensures r.Ok? <==> forall i :: 0 <= i < |rs| ==> rs[i].Ok?
    ensures r.Ok? ==> |r.value| == |rs| && forall i :: 0 <= i < |rs| ==> r.value[i] == rs[i].value
    ensures r.Err? ==> exists i :: 0 <= i < |rs| && rs[i].Err? && rs[i].error == r.error && forall j :: 0 <= j < i ==> rs[j].Ok?
  {
    if |rs| == 0 then Ok([])
    else if rs[0].Err? then Err(rs[0].error)
    else
      var more := Collect(rs[1..]);
      if more.Err? then
        var i :| 0 <= i < |rs| - 1 && rs[1..][i].Err? && rs[1..][i].error == more.error && forall j :: 0 <= j < i ==> rs[1..][j].Ok?;
        assert rs[i + 1].Err? && rs[i + 1].error == more.error && forall j :: 0 <= j < i + 1 ==> rs[j].Ok?;
        Err(more.error)
      else
        Ok([rs[0].value] + more.value)
  }
}
