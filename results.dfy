/** Failure-compatible wrappers: an optional value, and a value or an error (the
    exceptions thrown by the modelled C++ code become `Err`). */
module Results {

  datatype Option<+T> = None | Some(value: T)

  datatype Result<+T, +E> = Ok(value: T) | Err(error: E) {

    predicate IsFailure() {
      Err?
    }

    function PropagateFailure<U>(): Result<U, E>
      requires Err?
    {
      Err(error)
    }

    function Extract(): T
      requires Ok?
    {
      value
    }
  }

  /** Applies `f` to each element in order: every result, or the first error. */
  function MapAll<A, B, E>(f: A -> Result<B, E>, xs: seq<A>): (r: Result<seq<B>, E>)
    ensures r.Ok? ==> |r.value| == |xs|
  {
    if |xs| == 0 then Ok([])
    else
      match f(xs[0])
      case Err(e) => Err(e)
      case Ok(y) =>
        match MapAll(f, xs[1..])
        case Err(e) => Err(e)
        case Ok(ys) => Ok([y] + ys)
  }

  /** `MapAll` succeeds exactly when `f` succeeds on every element; it then yields
      `f`'s value for each element in order, and otherwise the error of the first
      element on which `f` fails. */
  lemma {:induction false} MapAllEach<A, B, E>(f: A -> Result<B, E>, xs: seq<A>)
    ensures MapAll(f, xs).Ok? <==> forall i :: 0 <= i < |xs| ==> f(xs[i]).Ok?
    ensures MapAll(f, xs).Ok? ==>
              forall i :: 0 <= i < |xs| ==> MapAll(f, xs).value[i] == f(xs[i]).value
    ensures MapAll(f, xs).Err? ==>
              exists i ::
                && 0 <= i < |xs|
                && f(xs[i]) == Err(MapAll(f, xs).error)
                && forall j :: 0 <= j < i ==> f(xs[j]).Ok?
  {
    if |xs| > 0 {
      var tail := xs[1..];
      MapAllEach(f, tail);
      assert forall i :: 1 <= i < |xs| ==> xs[i] == tail[i - 1];
      if f(xs[0]).Ok? && MapAll(f, tail).Err? {
        var i :| && 0 <= i < |tail|
                 && f(tail[i]) == Err(MapAll(f, tail).error)
                 && forall j :: 0 <= j < i ==> f(tail[j]).Ok?;
        assert f(xs[i + 1]) == Err(MapAll(f, xs).error);
      }
    }
  }
}
