/** Option and Result, used for Python's None and for the exceptions the ingestion code raises. */
module Wrappers {

  datatype Option<+T> = None | Some(value: T)

  datatype Result<+T, +E> = Ok(value: T) | Err(error: E)

  /**
    Applying `f` to every element in order, as a list comprehension does: all the values when
    every application succeeds, otherwise the error of the first one that fails.
   */
  function CollectAll<T, U, E>(xs: seq<T>, f: T -> Result<U, E>): (r: Result<seq<U>, E>)
    ensures r.Ok? <==> forall i :: 0 <= i < |xs| ==> f(xs[i]).Ok?
    ensures r.Ok? ==> |r.value| == |xs| && forall i :: 0 <= i < |xs| ==> f(xs[i]) == Ok(r.value[i])
    ensures r.Err? ==> exists i :: 0 <= i < |xs| && f(xs[i]) == Err(r.error) &&
                                   forall j :: 0 <= j < i ==> f(xs[j]).Ok?
  {
    if xs == [] then Ok([])
    else
      match f(xs[0])
      case Err(e) => Err(e)
      case Ok(y) =>
        var rest := CollectAll(xs[1..], f);
        if rest.Err? then
          assert exists i :: 0 <= i < |xs| && f(xs[i]) == Err(rest.error) &&
                             forall j :: 0 <= j < i ==> f(xs[j]).Ok? by {
            var k :| 0 <= k < |xs| - 1 && f(xs[1..][k]) == Err(rest.error) &&
                     forall j :: 0 <= j < k ==> f(xs[1..][j]).Ok?;
            assert forall j :: 1 <= j <= k ==> xs[j] == xs[1..][j - 1];
            assert f(xs[k + 1]) == Err(rest.error);
          }
          Err(rest.error)
        else
          var r := [y] + rest.value;
          assert forall i :: 1 <= i < |xs| ==> xs[i] == xs[1..][i - 1] && r[i] == rest.value[i - 1];
          Ok(r)
  }
}
