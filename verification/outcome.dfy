/**
 * Python's `None` and raised exceptions, as values: a parser either returns a
 * value or the error it would have raised.
 */
module Outcome {

  /** A value that may be missing (`None` in the source). */
  datatype Option<+T> = None | Some(value: T)

  /** A successful value, or the error the source raises instead of returning. */
  datatype Result<+T, +E> = Ok(value: T) | Err(error: E)

  /**
   * `[f(x) for x in xs]` where `f` may raise: every result in order, or the
   * error of the first element that fails (the later ones are never tried).
   */
  function MapAll<T, U, E>(f: T -> Result<U, E>, xs: seq<T>): (r: Result<seq<U>, E>)
    ensures r.Ok? ==> |r.value| == |xs| && forall i :: 0 <= i < |xs| ==> f(xs[i]) == Ok(r.value[i])
    ensures r.Err? ==> exists k :: && 0 <= k < |xs| && f(xs[k]) == Err(r.error)
                                   && forall i :: 0 <= i < k ==> f(xs[i]).Ok?
    decreases |xs|
  {
    if |xs| == 0 then Ok([])
    else
      match f(xs[0])
      case Err(e) => Err(e)
      case Ok(y) =>
        match MapAll(f, xs[1..])
        case Err(e) =>
          assert forall i :: 1 <= i < |xs| ==> xs[i] == xs[1..][i - 1];
          Err(e)
        case Ok(ys) =>
          assert forall i :: 1 <= i < |xs| ==> xs[i] == xs[1..][i - 1];
          Ok([y] + ys)
  }

  /** The list comprehension succeeds exactly when every element succeeds. */
  lemma MapAllOk<T, U, E>(f: T -> Result<U, E>, xs: seq<T>)
    ensures MapAll(f, xs).Ok? <==> forall i :: 0 <= i < |xs| ==> f(xs[i]).Ok?
  {
    var r := MapAll(f, xs);
    if r.Err? {
      var k :| 0 <= k < |xs| && f(xs[k]) == Err(r.error);
    }
  }

  /**
   * `for x in xs[from:]: if P(x): ...; break`: the index of the first element
   * at or after `from` that satisfies `P`, if any.
   */
  function FirstWhere<T>(P: T -> bool, xs: seq<T>, from: nat): (r: Option<nat>)
    requires from <= |xs|
    ensures r.Some? ==> from <= r.value < |xs| && P(xs[r.value])
    ensures r.Some? ==> forall j :: from <= j < r.value ==> !P(xs[j])
    ensures r.None? ==> forall j :: from <= j < |xs| ==> !P(xs[j])
    decreases |xs| - from
  {
    if from == |xs| then None
    else if P(xs[from]) then Some(from)
    else FirstWhere(P, xs, from + 1)
  }
}
