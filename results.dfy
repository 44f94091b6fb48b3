/** Failure-carrying values. The C++ program reports every error by throwing an
    exception; the model returns one of these instead. */
module Results {

  datatype Option<+T> = None | Some(value: T)

  datatype Result<+T, +E> = Success(value: T) | Failure(error: E) {
    predicate IsFailure() { Failure? }

    function PropagateFailure<U>(): Result<U, E>
      requires Failure?
    {
      Failure(error)
    }

    function Extract(): T
      requires Success?
    {
      value
    }
  }

  /** Applies `f` to every element in order and stops at the first failure,
      the shape of every "convert each line" loop of the program. */
  function MapAll<A, B, E>(f: A -> Result<B, E>, xs: seq<A>): (r: Result<seq<B>, E>)
    ensures r.Success? <==> forall i :: 0 <= i < |xs| ==> f(xs[i]).Success?
    ensures r.Success? ==> |r.value| == |xs|
    ensures r.Success? ==> forall i :: 0 <= i < |xs| ==> f(xs[i]) == Success(r.value[i])
    ensures r.Failure? ==>
      exists i :: 0 <= i < |xs| && f(xs[i]) == Failure(r.error)
                  && forall j :: 0 <= j < i ==> f(xs[j]).Success?
    decreases |xs|
  {
    if xs == [] then Success([])
    else
      match f(xs[0])
      case Failure(e) => Failure(e)
      case Success(y) =>
        match MapAll(f, xs[1..])
        case Failure(e) =>
          ghost var i :| 0 <= i < |xs[1..]| && f(xs[1..][i]) == Failure(e)
                         && forall j :: 0 <= j < i ==> f(xs[1..][j]).Success?;
          assert f(xs[i + 1]) == Failure(e);
          Failure(e)
        case Success(ys) =>
          assert forall i :: 1 <= i < |xs| ==> f(xs[i]) == f(xs[1..][i - 1]);
          Success([y] + ys)
  }

  /** Mapping one more element: a failure so far stays the failure; otherwise
      the new element's failure, or its value appended. */
  lemma MapAllSnoc<A, B, E>(f: A -> Result<B, E>, xs: seq<A>, x: A)
    ensures MapAll(f, xs + [x]) ==
      match MapAll(f, xs)
      case Failure(e) => Failure(e)
      case Success(ys) =>
        match f(x)
        case Failure(e) => Failure(e)
        case Success(y) => Success(ys + [y])
  {
    var zs := xs + [x];
    assert forall k :: 0 <= k < |xs| ==> zs[k] == xs[k];
    assert zs[|xs|] == x;
    var r := MapAll(f, zs);
    match MapAll(f, xs)
    case Failure(e) =>
      var i :| 0 <= i < |xs| && f(xs[i]) == Failure(e) && forall j :: 0 <= j < i ==> f(xs[j]).Success?;
      assert f(zs[i]).Failure?;
      var i' :| 0 <= i' < |zs| && f(zs[i']) == Failure(r.error) && forall j :: 0 <= j < i' ==> f(zs[j]).Success?;
      assert i' == i;
    case Success(ys) =>
      match f(x)
      case Failure(e) =>
        assert f(zs[|xs|]).Failure?;
        var i' :| 0 <= i' < |zs| && f(zs[i']) == Failure(r.error) && forall j :: 0 <= j < i' ==> f(zs[j]).Success?;
        assert i' == |xs|;
      case Success(y) =>
        assert forall k :: 0 <= k < |zs| ==> f(zs[k]).Success?;
        assert r.value == ys + [y] by {
          assert forall k :: 0 <= k < |xs| ==> f(xs[k]) == Success(ys[k]);
          assert forall k :: 0 <= k < |zs| ==> r.value[k] == (ys + [y])[k];
        }
  }
}
