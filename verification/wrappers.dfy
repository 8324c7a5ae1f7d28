/** Failure-compatible result type standing for the Python exceptions the
    modelled code raises. */
module Wrappers {

  /** The exception kinds the modelled code can raise. */
  datatype Error =
    | AssertionError     // a failed `assert`
    | IndexError         // subscript past the end of a list or array
    | KeyError           // unknown dictionary key
    | ValueError         // empty `randrange`, oversized `sample`, `max` of an empty list, numpy shape mismatch
    | TypeError          // subscripting a bound method
    | AttributeError     // `.shape` of a plain list
    | UnboundLocalError  // a `for` variable read after a loop that never ran

  /** Either a value or the exception that aborted the computation. */
  datatype Result<+T> = Ok(value: T) | Err(error: Error) {

    predicate IsFailure() {
      Err?
    }

    function PropagateFailure<U>(): Result<U>
      requires Err?
    {
      Err(error)
    }

    function Extract(): T
      requires Ok?
    {
      value
    }
  }

  datatype Option<+T> = None | Some(value: T)

  /** `[f(x, y) for x, y in zip(xs, ys)]` where each call may raise: the
      calls run in order and the first exception aborts the list. */
  function MapPairs<X, Y, Z>(f: (X, Y) --> Result<Z>, xs: seq<X>, ys: seq<Y>): (r: Result<seq<Z>>)
    requires |ys| >= |xs| && forall k :: 0 <= k < |xs| ==> f.requires(xs[k], ys[k])
    decreases |xs|
    ensures r.Ok? <==> forall k :: 0 <= k < |xs| ==> f(xs[k], ys[k]).Ok?
    ensures r.Ok? ==> |r.value| == |xs|
    ensures r.Ok? ==> forall k :: 0 <= k < |xs| ==> r.value[k] == f(xs[k], ys[k]).value
    ensures r.Err? ==> exists k: nat :: (k < |xs| && f(xs[k], ys[k]) == Err(r.error)
      && forall l :: 0 <= l < k ==> f(xs[l], ys[l]).Ok?)
  {
    if |xs| == 0 then Ok([])
    else
      var head := f(xs[0], ys[0]);
      if head.Err? then Err(head.error)
      else
        var rest := MapPairs(f, xs[1..], ys[1..]);
        assert forall k :: 1 <= k < |xs| ==> xs[1..][k - 1] == xs[k] && ys[1..][k - 1] == ys[k];
        if rest.Err? then
          var k: nat :| k < |xs[1..]| && f(xs[1..][k], ys[1..][k]) == Err(rest.error)
            && forall l :: 0 <= l < k ==> f(xs[1..][l], ys[1..][l]).Ok?;
          assert f(xs[k + 1], ys[k + 1]) == Err(rest.error);
          Err(rest.error)
        else
          Ok([head.value] + rest.value)
  }

  /** `[f(x) for x in xs]` where each call may raise: the calls run in
      order and the first exception aborts the list. */
  function MapAll<X, Z>(f: X --> Result<Z>, xs: seq<X>): (r: Result<seq<Z>>)
    requires forall k :: 0 <= k < |xs| ==> f.requires(xs[k])
    decreases |xs|
    ensures r.Ok? <==> forall k :: 0 <= k < |xs| ==> f(xs[k]).Ok?
    ensures r.Ok? ==> |r.value| == |xs|
    ensures r.Ok? ==> forall k :: 0 <= k < |xs| ==> r.value[k] == f(xs[k]).value
    ensures r.Err? ==> exists k: nat :: (k < |xs| && f(xs[k]) == Err(r.error)
      && forall l :: 0 <= l < k ==> f(xs[l]).Ok?)
  {
    if |xs| == 0 then Ok([])
    else
      var head := f(xs[0]);
      if head.Err? then Err(head.error)
      else
        var rest := MapAll(f, xs[1..]);
        assert forall k :: 1 <= k < |xs| ==> xs[1..][k - 1] == xs[k];
        if rest.Err? then
          var k: nat :| k < |xs[1..]| && f(xs[1..][k]) == Err(rest.error)
            && forall l :: 0 <= l < k ==> f(xs[1..][l]).Ok?;
          assert f(xs[k + 1]) == Err(rest.error);
          Err(rest.error)
        else
          Ok([head.value] + rest.value)
  }
}
