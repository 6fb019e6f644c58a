/** Applying a fallible step to every element of a list, in order, with
    all-or-nothing failure: the shape of a Python `for` loop that appends to
    a result list and lets the first exception escape. */
module Traversal {
  import opened Wrappers

  /** Element `k` is the first element of `xs` on which `f` fails. */
  predicate FirstFailureAt<T, R, E>(f: T -> Result<R, E>, xs: seq<T>, k: int) {
    && 0 <= k < |xs|
    && f(xs[k]).Failure?
    && forall j :: 0 <= j < k ==> f(xs[j]).Success?
  }

  /** The results of `f` on every element, or the error of the first element
      on which it fails; nothing is produced for the elements before it. */
  function MapResult<T, R, E>(f: T -> Result<R, E>, xs: seq<T>): (r: Result<seq<R>, E>)
    ensures r.Success? <==> forall i :: 0 <= i < |xs| ==> f(xs[i]).Success?
    ensures r.Success? ==> |r.value| == |xs|
    ensures r.Success? ==> forall i :: 0 <= i < |xs| ==> r.value[i] == f(xs[i]).value
    ensures r.Failure? ==> exists k :: FirstFailureAt(f, xs, k) && r.error == f(xs[k]).error
  {
    if |xs| == 0 then
      Success([])
    else
      var y :- f(xs[0]);
      var ys :- MapResult(f, xs[1..]);
      assert forall i :: 1 <= i < |xs| ==> xs[i] == xs[1..][i - 1];
      Success([y] + ys)
  }

  /** The traversal is determined element by element: if every element
      yields its entry of `ys`, the traversal yields exactly `ys`. */
  lemma MapResultFromElements<T, R, E>(f: T -> Result<R, E>, xs: seq<T>, ys: seq<R>)
    requires |ys| == |xs|
    requires forall i :: 0 <= i < |xs| ==> f(xs[i]) == Success(ys[i])
    ensures MapResult(f, xs) == Success(ys)
  {
    var r := MapResult(f, xs);
    assert r.Success?;
    assert forall i :: 0 <= i < |xs| ==> r.value[i] == ys[i];
    assert r.value == ys;
  }

  /** A failure in the first part of a concatenation is reported before the
      second part is looked at. */
  lemma {:induction false} AppendFailsInPrefix<T, R, E>(f: T -> Result<R, E>, a: seq<T>, b: seq<T>)
    requires MapResult(f, a).Failure?
    ensures MapResult(f, a + b) == MapResult(f, a)
  {
    assert (a + b)[0] == a[0];
    assert (a + b)[1..] == a[1..] + b;
    if f(a[0]).Success? {
      AppendFailsInPrefix(f, a[1..], b);
    }
  }

  /** When the first part of a concatenation succeeds, a failure in the
      second part is the error of the whole. */
  lemma {:induction false} AppendFailsInSuffix<T, R, E>(f: T -> Result<R, E>, a: seq<T>, b: seq<T>)
    requires MapResult(f, a).Success? && MapResult(f, b).Failure?
    ensures MapResult(f, a + b) == MapResult(f, b)
  {
    if |a| == 0 {
      assert a + b == b;
    } else {
      assert (a + b)[0] == a[0];
      assert (a + b)[1..] == a[1..] + b;
      AppendFailsInSuffix(f, a[1..], b);
    }
  }

  /** When both parts succeed, the results of a concatenation are the
      results of the first part followed by those of the second. */
  lemma AppendSucceeds<T, R, E>(f: T -> Result<R, E>, a: seq<T>, b: seq<T>)
    requires MapResult(f, a).Success? && MapResult(f, b).Success?
    ensures MapResult(f, a + b) == Success(MapResult(f, a).value + MapResult(f, b).value)
  {
    var ab := a + b;
    var ra := MapResult(f, a).value;
    var rb := MapResult(f, b).value;
    var ys := ra + rb;
    forall i | 0 <= i < |ab| ensures f(ab[i]) == Success(ys[i]) {
      if i < |a| {
        assert ab[i] == a[i] && ys[i] == ra[i];
      } else {
        assert ab[i] == b[i - |a|] && ys[i] == rb[i - |a|];
      }
    }
    MapResultFromElements(f, ab, ys);
  }
}
