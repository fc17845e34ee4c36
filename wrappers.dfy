/** Optional values, results that may carry an error, and the in-order traversal that
    JavaScript's `Array.prototype.map` performs when its callback may throw. */
module Wrappers {

  /** A value that may be absent (JavaScript `undefined`). */
  datatype Option<+T> = None | Some(value: T)

  /** The outcome of a computation that may throw. */
  datatype Result<+T, +E> = Success(value: T) | Failure(error: E)

  /** Applies `f` to every element of `xs` from left to right and collects the results;
      the first failure stops the traversal and becomes the result, as an exception
      thrown by a `map` callback does. */
  function Traverse<A, B, E>(xs: seq<A>, f: A -> Result<B, E>): (r: Result<seq<B>, E>)
    ensures r.Success? <==> forall i :: 0 <= i < |xs| ==> f(xs[i]).Success?
    ensures r.Success? ==> |r.value| == |xs|
    ensures r.Success? ==> forall i :: 0 <= i < |xs| ==> r.value[i] == f(xs[i]).value
    ensures r.Failure? ==>
      exists i :: 0 <= i < |xs| && f(xs[i]) == Failure(r.error)
                  && forall j :: 0 <= j < i ==> f(xs[j]).Success?
    decreases |xs|
  {
    if |xs| == 0 then Success([])
    else
      match f(xs[0])
      case Failure(e) => Failure(e)
      case Success(y) =>
        match Traverse(xs[1..], f)
        case Failure(e) =>
          assert forall j :: 1 <= j <= |xs[1..]| ==> xs[1..][j - 1] == xs[j];
          Failure(e)
        case Success(ys) => Success([y] + ys)
  }

  /** Once the first failing element is known, the traversal fails with its error. */
  lemma TraverseFailsAtFirst<A, B, E>(xs: seq<A>, f: A -> Result<B, E>, i: nat)
    requires i < |xs| && f(xs[i]).Failure?
    requires forall j :: 0 <= j < i ==> f(xs[j]).Success?
    ensures Traverse(xs, f) == Failure(f(xs[i]).error)
  {
    var r := Traverse(xs, f);
    assert r.Failure?;
    var k :| 0 <= k < |xs| && f(xs[k]) == Failure(r.error)
             && forall j :: 0 <= j < k ==> f(xs[j]).Success?;
    assert k == i;
  }

  /** When every element is known to succeed with a given result, the traversal succeeds
      with exactly those results. */
  lemma TraverseAllSucceed<A, B, E>(xs: seq<A>, f: A -> Result<B, E>, ys: seq<B>)
    requires |ys| == |xs|
    requires forall k :: 0 <= k < |xs| ==> f(xs[k]) == Success(ys[k])
    ensures Traverse(xs, f) == Success(ys)
  {
    assert forall k :: 0 <= k < |xs| ==> f(xs[k]).Success?;
    assert Traverse(xs, f).value == ys;
  }

  /** Traversing two elements that both succeed gives their two results. */
  lemma TraverseTwo<A, B, E>(x: A, y: A, f: A -> Result<B, E>)
    requires f(x).Success? && f(y).Success?
    ensures Traverse([x, y], f) == Success([f(x).value, f(y).value])
  {
    TraverseAllSucceed([x, y], f, [f(x).value, f(y).value]);
  }

  /** Traversing a concatenation that succeeds on both halves gives the concatenated
      results. */
  lemma TraverseAppend<A, B, E>(xs: seq<A>, ys: seq<A>, f: A -> Result<B, E>)
    requires Traverse(xs, f).Success? && Traverse(ys, f).Success?
    ensures Traverse(xs + ys, f) == Success(Traverse(xs, f).value + Traverse(ys, f).value)
  {
    var zs := xs + ys;
    var expected := Traverse(xs, f).value + Traverse(ys, f).value;
    forall i | 0 <= i < |zs|
      ensures f(zs[i]).Success? && f(zs[i]).value == expected[i]
    {
      if i < |xs| {
        assert zs[i] == xs[i];
      } else {
        assert zs[i] == ys[i - |xs|];
      }
    }
    var t := Traverse(zs, f);
    assert t.Success?;
    assert t.value == expected;
  }
}
