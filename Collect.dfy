/**
  The loop shape `map_platforms` and `generate_manifest_file` share: walk a
  dictionary in insertion order, turn each value into a result, return the
  first failure, and otherwise insert each success into a new dictionary under
  the same key.
 */
module Collect {
  import opened Wrappers
  import opened Dicts

  /** The outcome for the pairs of `xs`, in order. */
  function CollectAll<K(==), A, B, E>(f: A -> Result<B, E>, xs: seq<(K, A)>): Result<Dict<K, B>, E>
    decreases |xs|
  {
    if xs == [] then Success([])
    else
      match CollectAll(f, xs[..|xs| - 1])
      case Failure(e) => Failure(e)
      case Success(done) =>
        match f(xs[|xs| - 1].1)
        case Failure(e) => Failure(e)
        case Success(b) => Success(Put(done, xs[|xs| - 1].0, b))
  }

  /** One more pair: the outcome for a longer prefix in terms of the shorter one. */
  lemma CollectStep<K, A, B, E>(f: A -> Result<B, E>, xs: seq<(K, A)>, i: nat, acc: Dict<K, B>)
    requires i < |xs| && CollectAll(f, xs[..i]) == Success(acc)
    ensures CollectAll(f, xs[..i + 1]) ==
      match f(xs[i].1)
      case Failure(e) => Failure(e)
      case Success(b) => Success(Put(acc, xs[i].0, b))
  {
    assert xs[..i + 1][..i] == xs[..i];
  }

  /** One more pair, told by the outcome `r` of its value: a failure ends the
      whole walk, a success extends the collected dictionary. */
  lemma CollectNext<K, A, B, E>(f: A -> Result<B, E>, xs: seq<(K, A)>, i: nat, acc: Dict<K, B>, r: Result<B, E>)
    requires i < |xs| && CollectAll(f, xs[..i]) == Success(acc) && r == f(xs[i].1)
    ensures r.Failure? ==> CollectAll(f, xs) == Failure(r.error)
    ensures r.Success? ==> CollectAll(f, xs[..i + 1]) == Success(Put(acc, xs[i].0, r.value))
  {
    CollectStep(f, xs, i, acc);
    if r.Failure? {
      CollectFailureSticks(f, xs, i + 1);
    }
  }

  /** Once a prefix fails, the whole walk fails with the same error. */
  lemma {:induction false} CollectFailureSticks<K, A, B, E>(f: A -> Result<B, E>, xs: seq<(K, A)>, n: nat)
    requires n <= |xs| && CollectAll(f, xs[..n]).Failure?
    ensures CollectAll(f, xs) == CollectAll(f, xs[..n])
    decreases |xs| - n
  {
    if n < |xs| {
      assert xs[..n + 1][..n] == xs[..n];
      CollectFailureSticks(f, xs, n + 1);
    } else {
      assert xs[..n] == xs;
    }
  }

  /** The walk succeeds exactly when every value succeeds. */
  lemma {:induction false} CollectSuccess<K, A, B, E>(f: A -> Result<B, E>, xs: seq<(K, A)>)
    ensures CollectAll(f, xs).Success? <==> forall i :: 0 <= i < |xs| ==> f(xs[i].1).Success?
    decreases |xs|
  {
    if xs != [] {
      var init := xs[..|xs| - 1];
      CollectSuccess(f, init);
      if CollectAll(f, xs).Success? {
        forall i | 0 <= i < |xs| ensures f(xs[i].1).Success? {
          if i < |init| { assert init[i] == xs[i]; }
        }
      } else if CollectAll(f, init).Failure? {
        var i :| 0 <= i < |init| && !f(init[i].1).Success?;
        assert init[i] == xs[i];
      }
    }
  }

  /** A successful walk over a dictionary pairs each key, in order, with the
      result for its own value. */
  lemma {:induction false} CollectValues<K, A, B, E>(f: A -> Result<B, E>, xs: Dict<K, A>)
    requires CollectAll(f, xs).Success?
    ensures |CollectAll(f, xs).value| == |xs|
    ensures forall i :: 0 <= i < |xs| ==>
      f(xs[i].1).Success? && CollectAll(f, xs).value[i] == (xs[i].0, f(xs[i].1).value)
    decreases |xs|
  {
    if xs != [] {
      var last := |xs| - 1;
      DistinctKeysPrefix(xs, last);
      var init: Dict<K, A> := xs[..last];
      CollectValues(f, init);
      var done := CollectAll(f, init).value;
      PutSpec(done, xs[last].0, f(xs[last].1).value);
      assert xs[last].0 !in KeysOf(done) by {
        LastKeyFresh(xs);
        assert KeysOf(done) == KeysOf(init);
      }
      var r := CollectAll(f, xs).value;
      assert r == done + [(xs[last].0, f(xs[last].1).value)];
      forall i | 0 <= i < |xs|
        ensures f(xs[i].1).Success? && r[i] == (xs[i].0, f(xs[i].1).value)
      {
        if i < last {
          assert init[i] == xs[i];
          assert r[i] == done[i];
        }
      }
    }
  }

  /** A successful walk over a dictionary yields exactly its keys, in order. */
  lemma CollectKeys<K, A, B, E>(f: A -> Result<B, E>, xs: Dict<K, A>)
    requires CollectAll(f, xs).Success?
    ensures KeysOf(CollectAll(f, xs).value) == KeysOf(xs)
  {
    CollectValues(f, xs);
  }

  /** During the walk over a dictionary, the next key is not yet among the
      collected ones. */
  lemma CollectKeyFresh<K, A, B, E>(f: A -> Result<B, E>, xs: Dict<K, A>, i: nat, acc: Dict<K, B>)
    requires i < |xs| && CollectAll(f, xs[..i]) == Success(acc)
    ensures xs[i].0 !in KeysOf(acc)
  {
    DistinctKeysPrefix(xs, i);
    DistinctKeysPrefix(xs, i + 1);
    var init: Dict<K, A> := xs[..i];
    CollectKeys(f, init);
    assert xs[..i + 1][..i] == init;
    LastKeyFresh(xs[..i + 1]);
  }

  /** A failed walk carries the error of the FIRST value that fails; every value
      before it succeeded. */
  lemma {:induction false} CollectFailure<K, A, B, E>(f: A -> Result<B, E>, xs: seq<(K, A)>) returns (i: nat)
    requires CollectAll(f, xs).Failure?
    ensures i < |xs|
    ensures forall k :: 0 <= k < i ==> f(xs[k].1).Success?
    ensures f(xs[i].1) == Failure(CollectAll(f, xs).error)
    decreases |xs|
  {
    var init := xs[..|xs| - 1];
    assert forall k :: 0 <= k < |init| ==> init[k] == xs[k];
    if CollectAll(f, init).Failure? {
      i := CollectFailure(f, init);
    } else {
      CollectSuccess(f, init);
      i := |xs| - 1;
    }
  }
}
