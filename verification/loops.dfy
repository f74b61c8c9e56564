/** The two loop shapes the parsers use, stated once.

    `FoldLast` is `d = {}; for x in xs: k, v = f(x); d[k] = v`: a dictionary
    built by assignment, so a later element with the same key overwrites an
    earlier one, and the first element whose processing raises aborts the
    loop with that exception. `MapAll` is the list built by `append`. */
module Loops {
  import opened Py

  /** `xs[i]`'s key is not assigned again later in the loop. */
  ghost predicate LastWithKey<E, K, V>(xs: seq<E>, f: E -> Result<(K, V)>, i: int)
    requires 0 <= i < |xs|
  {
    f(xs[i]).Ok? &&
    forall j | i < j < |xs| :: f(xs[j]).Ok? ==> f(xs[j]).value.0 != f(xs[i]).value.0
  }

  /** What the dictionary loop over `xs` gives: it completes exactly when
      every element is processed without raising, and then raises the
      first element's exception; otherwise every element's key is in the
      result, every entry comes from some element, and the last element
      with a key decides its value. */
  ghost predicate FoldSpec<E, K, V>(xs: seq<E>, f: E -> Result<(K, V)>, r: Result<map<K, V>>)
  {
    && (r.Ok? <==> forall i | 0 <= i < |xs| :: f(xs[i]).Ok?)
    && (r.Raise? ==>
         exists i | 0 <= i < |xs| ::
           && f(xs[i]).Raise? && r.error == f(xs[i]).error
           && forall j | 0 <= j < i :: f(xs[j]).Ok?)
    && (r.Ok? ==> forall i | 0 <= i < |xs| :: f(xs[i]).value.0 in r.value)
    && (r.Ok? ==> forall k | k in r.value :: exists i | 0 <= i < |xs| :: f(xs[i]).value == (k, r.value[k]))
    && (r.Ok? ==>
         forall i | 0 <= i < |xs| && LastWithKey(xs, f, i) :: r.value[f(xs[i]).value.0] == f(xs[i]).value.1)
  }

  /** One more pass of the loop body: the exception so far, or the
      element's exception, or one more assignment. */
  function Assign<K, V>(m: Result<map<K, V>>, kv: Result<(K, V)>): Result<map<K, V>>
  {
    var d :- m;
    var e :- kv;
    Ok(d[e.0 := e.1])
  }

  function FoldLast<E, K, V>(xs: seq<E>, f: E -> Result<(K, V)>): (r: Result<map<K, V>>)
    ensures FoldSpec(xs, f, r)
    decreases |xs|
  {
    if |xs| == 0 then Ok(map[])
    else
      var below := FoldLast(xs[..|xs| - 1], f);
      FoldStep(xs, f, below);
      Assign(below, f(xs[|xs| - 1]))
  }

  lemma FoldStep<E, K, V>(xs: seq<E>, f: E -> Result<(K, V)>, below: Result<map<K, V>>)
    requires |xs| >= 1 && FoldSpec(xs[..|xs| - 1], f, below)
    ensures FoldSpec(xs, f, Assign(below, f(xs[|xs| - 1])))
  {
    var init := xs[..|xs| - 1];
    var last := f(xs[|xs| - 1]);
    assert forall i | 0 <= i < |init| :: init[i] == xs[i];
    if below.Raise? {
      var i :| 0 <= i < |init| && f(init[i]).Raise? && below.error == f(init[i]).error
               && forall j | 0 <= j < i :: f(init[j]).Ok?;
      assert f(xs[i]).Raise?;
    } else if last.Raise? {
      assert forall j | 0 <= j < |xs| - 1 :: f(xs[j]).Ok?;
    } else {
      assert forall i | 0 <= i < |xs| :: f(xs[i]).Ok?;
      FoldStepKeys(xs, f, below);
    }
  }

  /** The last element's key is assigned last. */
  lemma FoldStepKeys<E, K, V>(xs: seq<E>, f: E -> Result<(K, V)>, below: Result<map<K, V>>)
    requires |xs| >= 1 && FoldSpec(xs[..|xs| - 1], f, below)
    requires Assign(below, f(xs[|xs| - 1])).Ok?
    ensures var r := Assign(below, f(xs[|xs| - 1]));
      && (forall k | k in r.value :: exists i | 0 <= i < |xs| :: f(xs[i]).value == (k, r.value[k]))
      && (forall i | 0 <= i < |xs| && LastWithKey(xs, f, i) :: r.value[f(xs[i]).value.0] == f(xs[i]).value.1)
  {
    var init := xs[..|xs| - 1];
    assert forall i | 0 <= i < |init| :: init[i] == xs[i];
    var m, last := below.value, f(xs[|xs| - 1]).value;
    var r := m[last.0 := last.1];
    forall k | k in r ensures exists i | 0 <= i < |xs| :: f(xs[i]).value == (k, r[k]) {
      if k == last.0 {
        assert f(xs[|xs| - 1]).value == (k, r[k]);
      } else {
        var i :| 0 <= i < |init| && f(init[i]).value == (k, m[k]);
        assert f(xs[i]).value == (k, r[k]);
      }
    }
    forall i | 0 <= i < |xs| && LastWithKey(xs, f, i) ensures r[f(xs[i]).value.0] == f(xs[i]).value.1 {
      if i < |init| {
        assert LastWithKey(init, f, i);
      }
    }
  }

  function MapAll<E, V>(xs: seq<E>, f: E -> Result<V>): (r: Result<seq<V>>)
    ensures r.Ok? <==> forall i | 0 <= i < |xs| :: f(xs[i]).Ok?
    ensures r.Raise? ==>
      exists i | 0 <= i < |xs| ::
        && f(xs[i]).Raise? && r.error == f(xs[i]).error
        && forall j | 0 <= j < i :: f(xs[j]).Ok?
    ensures r.Ok? ==> |r.value| == |xs| && forall i | 0 <= i < |xs| :: r.value[i] == f(xs[i]).value
    decreases |xs|
  {
    if |xs| == 0 then Ok([])
    else
      var init := xs[..|xs| - 1];
      assert forall i | 0 <= i < |init| :: init[i] == xs[i];
      var vs :- MapAll(init, f);
      var v :- f(xs[|xs| - 1]);
      Ok(vs + [v])
  }

  /** The first index whose element satisfies `p`, as a `for ... break`
      loop finds it. */
  function FirstIndex<T>(xs: seq<T>, p: T -> bool): (r: Option<nat>)
    ensures r.None? <==> forall i | 0 <= i < |xs| :: !p(xs[i])
    ensures r.Some? ==> r.value < |xs| && p(xs[r.value]) && forall j | 0 <= j < r.value :: !p(xs[j])
    decreases |xs|
  {
    if |xs| == 0 then None
    else if p(xs[0]) then Some(0)
    else
      var r := FirstIndex(xs[1..], p);
      assert forall i | 1 <= i < |xs| :: xs[i] == xs[1..][i - 1];
      if r.Some? then Some(r.value + 1) else None
  }
}
