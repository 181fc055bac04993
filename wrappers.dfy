/** The optional value used for the error paths of the Go helpers. */
module Wrappers {

  datatype Option<+T> = None | Some(value: T) {

    /** The wrapped value, or `default` when there is none. */
    function GetOr(default: T): T {
      match this
      case Some(v) => v
      case None => default
    }
  }

  /** The first value present in `xs` at or after position `from`. */
  function FirstSome<T>(xs: seq<Option<T>>, from: nat): (r: Option<T>)
    ensures r.Some? ==> exists i :: from <= i < |xs| && xs[i] == r
    decreases |xs| - from
  {
    if from >= |xs| then None
    else if xs[from].Some? then xs[from]
    else FirstSome(xs, from + 1)
  }

  /** The first present value wins over every later one. */
  lemma {:induction false} FirstSomeWins<T>(xs: seq<Option<T>>, from: nat, k: nat)
    requires from <= k < |xs| && xs[k].Some?
    requires forall i :: from <= i < k ==> xs[i].None?
    ensures FirstSome(xs, from) == xs[k]
    decreases k - from
  {
    if from < k {
      FirstSomeWins(xs, from + 1, k);
    }
  }

  /** With no value present there is no first one. */
  lemma {:induction false} FirstSomeNone<T>(xs: seq<Option<T>>, from: nat)
    requires forall i :: from <= i < |xs| ==> xs[i].None?
    ensures FirstSome(xs, from) == None
    decreases |xs| - from
  {
    if from < |xs| {
      FirstSomeNone(xs, from + 1);
    }
  }

  /** One step of the search: the value at `from` if present, else the rest. */
  lemma FirstSomeStep<T>(xs: seq<Option<T>>, from: nat)
    requires from < |xs|
    ensures FirstSome(xs, from) == if xs[from].Some? then xs[from] else FirstSome(xs, from + 1)
  {
  }

  /** The results of `f` on each element of `xs`, concatenated in order. */
  function ConcatMap<T, U>(f: T -> seq<U>, xs: seq<T>): seq<U>
    decreases |xs|
  {
    if xs == [] then [] else ConcatMap(f, xs[..|xs| - 1]) + f(xs[|xs| - 1])
  }

  /** ConcatMap distributes over concatenation. */
  lemma {:induction false} ConcatMapConcat<T, U>(f: T -> seq<U>, a: seq<T>, b: seq<T>)
    ensures ConcatMap(f, a + b) == ConcatMap(f, a) + ConcatMap(f, b)
    decreases |b|
  {
    if b == [] {
      assert a + b == a;
    } else {
      var b' := b[..|b| - 1];
      assert (a + b)[..|a + b| - 1] == a + b';
      assert (a + b)[|a + b| - 1] == b[|b| - 1];
      ConcatMapConcat(f, a, b');
    }
  }

  /** Every element of a ConcatMap comes from the result on some element. */
  lemma {:induction false} ConcatMapMember<T, U>(f: T -> seq<U>, xs: seq<T>, u: U)
    requires u in ConcatMap(f, xs)
    ensures exists i :: 0 <= i < |xs| && u in f(xs[i])
    decreases |xs|
  {
    var init := xs[..|xs| - 1];
    if u !in f(xs[|xs| - 1]) {
      ConcatMapMember(f, init, u);
      var i :| 0 <= i < |init| && u in f(init[i]);
      assert init[i] == xs[i];
    }
  }

  /** A ConcatMap of results that are all empty is empty. */
  lemma {:induction false} ConcatMapEmpty<T, U>(f: T -> seq<U>, xs: seq<T>)
    requires forall i :: 0 <= i < |xs| ==> f(xs[i]) == []
    ensures ConcatMap(f, xs) == []
    decreases |xs|
  {
    if xs != [] {
      ConcatMapEmpty(f, xs[..|xs| - 1]);
    }
  }

  /** The last step of a ConcatMap. */
  lemma ConcatMapSnoc<T, U>(f: T -> seq<U>, xs: seq<T>, x: T)
    ensures ConcatMap(f, xs + [x]) == ConcatMap(f, xs) + f(x)
  {
    assert (xs + [x])[..|xs|] == xs;
  }
}
