/**
 * The iterator adaptors the extractors and harvesters chain together:
 * `filter`, and `max_by_key` / `min_by_key` with Rust's tie rules (the last
 * maximum, the first minimum).
 */
module Iter {
  import opened Wrappers

  /** `filter`: the elements satisfying `p`, in their order. */
  function Filter<T>(xs: seq<T>, p: T -> bool): (r: seq<T>)
    ensures |r| <= |xs|
    ensures forall i :: 0 <= i < |r| ==> p(r[i]) && r[i] in xs
    ensures forall i :: 0 <= i < |xs| && p(xs[i]) ==> xs[i] in r
  {
    if xs == [] then [] else (if p(xs[0]) then [xs[0]] else []) + Filter(xs[1..], p)
  }

  /** Filtering distributes over concatenation. */
  lemma {:induction false} FilterConcat<T>(a: seq<T>, b: seq<T>, p: T -> bool)
    ensures Filter(a + b, p) == Filter(a, p) + Filter(b, p)
  {
    if a != [] {
      assert (a + b)[0] == a[0] && (a + b)[1..] == a[1..] + b;
      FilterConcat(a[1..], b, p);
    } else {
      assert a + b == b;
    }
  }

  /** The position `max_by_key` settles on: a maximum, and the last one. */
  function MaxIndexByKey<T>(xs: seq<T>, key: T -> int): (i: nat)
    requires |xs| > 0
    ensures i < |xs|
    ensures forall j :: 0 <= j < |xs| ==> key(xs[j]) <= key(xs[i])
    ensures forall j :: i < j < |xs| ==> key(xs[j]) < key(xs[i])
    decreases |xs|
  {
    if |xs| == 1 then 0
    else
      var i := MaxIndexByKey(xs[..|xs| - 1], key);
      assert xs[..|xs| - 1][i] == xs[i];
      if key(xs[|xs| - 1]) >= key(xs[i]) then |xs| - 1 else i
  }

  /** `max_by_key`: `None` exactly for no elements. */
  function MaxByKey<T>(xs: seq<T>, key: T -> int): (r: Option<T>)
    ensures r.None? <==> |xs| == 0
    ensures r.Some? ==> r.value in xs && forall j :: 0 <= j < |xs| ==> key(xs[j]) <= key(r.value)
  {
    if |xs| == 0 then None else Some(xs[MaxIndexByKey(xs, key)])
  }

  /** The position `min_by_key` settles on: a minimum, and the first one. */
  function MinIndexByKey<T>(xs: seq<T>, key: T -> int): (i: nat)
    requires |xs| > 0
    ensures i < |xs|
    ensures forall j :: 0 <= j < |xs| ==> key(xs[i]) <= key(xs[j])
    ensures forall j :: 0 <= j < i ==> key(xs[i]) < key(xs[j])
    decreases |xs|
  {
    if |xs| == 1 then 0
    else
      var i := MinIndexByKey(xs[..|xs| - 1], key);
      assert xs[..|xs| - 1][i] == xs[i];
      if key(xs[|xs| - 1]) < key(xs[i]) then |xs| - 1 else i
  }
}
