/** Generic sequence helpers: Python list comprehensions with an `if`
    filter, flattening of nested lists, sums of naturals, and loops that
    stop at the first failure. */
module Seqs {
  import opened Wrappers

  /** `[x for x in xs if keep(x)]`. */
  function Filter<T>(xs: seq<T>, keep: T -> bool): (r: seq<T>)
    ensures |r| <= |xs|
    ensures forall i :: 0 <= i < |r| ==> r[i] in xs && keep(r[i])
    ensures forall i :: 0 <= i < |xs| && keep(xs[i]) ==> xs[i] in r
    decreases |xs|
  {
    if xs == [] then []
    else if keep(xs[0]) then [xs[0]] + Filter(xs[1..], keep)
    else Filter(xs[1..], keep)
  }

  lemma {:induction false} FilterAppend<T>(xs: seq<T>, ys: seq<T>, keep: T -> bool)
    ensures Filter(xs + ys, keep) == Filter(xs, keep) + Filter(ys, keep)
    decreases |xs|
  {
    if xs == [] {
      assert xs + ys == ys;
    } else {
      assert (xs + ys)[1..] == xs[1..] + ys;
      FilterAppend(xs[1..], ys, keep);
    }
  }

  /** Keeping every element changes nothing. */
  lemma {:induction false} FilterAll<T>(xs: seq<T>, keep: T -> bool)
    requires forall i :: 0 <= i < |xs| ==> keep(xs[i])
    ensures Filter(xs, keep) == xs
    decreases |xs|
  {
    if xs != [] {
      FilterAll(xs[1..], keep);
    }
  }

  /** Concatenation of a list of lists. */
  function Flatten<T>(xss: seq<seq<T>>): (r: seq<T>)
    decreases |xss|
  {
    if xss == [] then [] else xss[0] + Flatten(xss[1..])
  }

  lemma {:induction false} FlattenAppend<T>(xss: seq<seq<T>>, yss: seq<seq<T>>)
    ensures Flatten(xss + yss) == Flatten(xss) + Flatten(yss)
    decreases |xss|
  {
    if xss == [] {
      assert xss + yss == yss;
    } else {
      assert (xss + yss)[1..] == xss[1..] + yss;
      FlattenAppend(xss[1..], yss);
    }
  }

  /** Every element of an inner list occurs in the flattened list. */
  lemma {:induction false} FlattenContains<T>(xss: seq<seq<T>>, j: nat, k: nat)
    requires j < |xss| && k < |xss[j]|
    ensures xss[j][k] in Flatten(xss)
    decreases j
  {
    assert Flatten(xss) == xss[0] + Flatten(xss[1..]);
    if j > 0 {
      assert xss[j] == xss[1..][j - 1];
      FlattenContains(xss[1..], j - 1, k);
    }
  }

  function Sum(xs: seq<nat>): nat
    decreases |xs|
  {
    if xs == [] then 0 else xs[0] + Sum(xs[1..])
  }

  lemma {:induction false} SumAppend(xs: seq<nat>, ys: seq<nat>)
    ensures Sum(xs + ys) == Sum(xs) + Sum(ys)
    decreases |xs|
  {
    if xs == [] {
      assert xs + ys == ys;
    } else {
      assert (xs + ys)[1..] == xs[1..] + ys;
      SumAppend(xs[1..], ys);
    }
  }

  /** Python's `xs[:k]` for any integer `k`: a negative bound counts from the end. */
  function PyTake<T>(xs: seq<T>, k: int): (r: seq<T>)
    ensures 0 <= k ==> r == xs[..if k <= |xs| then k else |xs|]
    ensures k < 0 ==> r == xs[..if |xs| + k < 0 then 0 else |xs| + k]
  {
    if k >= 0 then (if k <= |xs| then xs[..k] else xs)
    else if |xs| + k < 0 then [] else xs[..|xs| + k]
  }

  /** `[y for x in xs for y in f(x)]`. */
  function ConcatMap<A, B>(xs: seq<A>, f: A -> seq<B>): seq<B>
    decreases |xs|
  {
    if xs == [] then [] else ConcatMap(xs[..|xs| - 1], f) + f(xs[|xs| - 1])
  }

  lemma {:induction false} ConcatMapAppend<A, B>(xs: seq<A>, ys: seq<A>, f: A -> seq<B>)
    ensures ConcatMap(xs + ys, f) == ConcatMap(xs, f) + ConcatMap(ys, f)
    decreases |ys|
  {
    if ys == [] {
      assert xs + ys == xs;
    } else {
      var front := ys[..|ys| - 1];
      assert (xs + ys)[..|xs + ys| - 1] == xs + front;
      ConcatMapAppend(xs, front, f);
    }
  }

  /** Element `j` of `f(xs[i])` sits after the output of `xs[..i]`. */
  lemma ConcatMapAt<A, B>(xs: seq<A>, f: A -> seq<B>, i: nat, j: nat)
    requires i < |xs| && j < |f(xs[i])|
    ensures |ConcatMap(xs[..i], f)| + j < |ConcatMap(xs, f)|
    ensures ConcatMap(xs, f)[|ConcatMap(xs[..i], f)| + j] == f(xs[i])[j]
  {
    assert xs == xs[..i + 1] + xs[i + 1..];
    ConcatMapAppend(xs[..i + 1], xs[i + 1..], f);
    assert xs[..i + 1][..i] == xs[..i];
  }

  /** Every output position comes from some element of `xs`. */
  lemma {:induction false} ConcatMapLocate<A, B>(xs: seq<A>, f: A -> seq<B>, k: nat) returns (i: nat, j: nat)
    requires k < |ConcatMap(xs, f)|
    ensures i < |xs| && j < |f(xs[i])|
    ensures k == |ConcatMap(xs[..i], f)| + j
    ensures ConcatMap(xs, f)[k] == f(xs[i])[j]
    decreases |xs|
  {
    var n := |xs| - 1;
    var front := xs[..n];
    if k < |ConcatMap(front, f)| {
      i, j := ConcatMapLocate(front, f, k);
      assert front[..i] == xs[..i];
    } else {
      i, j := n, k - |ConcatMap(front, f)|;
    }
    ConcatMapAt(xs, f, i, j);
  }

  /** A loop that maps every element in order and stops at the first
      failure. */
  function MapAll<A, B, E>(xs: seq<A>, f: A -> Result<B, E>): Result<seq<B>, E>
    decreases |xs|
  {
    if xs == [] then Ok([])
    else
      match MapAll(xs[..|xs| - 1], f)
      case Err(e) => Err(e)
      case Ok(ys) =>
        match f(xs[|xs| - 1])
        case Err(e) => Err(e)
        case Ok(y) => Ok(ys + [y])
  }

  /** MapAll succeeds exactly when every element maps, and then holds the
      images in order; a failure is the failure of some element. */
  lemma {:induction false} MapAllSpec<A, B, E>(xs: seq<A>, f: A -> Result<B, E>)
    ensures var r := MapAll(xs, f);
      && (r.Ok? <==> forall k :: 0 <= k < |xs| ==> f(xs[k]).Ok?)
      && (r.Ok? ==> |r.value| == |xs| && forall k :: 0 <= k < |xs| ==> f(xs[k]) == Ok(r.value[k]))
      && (r.Err? ==> exists k :: 0 <= k < |xs| && f(xs[k]) == Err(r.error))
    decreases |xs|
  {
    if xs != [] {
      var init, last := xs[..|xs| - 1], xs[|xs| - 1];
      MapAllSpec(init, f);
      assert forall k :: 0 <= k < |init| ==> init[k] == xs[k];
      var head := MapAll(init, f);
      if head.Ok? && f(last).Ok? {
        var r := head.value + [f(last).value];
        assert forall k :: 0 <= k < |init| ==> r[k] == head.value[k];
      } else if head.Err? {
        var k :| 0 <= k < |init| && f(init[k]) == Err(head.error);
        assert f(xs[k]) == Err(head.error);
      }
    }
  }
}
