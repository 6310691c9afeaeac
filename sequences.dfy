/** Order-keeping selections from lists: the subsequence relation, and the
    "append unless already there" loop the scripts use to drop duplicates. */
module Sequences {
  import opened Sorting

  /** `xs` is `ys` with some elements left out, in the same order. */
  predicate SubsequenceOf<T(==)>(xs: seq<T>, ys: seq<T>)
    decreases |ys|
  {
    if xs == [] then true
    else if ys == [] then false
    else if xs[|xs| - 1] == ys[|ys| - 1] then SubsequenceOf(xs[..|xs| - 1], ys[..|ys| - 1])
    else SubsequenceOf(xs, ys[..|ys| - 1])
  }

  lemma {:induction false} SubsequenceDropLast<T>(xs: seq<T>, ys: seq<T>)
    requires xs != [] && SubsequenceOf(xs, ys)
    ensures SubsequenceOf(xs[..|xs| - 1], ys)
    decreases |ys|, 0
  {
    var yi := ys[..|ys| - 1];
    if xs[|xs| - 1] == ys[|ys| - 1] {
      SubsequenceExtend(xs[..|xs| - 1], yi, ys[|ys| - 1]);
      assert yi + [ys[|ys| - 1]] == ys;
    } else {
      SubsequenceDropLast(xs, yi);
      SubsequenceExtend(xs[..|xs| - 1], yi, ys[|ys| - 1]);
      assert yi + [ys[|ys| - 1]] == ys;
    }
  }

  /** Adding an element at the end of the longer list keeps the relation. */
  lemma {:induction false} SubsequenceExtend<T>(xs: seq<T>, ys: seq<T>, y: T)
    requires SubsequenceOf(xs, ys)
    ensures SubsequenceOf(xs, ys + [y])
    decreases |ys|, 1
  {
    assert (ys + [y])[..|ys|] == ys;
    if xs != [] && xs[|xs| - 1] == y {
      SubsequenceDropLast(xs, ys);
    }
  }

  /** Adding the same element at the end of both lists keeps the relation. */
  lemma SubsequenceAppend<T>(xs: seq<T>, ys: seq<T>, y: T)
    requires SubsequenceOf(xs, ys)
    ensures SubsequenceOf(xs + [y], ys + [y])
  {
    assert (xs + [y])[..|xs|] == xs;
    assert (ys + [y])[..|ys|] == ys;
  }

  /** The elements of `xs` that satisfy `keep` and are not in `seen`, each
      once, in the order of first appearance: the outcome of a loop that
      appends an element unless it is already in `seen` or in the list
      being built. */
  function Fresh<T(==, !new)>(xs: seq<T>, seen: seq<T>, keep: T -> bool): (r: seq<T>)
    ensures Distinct(r)
    ensures forall x :: x in r <==> x in xs && x !in seen && keep(x)
  {
    if xs == [] then []
    else
      var before := Fresh(xs[..|xs| - 1], seen, keep);
      var x := xs[|xs| - 1];
      assert xs == xs[..|xs| - 1] + [x];
      if keep(x) && x !in seen && x !in before then
        assert forall i :: 0 <= i < |before| ==> before[i] != x;
        before + [x]
      else before
  }

  /** What `Fresh` keeps comes in the order of `xs`. */
  lemma {:induction false} FreshInOrder<T(!new)>(xs: seq<T>, seen: seq<T>, keep: T -> bool)
    ensures SubsequenceOf(Fresh(xs, seen, keep), xs)
  {
    if xs != [] {
      var init := xs[..|xs| - 1];
      var x := xs[|xs| - 1];
      assert xs == init + [x];
      FreshInOrder(init, seen, keep);
      var before := Fresh(init, seen, keep);
      if keep(x) && x !in seen && x !in before {
        SubsequenceAppend(before, init, x);
      } else {
        SubsequenceExtend(before, init, x);
      }
    }
  }

  /** The position of the first `x` in `xs`. */
  function FirstIndex<T(==)>(xs: seq<T>, x: T): (i: nat)
    requires x in xs
    ensures i < |xs| && xs[i] == x
    ensures forall k :: 0 <= k < i ==> xs[k] != x
  {
    if xs[0] == x then 0 else 1 + FirstIndex(xs[1..], x)
  }

  /** Adding an element at the end moves no first appearance. */
  lemma FirstIndexSnoc<T>(xs: seq<T>, y: T, x: T)
    requires x in xs
    ensures FirstIndex(xs + [y], x) == FirstIndex(xs, x)
  {
    var b := FirstIndex(xs, x);
    assert (xs + [y])[b] == x;
  }

  /** `Fresh` lists what it keeps by first appearance in `xs`: an element
      kept earlier first appears in `xs` before one kept later. */
  lemma {:induction false} FreshByFirstAppearance<T(!new)>(xs: seq<T>, seen: seq<T>, keep: T -> bool)
    ensures forall i, j :: 0 <= i < j < |Fresh(xs, seen, keep)| ==>
              FirstIndex(xs, Fresh(xs, seen, keep)[i]) < FirstIndex(xs, Fresh(xs, seen, keep)[j])
  {
    if xs != [] {
      var init := xs[..|xs| - 1];
      var x := xs[|xs| - 1];
      assert xs == init + [x];
      FreshByFirstAppearance(init, seen, keep);
      var before := Fresh(init, seen, keep);
      var r := Fresh(xs, seen, keep);
      if keep(x) && x !in seen && x !in before {
        assert r == before + [x];
        assert x !in init;
        assert FirstIndex(xs, x) == |init|;
        forall i, j | 0 <= i < j < |r|
          ensures FirstIndex(xs, r[i]) < FirstIndex(xs, r[j])
        {
          assert r[i] == before[i] && before[i] in init;
          FirstIndexSnoc(init, x, r[i]);
          if j < |before| {
            assert r[j] == before[j] && before[j] in init;
            FirstIndexSnoc(init, x, r[j]);
            assert FirstIndex(init, before[i]) < FirstIndex(init, before[j]);
          }
        }
      } else {
        assert r == before;
        forall i, j | 0 <= i < j < |r|
          ensures FirstIndex(xs, r[i]) < FirstIndex(xs, r[j])
        {
          assert before[i] in init && before[j] in init;
          FirstIndexSnoc(init, x, r[i]);
          FirstIndexSnoc(init, x, r[j]);
          assert FirstIndex(init, before[i]) < FirstIndex(init, before[j]);
        }
      }
    }
  }

  /** `Fresh` one element further. */
  lemma FreshSnoc<T(!new)>(xs: seq<T>, x: T, seen: seq<T>, keep: T -> bool)
    ensures Fresh(xs + [x], seen, keep)
         == var before := Fresh(xs, seen, keep);
            if keep(x) && x !in seen && x !in before then before + [x] else before
  {
    assert (xs + [x])[..|xs|] == xs;
  }

  /** Two duplicate-free lists with nothing in common make one. */
  lemma DistinctAppend<T>(a: seq<T>, b: seq<T>)
    requires Distinct(a) && Distinct(b)
    requires forall x :: x in b ==> x !in a
    ensures Distinct(a + b)
  {
    forall i, j | 0 <= i < j < |a + b|
      ensures (a + b)[i] != (a + b)[j]
    {
      if i < |a| && j >= |a| {
        assert (a + b)[j] in b;
      }
    }
  }
}
