/** Ordering by an integer key, the way `ORDER BY` and `orderBy` deliver rows.
    The database leaves the order of equal keys unspecified; the model picks
    the stable order, and every contract about a sorted result claims only
    "sorted by the key" and "a permutation of the input". */
module Sorting {

  ghost predicate SortedBy<T>(s: seq<T>, key: T -> int)
  {
    forall i, j :: 0 <= i < j < |s| ==> key(s[i]) <= key(s[j])
  }

  /** No element occurs twice. */
  ghost predicate Distinct<T>(s: seq<T>)
  {
    forall i, j :: 0 <= i < j < |s| ==> s[i] != s[j]
  }

  /** The tail of a duplicate-free list is duplicate-free and lacks the head. */
  lemma DistinctTail<T>(s: seq<T>)
    requires s != []
    ensures Distinct(s) ==> Distinct(s[1..]) && s[0] !in s[1..]
  {
    if Distinct(s) {
      forall j | 0 <= j < |s[1..]| ensures s[1..][j] != s[0] {
        assert s[1..][j] == s[j + 1];
      }
      forall i, j | 0 <= i < j < |s[1..]| ensures s[1..][i] != s[1..][j] {
        assert s[1..][i] == s[i + 1] && s[1..][j] == s[j + 1];
      }
    }
  }

  /** Adding an element that is not there keeps a list duplicate-free. */
  lemma DistinctSnoc<T>(s: seq<T>, x: T)
    requires Distinct(s) && x !in s
    ensures Distinct(s + [x])
  {
    forall i, j | 0 <= i < j < |s + [x]| ensures (s + [x])[i] != (s + [x])[j] {
      if j == |s| {
        assert (s + [x])[i] == s[i];
      }
    }
  }

  /** Puts `x` in front of the first element whose key is not smaller. */
  function Insert<T>(x: T, s: seq<T>, key: T -> int): (r: seq<T>)
    requires SortedBy(s, key)
    ensures SortedBy(r, key)
    ensures multiset(r) == multiset(s) + multiset{x}
    ensures |r| == |s| + 1
    ensures r[0] == x || (s != [] && r[0] == s[0])
  {
    if s == [] || key(x) <= key(s[0]) then
      ConsSorted(x, s, key);
      [x] + s
    else
      SortedTail(s, key);
      var rest := Insert(x, s[1..], key);
      assert s == [s[0]] + s[1..];
      ConsSorted(s[0], rest, key);
      [s[0]] + rest
  }

  /** A sorted list stays sorted without its head. */
  lemma SortedTail<T>(s: seq<T>, key: T -> int)
    requires s != [] && SortedBy(s, key)
    ensures SortedBy(s[1..], key)
  {
    forall i, j | 0 <= i < j < |s| - 1 ensures key(s[1..][i]) <= key(s[1..][j]) {
      assert s[1..][i] == s[i + 1] && s[1..][j] == s[j + 1];
    }
  }

  /** An element no greater than the head of a sorted list can go in front. */
  lemma ConsSorted<T>(y: T, rest: seq<T>, key: T -> int)
    requires SortedBy(rest, key)
    requires rest == [] || key(y) <= key(rest[0])
    ensures SortedBy([y] + rest, key)
  {
    var r := [y] + rest;
    forall i, j | 0 <= i < j < |r| ensures key(r[i]) <= key(r[j]) {
      assert r[j] == rest[j - 1];
      if i == 0 {
        if j > 1 { assert key(rest[0]) <= key(rest[j - 1]); }
      } else {
        assert r[i] == rest[i - 1];
      }
    }
  }

  /** Stable insertion sort of `s` by ascending `key`. */
  function SortBy<T>(s: seq<T>, key: T -> int): (r: seq<T>)
    ensures SortedBy(r, key)
    ensures multiset(r) == multiset(s)
    ensures |r| == |s|
  {
    if s == [] then []
    else
      assert s == [s[0]] + s[1..];
      Insert(s[0], SortBy(s[1..], key), key)
  }

  lemma {:induction false} DistinctCounts<T>(s: seq<T>)
    ensures Distinct(s) <==> forall x :: multiset(s)[x] <= 1
  {
    if s == [] {
    } else {
      DistinctCounts(s[1..]);
      assert s == [s[0]] + s[1..];
      if Distinct(s) {
        assert Distinct(s[1..]) by {
          forall i, j | 0 <= i < j < |s[1..]| ensures s[1..][i] != s[1..][j] {
            assert s[1..][i] == s[i + 1] && s[1..][j] == s[j + 1];
          }
        }
        assert s[0] !in s[1..];
      }
      if forall x :: multiset(s)[x] <= 1 {
        assert forall x :: multiset(s[1..])[x] <= 1 by {
          forall x ensures multiset(s[1..])[x] <= 1 {
            assert multiset(s)[x] == multiset(s[1..])[x] + (if x == s[0] then 1 else 0);
          }
        }
        assert multiset(s)[s[0]] == multiset(s[1..])[s[0]] + 1;
        forall i, j | 0 <= i < j < |s| ensures s[i] != s[j] {
          if i == 0 {
            assert s[j] in s[1..];
          } else {
            assert s[1..][i - 1] == s[i] && s[1..][j - 1] == s[j];
          }
        }
      }
    }
  }

  /** Reordering never creates duplicates. */
  lemma PermutationKeepsDistinct<T>(a: seq<T>, b: seq<T>)
    requires multiset(a) == multiset(b)
    requires Distinct(a)
    ensures Distinct(b)
  {
    DistinctCounts(a);
    DistinctCounts(b);
  }
}
