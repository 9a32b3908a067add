/** The array operations both components rely on, as pure functions over
    sequences: `Array.prototype.filter`, `Array.prototype.indexOf` and a
    comparator-driven `Array.prototype.sort`, with the facts about them the
    components' properties are built from. */
module Sequences {

  /** `r` can be obtained from `s` by deleting elements: it keeps their order. */
  ghost predicate SubsequenceOf<T>(r: seq<T>, s: seq<T>)
    decreases |s|
  {
    if r == [] then true
    else if s == [] then false
    else (r[0] == s[0] && SubsequenceOf(r[1..], s[1..])) || SubsequenceOf(r, s[1..])
  }

  /** Every element of `s` stands in `rel` to every element after it. */
  ghost predicate Pairwise<T>(s: seq<T>, rel: (T, T) -> bool)
  {
    forall i, j :: 0 <= i < j < |s| ==> rel(s[i], s[j])
  }

  /** `key` does not decrease along `s`. */
  ghost predicate Ascending<T>(s: seq<T>, key: T -> int)
  {
    forall i, j :: 0 <= i < j < |s| ==> key(s[i]) <= key(s[j])
  }

  /** `Array.prototype.filter`: the elements of `s` that satisfy `p`, in order.
      Each value occurs as often as in `s` when it satisfies `p`, else never. */
  function Filter<T(!new)>(s: seq<T>, p: T -> bool): (r: seq<T>)
    ensures forall x :: multiset(r)[x] == if p(x) then multiset(s)[x] else 0
    ensures forall x :: x in r <==> x in s && p(x)
    ensures SubsequenceOf(r, s)
    ensures |r| <= |s|
  {
    if s == [] then []
    else
      assert s == [s[0]] + s[1..];
      if p(s[0]) then [s[0]] + Filter(s[1..], p) else Filter(s[1..], p)
  }

  /** `Array.prototype.indexOf`: the first position of `x` in `s`, or -1. */
  function IndexOf<T(==)>(s: seq<T>, x: T): (r: int)
    ensures -1 <= r < |s|
    ensures r == -1 <==> x !in s
    ensures 0 <= r ==> s[r] == x && x !in s[..r]
  {
    if s == [] then -1
    else if s[0] == x then 0
    else
      var k := IndexOf(s[1..], x);
      assert s[1..][..k + 1] == s[1..k + 2] by { if k >= 0 { } }
      if k == -1 then -1 else k + 1
  }

  /** Puts `x` in front of the first element `y` of `s` with `cmp(x, y) <= 0`,
      so `x` goes in front of the elements it ties with. */
  function InsertBy<T>(x: T, s: seq<T>, cmp: (T, T) -> int): (r: seq<T>)
    ensures multiset(r) == multiset(s) + multiset{x}
  {
    if s == [] || cmp(x, s[0]) <= 0 then [x] + s
    else
      assert s == [s[0]] + s[1..];
      [s[0]] + InsertBy(x, s[1..], cmp)
  }

  /** `Array.prototype.sort` with comparator `cmp`, as an insertion sort: the
      result is a permutation of `s`, and an element stays in front of the
      later elements it ties with, as in the stable sort of ECMAScript 2019. */
  function SortBy<T>(s: seq<T>, cmp: (T, T) -> int): (r: seq<T>)
    ensures multiset(r) == multiset(s)
  {
    if s == [] then []
    else
      assert s == [s[0]] + s[1..];
      InsertBy(s[0], SortBy(s[1..], cmp), cmp)
  }

  /** The parts `Filter` keeps with `p` and with its negation `q` make up `s`. */
  lemma FilterComplement<T(!new)>(s: seq<T>, p: T -> bool, q: T -> bool)
    requires forall x :: q(x) == !p(x)
    ensures multiset(Filter(s, p)) + multiset(Filter(s, q)) == multiset(s)
  {
  }

  /** Filtering with a predicate every element satisfies changes nothing. */
  lemma {:induction false} FilterKeepsAll<T(!new)>(s: seq<T>, p: T -> bool)
    requires forall x :: x in s ==> p(x)
    ensures Filter(s, p) == s
  {
    if s != [] {
      FilterKeepsAll(s[1..], p);
    }
  }

  /** Filtering twice with the same predicate is filtering once. */
  lemma FilterIdempotent<T(!new)>(s: seq<T>, p: T -> bool)
    ensures Filter(Filter(s, p), p) == Filter(s, p)
  {
    FilterKeepsAll(Filter(s, p), p);
  }

  /** The elements of a subsequence are elements of the sequence. */
  lemma {:induction false} SubsequenceMembers<T>(r: seq<T>, s: seq<T>)
    requires SubsequenceOf(r, s)
    ensures forall x :: x in r ==> x in s
    decreases |s|
  {
    if r != [] {
      if r[0] == s[0] && SubsequenceOf(r[1..], s[1..]) {
        SubsequenceMembers(r[1..], s[1..]);
        assert r == [r[0]] + r[1..];
      } else {
        SubsequenceMembers(r, s[1..]);
      }
    }
  }

  /** A relation that holds between every earlier and later element of `s`
      still holds in every subsequence of `s`. */
  lemma {:induction false} SubsequencePairwise<T>(r: seq<T>, s: seq<T>, rel: (T, T) -> bool)
    requires SubsequenceOf(r, s) && Pairwise(s, rel)
    ensures Pairwise(r, rel)
    decreases |s|
  {
    if r != [] {
      assert Pairwise(s[1..], rel) by {
        forall i, j | 0 <= i < j < |s| - 1 ensures rel(s[1..][i], s[1..][j]) {
          assert rel(s[i + 1], s[j + 1]);
        }
      }
      if r[0] == s[0] && SubsequenceOf(r[1..], s[1..]) {
        SubsequencePairwise(r[1..], s[1..], rel);
        SubsequenceMembers(r[1..], s[1..]);
        forall i, j | 0 <= i < j < |r| ensures rel(r[i], r[j]) {
          if i > 0 {
            assert rel(r[1..][i - 1], r[1..][j - 1]);
          } else {
            assert r[j] in r[1..] by { assert r[1..][j - 1] == r[j]; }
            var k :| 0 <= k < |s| - 1 && s[1..][k] == r[j];
            assert rel(s[0], s[k + 1]);
          }
        }
      } else {
        SubsequencePairwise(r, s[1..], rel);
      }
    }
  }

  /** Inserting into an ascending sequence keeps it ascending, provided the
      comparator puts `x` first exactly when its key is not larger. */
  lemma {:induction false} InsertByAscending<T>(x: T, s: seq<T>, cmp: (T, T) -> int, key: T -> int)
    requires Ascending(s, key)
    requires forall y :: y in s ==> (cmp(x, y) <= 0 <==> key(x) <= key(y))
    ensures Ascending(InsertBy(x, s, cmp), key)
  {
    var r := InsertBy(x, s, cmp);
    if s == [] || cmp(x, s[0]) <= 0 {
      forall i, j | 0 <= i < j < |r| ensures key(r[i]) <= key(r[j]) {
        if i == 0 {
          assert s[0] in s;
          assert key(s[0]) <= key(s[j - 1]) by { if j - 1 > 0 { } }
        } else {
          assert r[i] == s[i - 1] && r[j] == s[j - 1];
        }
      }
    } else {
      assert s[0] in s;
      var t := InsertBy(x, s[1..], cmp);
      assert Ascending(s[1..], key) by {
        forall i, j | 0 <= i < j < |s| - 1 ensures key(s[1..][i]) <= key(s[1..][j]) {
          assert key(s[i + 1]) <= key(s[j + 1]);
        }
      }
      forall y | y in s[1..] ensures (cmp(x, y) <= 0 <==> key(x) <= key(y)) {
        assert y in s;
      }
      InsertByAscending(x, s[1..], cmp, key);
      assert r == [s[0]] + t;
      forall i, j | 0 <= i < j < |r| ensures key(r[i]) <= key(r[j]) {
        if i == 0 {
          assert r[j] == t[j - 1];
          assert r[j] in multiset(t);
          if r[j] != x {
            assert r[j] in multiset(s[1..]);
            var k :| 0 <= k < |s| - 1 && s[1..][k] == r[j];
            assert key(s[0]) <= key(s[k + 1]);
          }
        } else {
          assert r[i] == t[i - 1] && r[j] == t[j - 1];
        }
      }
    }
  }

  /** `SortBy` sorts by `key` whenever `cmp` orders the elements of `s` the
      way `key` does. */
  lemma {:induction false} SortByAscending<T>(s: seq<T>, cmp: (T, T) -> int, key: T -> int)
    requires forall x, y :: x in s && y in s ==> (cmp(x, y) <= 0 <==> key(x) <= key(y))
    ensures Ascending(SortBy(s, cmp), key)
  {
    if s != [] {
      var rest := SortBy(s[1..], cmp);
      forall x, y | x in s[1..] && y in s[1..] ensures (cmp(x, y) <= 0 <==> key(x) <= key(y)) {
        assert x in s && y in s;
      }
      SortByAscending(s[1..], cmp, key);
      forall y | y in rest ensures (cmp(s[0], y) <= 0 <==> key(s[0]) <= key(y)) {
        assert y in multiset(rest);
        assert y in s[1..];
        assert y in s;
      }
      InsertByAscending(s[0], rest, cmp, key);
    }
  }

  /** `InsertBy` only looks at the comparator on `x` and the elements of `s`. */
  lemma {:induction false} InsertByCongruent<T>(x: T, s: seq<T>, cmp1: (T, T) -> int, cmp2: (T, T) -> int)
    requires forall y :: y in s ==> cmp1(x, y) == cmp2(x, y)
    ensures InsertBy(x, s, cmp1) == InsertBy(x, s, cmp2)
  {
    if s != [] {
      assert s[0] in s;
      forall y | y in s[1..] ensures cmp1(x, y) == cmp2(x, y) {
        assert y in s;
      }
      InsertByCongruent(x, s[1..], cmp1, cmp2);
    }
  }

  /** `SortBy` only looks at the comparator on pairs of elements of `s`: two
      comparators that agree there sort `s` identically. */
  lemma {:induction false} SortByCongruent<T>(s: seq<T>, cmp1: (T, T) -> int, cmp2: (T, T) -> int)
    requires forall x, y :: x in s && y in s ==> cmp1(x, y) == cmp2(x, y)
    ensures SortBy(s, cmp1) == SortBy(s, cmp2)
  {
    if s != [] {
      forall x, y | x in s[1..] && y in s[1..] ensures cmp1(x, y) == cmp2(x, y) {
        assert x in s && y in s;
      }
      SortByCongruent(s[1..], cmp1, cmp2);
      var rest := SortBy(s[1..], cmp1);
      forall y | y in rest ensures cmp1(s[0], y) == cmp2(s[0], y) {
        assert y in multiset(rest);
        assert y in s[1..];
        assert s[0] in s && y in s;
      }
      InsertByCongruent(s[0], rest, cmp1, cmp2);
    }
  }
}
