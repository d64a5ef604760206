/**
 * `OrderBy(x => x.Name)` over an abstract string comparer. The default
 * comparer is culture-sensitive; the model takes it as any total preorder
 * (distinct names may compare equal).
 */
module Ordering {

  /** `leq` is total and transitive. */
  ghost predicate TotalPreorder(leq: (string, string) -> bool)
  {
    && (forall a, b :: leq(a, b) || leq(b, a))
    && (forall a, b, c :: leq(a, b) && leq(b, c) ==> leq(a, c))
  }

  /** `s` is in ascending order of `key` under `leq`. */
  ghost predicate SortedBy<T>(s: seq<T>, key: T -> string, leq: (string, string) -> bool)
  {
    forall i, j :: 0 <= i < j < |s| ==> leq(key(s[i]), key(s[j]))
  }

  /** Puts `x` in front of the first element it does not exceed. */
  function Insert<T>(x: T, s: seq<T>, key: T -> string, leq: (string, string) -> bool): (r: seq<T>)
    ensures multiset(r) == multiset(s) + multiset{x}
  {
    if s == [] || leq(key(x), key(s[0])) then [x] + s
    else
      assert s == [s[0]] + s[1..];
      [s[0]] + Insert(x, s[1..], key, leq)
  }

  /** A stable insertion sort: the order `OrderBy` produces. */
  function SortBy<T>(s: seq<T>, key: T -> string, leq: (string, string) -> bool): (r: seq<T>)
    ensures multiset(r) == multiset(s)
  {
    if s == [] then []
    else
      assert s == [s[0]] + s[1..];
      Insert(s[0], SortBy(s[1..], key, leq), key, leq)
  }

  lemma {:induction false} InsertSorted<T>(x: T, s: seq<T>, key: T -> string, leq: (string, string) -> bool)
    requires TotalPreorder(leq)
    requires SortedBy(s, key, leq)
    ensures SortedBy(Insert(x, s, key, leq), key, leq)
  {
    if s == [] || leq(key(x), key(s[0])) {
    } else {
      InsertSorted(x, s[1..], key, leq);
      var tail := Insert(x, s[1..], key, leq);
      forall y | y in tail
        ensures leq(key(s[0]), key(y))
      {
        assert y in multiset(tail);
        if y != x {
          assert y in multiset(s[1..]);
        }
      }
    }
  }

  /** The result of `SortBy` is ascending and, by its contract, a permutation of its input. */
  lemma {:induction false} SortBySorted<T>(s: seq<T>, key: T -> string, leq: (string, string) -> bool)
    requires TotalPreorder(leq)
    ensures SortedBy(SortBy(s, key, leq), key, leq)
    ensures multiset(SortBy(s, key, leq)) == multiset(s)
  {
    if s != [] {
      SortBySorted(s[1..], key, leq);
      InsertSorted(s[0], SortBy(s[1..], key, leq), key, leq);
    }
  }
}
