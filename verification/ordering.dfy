/** Ordinal ordering of strings and the stable sort used for LINQ `OrderBy`. */
module Ordering {

  /** Ordinal comparison: `a` sorts no later than `b` (char-code lexicographic order). */
  predicate Le(a: string, b: string)
    decreases |a|
  {
    |a| == 0 || (|b| > 0 && (a[0] < b[0] || (a[0] == b[0] && Le(a[1..], b[1..]))))
  }

  /** `a` sorts strictly before `b`. */
  predicate Lt(a: string, b: string) {
    Le(a, b) && !Le(b, a)
  }

  lemma LeReflexive(a: string)
    ensures Le(a, a)
  {
  }

  lemma LeTotal(a: string, b: string)
    ensures Le(a, b) || Le(b, a)
  {
  }

  lemma LeTransitive(a: string, b: string, c: string)
    requires Le(a, b) && Le(b, c)
    ensures Le(a, c)
  {
  }

  lemma LeAntisymmetric(a: string, b: string)
    requires Le(a, b) && Le(b, a)
    ensures a == b
  {
    if |a| > 0 && |b| > 0 {
      LeAntisymmetric(a[1..], b[1..]);
      assert a == [a[0]] + a[1..] && b == [b[0]] + b[1..];
    }
  }

  ghost predicate SortedBy<T>(key: T -> string, s: seq<T>) {
    forall i, j :: 0 <= i < j < |s| ==> Le(key(s[i]), key(s[j]))
  }

  /** Inserts `x` after every element whose key is not greater than its own (keeps stability). */
  function InsertBy<T>(key: T -> string, x: T, s: seq<T>): (r: seq<T>)
    requires SortedBy(key, s)
    ensures SortedBy(key, r)
    ensures multiset(r) == multiset(s) + multiset{x}
    ensures |r| == |s| + 1
  {
    if |s| == 0 then [x]
    else if Lt(key(x), key(s[0])) then
      assert forall j :: 0 < j < |s| ==> Le(key(s[0]), key(s[j]));
      LeTotal(key(x), key(s[0]));
      assert forall j :: 0 < j < |s| ==> Le(key(x), key(s[j])) by {
        forall j | 0 < j < |s| { LeTransitive(key(x), key(s[0]), key(s[j])); }
      }
      [x] + s
    else
      LeTotal(key(x), key(s[0]));
      var t := InsertBy(key, x, s[1..]);
      assert s == [s[0]] + s[1..];
      assert forall y :: y in t ==> Le(key(s[0]), key(y)) by {
        forall y | y in t ensures Le(key(s[0]), key(y)) {
          assert y in multiset(t);
          if y != x {
            assert y in multiset(s[1..]);
            var j :| 0 <= j < |s[1..]| && s[1..][j] == y;
            assert s[j + 1] == y;
          }
        }
      }
      [s[0]] + t
  }

  /** The key that sorts strings by themselves. */
  function Identity(s: string): string {
    s
  }

  /** Stable insertion sort by `key` (LINQ `OrderBy(key)`): sorted, and a permutation of `s`. */
  function SortBy<T>(key: T -> string, s: seq<T>): (r: seq<T>)
    ensures SortedBy(key, r)
    ensures multiset(r) == multiset(s)
    ensures |r| == |s|
  {
    if |s| == 0 then []
    else
      assert s == s[..|s| - 1] + [s[|s| - 1]];
      InsertBy(key, s[|s| - 1], SortBy(key, s[..|s| - 1]))
  }
}
