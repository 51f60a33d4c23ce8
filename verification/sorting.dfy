/**
 * The stable descending sort the auditor relies on: Python's
 * `list.sort(key=..., reverse=True)` and `sorted(..., reverse=True)`, and the
 * pandas multi-column `sort_values` of the priority matrix. Every ordering the
 * front ends use is a descending order on a pair of integers compared
 * lexicographically; an ascending column becomes a negated component.
 */
module Sorting {

  /** A sort key: the first component decides, the second breaks ties. */
  type Key = (int, int)

  /** `a` sorts no later than `b` in a descending order. */
  predicate Ge(a: Key, b: Key)
  {
    a.0 > b.0 || (a.0 == b.0 && a.1 >= b.1)
  }

  predicate SortedDesc<T>(s: seq<T>, key: T -> Key)
  {
    forall i, j :: 0 <= i < j < |s| ==> Ge(key(s[i]), key(s[j]))
  }

  /** The elements of `s` whose key is `k`, in their order in `s`. */
  function Select<T>(s: seq<T>, key: T -> Key, k: Key): seq<T>
  {
    if s == [] then []
    else (if key(s[0]) == k then [s[0]] else []) + Select(s[1..], key, k)
  }

  /**
   * Inserts `x` in front of the first element whose key it is at least:
   * it passes only elements with a strictly greater key.
   */
  function Insert<T>(x: T, s: seq<T>, key: T -> Key): (r: seq<T>)
    ensures multiset(r) == multiset(s) + multiset{x}
  {
    if s == [] then [x]
    else if Ge(key(x), key(s[0])) then [x] + s
    else
      var rest := Insert(x, s[1..], key);
      assert s == [s[0]] + s[1..];
      [s[0]] + rest
  }

  /** Insertion sort: each element is inserted into the sorted rest, in front of its equals. */
  function SortDesc<T>(s: seq<T>, key: T -> Key): (r: seq<T>)
    ensures multiset(r) == multiset(s)
    ensures |r| == |s|
  {
    if s == [] then []
    else
      assert s == [s[0]] + s[1..];
      Insert(s[0], SortDesc(s[1..], key), key)
  }

  lemma {:induction false} InsertSorted<T>(x: T, s: seq<T>, key: T -> Key)
    requires SortedDesc(s, key)
    ensures SortedDesc(Insert(x, s, key), key)
    decreases |s|
  {
    if s != [] && !Ge(key(x), key(s[0])) {
      var rest := Insert(x, s[1..], key);
      InsertSorted(x, s[1..], key);
      var r := [s[0]] + rest;
      forall i, j | 0 <= i < j < |r|
        ensures Ge(key(r[i]), key(r[j]))
      {
        if i == 0 {
          assert r[j] in multiset(rest);
          if r[j] != x {
            assert r[j] in multiset(s[1..]);
            var k :| 0 <= k < |s[1..]| && s[1..][k] == r[j];
            assert s[k + 1] == r[j];
          }
        } else {
          assert r[i] == rest[i - 1] && r[j] == rest[j - 1];
        }
      }
    }
  }

  /** The result of `SortDesc` is ordered. */
  lemma {:induction false} SortDescSorted<T>(s: seq<T>, key: T -> Key)
    ensures SortedDesc(SortDesc(s, key), key)
    decreases |s|
  {
    if s != [] {
      SortDescSorted(s[1..], key);
      InsertSorted(s[0], SortDesc(s[1..], key), key);
    }
  }

  lemma {:induction false} SelectAppend<T>(a: seq<T>, b: seq<T>, key: T -> Key, k: Key)
    ensures Select(a + b, key, k) == Select(a, key, k) + Select(b, key, k)
    decreases |a|
  {
    if a != [] {
      assert (a + b)[1..] == a[1..] + b;
      SelectAppend(a[1..], b, key, k);
    } else {
      assert a + b == b;
    }
  }

  /** Inserting `x` puts it in front of every element with the same key and moves no other element of that key. */
  lemma {:induction false} InsertSelect<T>(x: T, s: seq<T>, key: T -> Key, k: Key)
    ensures Select(Insert(x, s, key), key, k) == (if key(x) == k then [x] else []) + Select(s, key, k)
    decreases |s|
  {
    if s == [] {
    } else if Ge(key(x), key(s[0])) {
      SelectAppend([x], s, key, k);
    } else {
      InsertSelect(x, s[1..], key, k);
      SelectAppend([s[0]], Insert(x, s[1..], key), key, k);
      SelectAppend([s[0]], s[1..], key, k);
      assert [s[0]] + s[1..] == s;
    }
  }

  /** Stability: the elements that share a key keep their relative order. */
  lemma {:induction false} SortDescStable<T>(s: seq<T>, key: T -> Key, k: Key)
    ensures Select(SortDesc(s, key), key, k) == Select(s, key, k)
    decreases |s|
  {
    if s != [] {
      SortDescStable(s[1..], key, k);
      InsertSelect(s[0], SortDesc(s[1..], key), key, k);
    }
  }

  /** The elements of key `k` in a prefix of `s` are a prefix of those in `s`. */
  lemma {:induction false} SelectPrefix<T>(s: seq<T>, n: nat, key: T -> Key, k: Key)
    requires n <= |s|
    ensures Select(s[..n], key, k) <= Select(s, key, k)
    decreases n
  {
    if n > 0 {
      SelectPrefix(s[1..], n - 1, key, k);
      assert s[..n][1..] == s[1..][..n - 1];
    }
  }

  /** `s[:3]`. */
  function Top3<T>(s: seq<T>): (r: seq<T>)
    ensures |r| == if |s| < 3 then |s| else 3
    ensures r <= s
  {
    s[..if |s| < 3 then |s| else 3]
  }

  /** In an ordered list, each of the first three is at least every element left out. */
  lemma TopDominates<T>(s: seq<T>, key: T -> Key)
    requires SortedDesc(s, key)
    ensures forall i, j :: 0 <= i < |Top3(s)| <= j < |s| ==> Ge(key(s[i]), key(s[j]))
  {
  }
}
