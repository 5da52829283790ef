/**
 * `ORDER BY key DESC` as the server's queries use it: a descending sort of rows
 * by an integer key. The database promises only the order of the keys, so the
 * specification is "sorted and a permutation"; insertion sort is one witness.
 */
module Sorting {

  /** Every row's key is at least the key of every row after it. */
  ghost predicate SortedDesc<T>(s: seq<T>, key: T -> int)
  {
    forall i, j :: 0 <= i < j < |s| ==> key(s[i]) >= key(s[j])
  }

  /** Puts `x` before the first row of `s` whose key is smaller than `x`'s. */
  function Insert<T>(x: T, s: seq<T>, key: T -> int): (r: seq<T>)
    requires SortedDesc(s, key)
    ensures SortedDesc(r, key)
    ensures multiset(r) == multiset(s) + multiset{x}
  {
    if s == [] then [x]
    else if key(x) >= key(s[0]) then
      SortedCons(x, s, key);
      [x] + s
    else
      var rest := Insert(x, s[1..], key);
      assert s == [s[0]] + s[1..];
      HeadBound(s[0], s[1..], x, rest, key);
      SortedCons(s[0], rest, key);
      assert multiset([s[0]] + rest) == multiset{s[0]} + multiset(rest);
      [s[0]] + rest
  }

  /** A row whose key is at least the first key of a sorted list can go in front of it. */
  lemma SortedCons<T>(h: T, s: seq<T>, key: T -> int)
    requires SortedDesc(s, key)
    requires s != [] ==> key(h) >= key(s[0])
    ensures SortedDesc([h] + s, key)
  {
    var r := [h] + s;
    forall i, j | 0 <= i < j < |r|
      ensures key(r[i]) >= key(r[j])
    {
      if i == 0 {
        assert r[j] == s[j - 1];
      } else {
        assert r[i] == s[i - 1] && r[j] == s[j - 1];
      }
    }
  }

  /** A key above every key of `s` and `x` is above every key of a permutation of them. */
  lemma HeadBound<T>(h: T, s: seq<T>, x: T, rest: seq<T>, key: T -> int)
    requires forall j :: 0 <= j < |s| ==> key(h) >= key(s[j])
    requires key(h) >= key(x)
    requires multiset(rest) == multiset(s) + multiset{x}
    ensures forall j :: 0 <= j < |rest| ==> key(h) >= key(rest[j])
  {
    forall j | 0 <= j < |rest|
      ensures key(h) >= key(rest[j])
    {
      assert rest[j] in multiset(rest);
      if rest[j] != x {
        assert rest[j] in multiset(s);
        var k :| 0 <= k < |s| && s[k] == rest[j];
      }
    }
  }

  /** The rows of `s` in descending order of `key`. */
  function SortDesc<T>(s: seq<T>, key: T -> int): (r: seq<T>)
    ensures SortedDesc(r, key)
    ensures multiset(r) == multiset(s)
  {
    if s == [] then []
    else
      assert s == [s[0]] + s[1..];
      Insert(s[0], SortDesc(s[1..], key), key)
  }
}
