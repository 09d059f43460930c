/**
 * `ORDER BY key DESC` and `LIMIT n` on in-memory rows: a stable insertion sort by an integer key
 * (`ORDER BY key ASC` is the same sort on the negated key) and taking a prefix.
 */
module Ordering {

  /** No two rows share a key (a primary key or a unique column). */
  ghost predicate UniqueKeys<T>(s: seq<T>, key: T -> int) {
    forall i, j :: 0 <= i < |s| && 0 <= j < |s| && key(s[i]) == key(s[j]) ==> i == j
  }

  /** Rows are listed by non-increasing key. */
  ghost predicate SortedDesc<T>(s: seq<T>, key: T -> int) {
    forall i, j :: 0 <= i < j < |s| ==> key(s[i]) >= key(s[j])
  }

  /** Insert `x` into a list sorted by non-increasing key, after every row whose key is larger. */
  function InsertDesc<T>(x: T, s: seq<T>, key: T -> int): (r: seq<T>)
    requires SortedDesc(s, key)
    ensures SortedDesc(r, key)
    ensures multiset(r) == multiset(s) + multiset{x}
    ensures |r| == |s| + 1
  {
    if s == [] || key(s[0]) <= key(x) then
      [x] + s
    else
      var t := InsertDesc(x, s[1..], key);
      assert s == [s[0]] + s[1..];
      ConsSorted(s[0], s[1..], x, t, key);
      [s[0]] + t
  }

  /** A head no smaller than every row of `rest` and than `x` stays in front of `rest` with `x` inserted. */
  lemma ConsSorted<T>(h: T, rest: seq<T>, x: T, t: seq<T>, key: T -> int)
    requires SortedDesc([h] + rest, key) && key(h) >= key(x)
    requires SortedDesc(t, key) && multiset(t) == multiset(rest) + multiset{x}
    ensures SortedDesc([h] + t, key)
  {
    forall i | 0 <= i < |t| ensures key(h) >= key(t[i]) {
      assert t[i] in multiset(t);
      if t[i] != x {
        assert t[i] in multiset(rest);
        var k :| 0 <= k < |rest| && rest[k] == t[i];
        assert ([h] + rest)[0] == h && ([h] + rest)[k + 1] == t[i];
      }
    }
    var r := [h] + t;
    forall i, j | 0 <= i < j < |r| ensures key(r[i]) >= key(r[j]) {
      if i > 0 { assert r[i] == t[i - 1] && r[j] == t[j - 1]; }
      else { assert r[j] == t[j - 1]; }
    }
  }

  /** `ORDER BY key DESC`: the rows, reordered so that larger keys come first; ties keep table order. */
  function SortDesc<T>(s: seq<T>, key: T -> int): (r: seq<T>)
    ensures SortedDesc(r, key)
    ensures multiset(r) == multiset(s)
    ensures |r| == |s|
  {
    if s == [] then []
    else
      assert s == [s[0]] + s[1..];
      InsertDesc(s[0], SortDesc(s[1..], key), key)
  }

  /** A row of the input is a row of the sorted output and vice versa. */
  lemma SortDescSameRows<T>(s: seq<T>, key: T -> int, x: T)
    ensures x in SortDesc(s, key) <==> x in s
  {
    var r := SortDesc(s, key);
    assert x in r <==> x in multiset(r);
    assert x in s <==> x in multiset(s);
  }

  /** `LIMIT n`: the first `n` rows, or all of them. */
  function Take<T>(s: seq<T>, n: nat): (r: seq<T>)
    ensures |r| == if n < |s| then n else |s|
    ensures r == s[..|r|]
  {
    if n < |s| then s[..n] else s
  }

  /** `LIMIT n` repeats no row: the rows taken are a sub-multiset of the rows. */
  lemma TakeSubMultiset<T>(s: seq<T>, n: nat)
    ensures multiset(Take(s, n)) <= multiset(s)
  {
    var r := Take(s, n);
    assert s == r + s[|r|..];
  }

  /** A prefix of a sorted list is sorted. */
  lemma TakeSorted<T>(s: seq<T>, key: T -> int, n: nat)
    requires SortedDesc(s, key)
    ensures SortedDesc(Take(s, n), key)
  {
  }

  /** The first row of a non-empty sorted list has the largest key. */
  lemma {:induction false} FirstIsMax<T>(s: seq<T>, key: T -> int, x: T)
    requires x in s
    ensures key(SortDesc(s, key)[0]) >= key(x)
  {
    SortDescSameRows(s, key, x);
    var r := SortDesc(s, key);
    var k :| 0 <= k < |r| && r[k] == x;
    assert k == 0 || key(r[0]) >= key(r[k]);
  }

  /**
   * `ORDER BY key DESC LIMIT n` keeps the rows with the largest keys: a row of the table that is not
   * kept has a key no larger than that of any row kept.
   */
  lemma TopN<T>(s: seq<T>, key: T -> int, n: nat, x: T)
    requires x in s
    ensures var r := Take(SortDesc(s, key), n);
            x in r || forall i :: 0 <= i < |r| ==> key(r[i]) >= key(x)
  {
    SortDescSameRows(s, key, x);
    var sorted := SortDesc(s, key);
    var k :| 0 <= k < |sorted| && sorted[k] == x;
    var r := Take(sorted, n);
    if k < |r| {
      assert r[k] == x;
    } else {
      forall i | 0 <= i < |r| ensures key(r[i]) >= key(x) {
        assert r[i] == sorted[i];
      }
    }
  }

  /**
   * Inserting a row whose `id` is new keeps the `id`s unique. The sort key and the unique key may
   * differ: posts sorted by time keep their distinct ids.
   */
  lemma {:induction false} InsertKeepsUnique<T>(x: T, s: seq<T>, key: T -> int, id: T -> int)
    requires SortedDesc(s, key) && UniqueKeys(s, id)
    requires forall i :: 0 <= i < |s| ==> id(s[i]) != id(x)
    ensures UniqueKeys(InsertDesc(x, s, key), id)
  {
    if s == [] || key(s[0]) <= key(x) {
      var r := [x] + s;
      assert forall k :: 0 < k < |r| ==> r[k] == s[k - 1];
    } else {
      assert UniqueKeys(s[1..], id) by {
        forall i, j | 0 <= i < |s[1..]| && 0 <= j < |s[1..]| && id(s[1..][i]) == id(s[1..][j]) ensures i == j {
          assert s[1..][i] == s[i + 1] && s[1..][j] == s[j + 1];
        }
      }
      InsertKeepsUnique(x, s[1..], key, id);
      var t := InsertDesc(x, s[1..], key);
      assert s == [s[0]] + s[1..];
      ConsUnique(s[0], s[1..], x, t, id);
    }
  }

  /** A head whose key no row of `rest` and not `x` has keeps the keys unique in front of `rest` with `x` inserted. */
  lemma ConsUnique<T>(h: T, rest: seq<T>, x: T, t: seq<T>, id: T -> int)
    requires UniqueKeys([h] + rest, id) && id(h) != id(x)
    requires UniqueKeys(t, id) && multiset(t) == multiset(rest) + multiset{x}
    ensures UniqueKeys([h] + t, id)
  {
    forall i | 0 <= i < |t| ensures id(t[i]) != id(h) {
      assert t[i] in multiset(t);
      if t[i] != x {
        assert t[i] in multiset(rest);
        var k :| 0 <= k < |rest| && rest[k] == t[i];
        assert ([h] + rest)[0] == h && ([h] + rest)[k + 1] == t[i];
      }
    }
    var r := [h] + t;
    forall i, j | 0 <= i < |r| && 0 <= j < |r| && id(r[i]) == id(r[j]) ensures i == j {
      if i > 0 && j > 0 { assert r[i] == t[i - 1] && r[j] == t[j - 1]; }
    }
  }

  /** Sorting by `key` keeps unique `id`s unique. */
  lemma {:induction false} SortKeepsUnique<T>(s: seq<T>, key: T -> int, id: T -> int)
    requires UniqueKeys(s, id)
    ensures UniqueKeys(SortDesc(s, key), id)
  {
    if s != [] {
      assert UniqueKeys(s[1..], id) by {
        forall i, j | 0 <= i < |s[1..]| && 0 <= j < |s[1..]| && id(s[1..][i]) == id(s[1..][j]) ensures i == j {
          assert s[1..][i] == s[i + 1] && s[1..][j] == s[j + 1];
        }
      }
      SortKeepsUnique(s[1..], key, id);
      var r := SortDesc(s[1..], key);
      forall i | 0 <= i < |r| ensures id(r[i]) != id(s[0]) {
        SortDescSameRows(s[1..], key, r[i]);
        var k :| 0 <= k < |s[1..]| && s[1..][k] == r[i];
        assert s[k + 1] == r[i];
      }
      InsertKeepsUnique(s[0], r, key, id);
    }
  }

  /** A prefix of a list with unique keys has unique keys. */
  lemma TakeKeepsUnique<T>(s: seq<T>, n: nat, id: T -> int)
    requires UniqueKeys(s, id)
    ensures UniqueKeys(Take(s, n), id)
  {
    var r := Take(s, n);
    forall i, j | 0 <= i < |r| && 0 <= j < |r| && id(r[i]) == id(r[j]) ensures i == j {
      assert r[i] == s[i] && r[j] == s[j];
    }
  }

  /** With unique keys, a sorted list is strictly decreasing. */
  lemma SortedUniqueStrict<T>(s: seq<T>, key: T -> int)
    requires SortedDesc(s, key) && UniqueKeys(s, key)
    ensures forall i, j :: 0 <= i < j < |s| ==> key(s[i]) > key(s[j])
  {
  }
}
