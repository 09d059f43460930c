/**
 * Generic operations on a table's rows, in table order: `WHERE` (filter), `.some` / `EXISTS`,
 * `findFirst` / `.find`, `.map`, and `UPDATE ... WHERE` (map over the matching rows).
 */
module Rows {
  import opened Wrappers

  /** `WHERE f`: the rows satisfying `f`, in table order. */
  function Filter<T>(s: seq<T>, f: T -> bool): (r: seq<T>)
    ensures |r| <= |s|
    ensures forall i :: 0 <= i < |r| ==> r[i] in s && f(r[i])
    ensures forall i :: 0 <= i < |s| && f(s[i]) ==> s[i] in r
  {
    if s == [] then [] else (if f(s[0]) then [s[0]] else []) + Filter(s[1..], f)
  }

  lemma {:induction false} FilterAppend<T>(a: seq<T>, b: seq<T>, f: T -> bool)
    ensures Filter(a + b, f) == Filter(a, f) + Filter(b, f)
  {
    if a == [] {
      assert a + b == b;
    } else {
      assert (a + b)[1..] == a[1..] + b;
      FilterAppend(a[1..], b, f);
    }
  }

  /** `WHERE f` keeps each row that passes as often as it occurs in the table, and no other row. */
  lemma {:induction false} FilterCounts<T>(s: seq<T>, f: T -> bool, x: T)
    ensures multiset(Filter(s, f))[x] == if f(x) then multiset(s)[x] else 0
  {
    if s != [] {
      FilterCounts(s[1..], f, x);
      var head := if f(s[0]) then [s[0]] else [];
      assert Filter(s, f) == head + Filter(s[1..], f);
      assert multiset(Filter(s, f)) == multiset(head) + multiset(Filter(s[1..], f));
      assert s == [s[0]] + s[1..];
      assert multiset(s) == multiset([s[0]]) + multiset(s[1..]);
    }
  }

  /** `WHERE f` keeps table order: what it keeps of a prefix of the table is a prefix of what it keeps. */
  lemma FilterPrefix<T>(s: seq<T>, f: T -> bool, i: nat)
    requires i <= |s|
    ensures Filter(s[..i], f) <= Filter(s, f)
  {
    assert s == s[..i] + s[i..];
    FilterAppend(s[..i], s[i..], f);
  }

  /** A filter every row passes keeps the whole table. */
  lemma {:induction false} FilterKeepsAll<T>(s: seq<T>, f: T -> bool)
    requires forall i :: 0 <= i < |s| ==> f(s[i])
    ensures Filter(s, f) == s
  {
    if s != [] {
      FilterKeepsAll(s[1..], f);
    }
  }

  /** A filter no row passes keeps nothing. */
  lemma {:induction false} FilterNone<T>(s: seq<T>, f: T -> bool)
    requires forall i :: 0 <= i < |s| ==> !f(s[i])
    ensures Filter(s, f) == []
  {
    if s != [] {
      FilterNone(s[1..], f);
    }
  }

  /** `.some(f)` / `EXISTS`: some row satisfies `f`. */
  function Any<T>(s: seq<T>, f: T -> bool): (b: bool)
    ensures b <==> exists i :: 0 <= i < |s| && f(s[i])
  {
    if s == [] then false
    else if f(s[0]) then true
    else
      var b := Any(s[1..], f);
      assert (exists i :: 0 <= i < |s| && f(s[i])) ==> b by {
        if exists i :: 0 <= i < |s| && f(s[i]) {
          var i :| 0 <= i < |s| && f(s[i]);
          assert s[1..][i - 1] == s[i];
        }
      }
      b
  }

  /** `findFirst` / `.find(f)`: the first row satisfying `f`, if any. */
  function FindFirst<T>(s: seq<T>, f: T -> bool): (r: Option<T>)
    ensures r.None? <==> !Any(s, f)
    ensures r.Some? ==> exists k :: 0 <= k < |s| && s[k] == r.value && f(s[k]) && forall j :: 0 <= j < k ==> !f(s[j])
  {
    if s == [] then None
    else if f(s[0]) then Some(s[0])
    else
      var r := FindFirst(s[1..], f);
      assert r.Some? ==> exists k :: 0 <= k < |s| && s[k] == r.value && f(s[k]) && forall j :: 0 <= j < k ==> !f(s[j]) by {
        if r.Some? {
          var k :| 0 <= k < |s[1..]| && s[1..][k] == r.value && f(s[1..][k]) && forall j :: 0 <= j < k ==> !f(s[1..][j]);
          assert s[k + 1] == r.value;
          forall j | 0 <= j < k + 1 ensures !f(s[j]) {
            if j > 0 { assert s[j] == s[1..][j - 1]; }
          }
        }
      }
      r
  }

  /** `.map(f)` */
  function Map<T, U>(s: seq<T>, f: T -> U): (r: seq<U>)
    ensures |r| == |s|
    ensures forall i :: 0 <= i < |s| ==> r[i] == f(s[i])
  {
    if s == [] then [] else [f(s[0])] + Map(s[1..], f)
  }

  /** `UPDATE ... SET g WHERE f`: every row satisfying `f` becomes `g` of itself; the order is kept. */
  function UpdateWhere<T>(s: seq<T>, f: T -> bool, g: T -> T): (r: seq<T>)
    ensures |r| == |s|
    ensures forall i :: 0 <= i < |s| ==> r[i] == if f(s[i]) then g(s[i]) else s[i]
  {
    if s == [] then [] else [if f(s[0]) then g(s[0]) else s[0]] + UpdateWhere(s[1..], f, g)
  }

  /** `s.map(f)` where `f` fails on some rows: the image of every row, or nothing when a row has none. */
  function MapAll<T, U>(s: seq<T>, f: T -> Option<U>): (r: Option<seq<U>>)
    ensures r.Some? <==> forall i :: 0 <= i < |s| ==> f(s[i]).Some?
    ensures r.Some? ==> |r.value| == |s| && forall i :: 0 <= i < |s| ==> f(s[i]) == Some(r.value[i])
  {
    if s == [] then Some([])
    else
      var rest := MapAll(s[1..], f);
      if f(s[0]).None? then None
      else if rest.None? then
        assert exists i :: 0 <= i < |s[1..]| && f(s[1..][i]).None?;
        None
      else
        var r := [f(s[0]).value] + rest.value;
        assert forall i :: 0 < i < |s| ==> s[i] == s[1..][i - 1] && r[i] == rest.value[i - 1];
        Some(r)
  }
}
