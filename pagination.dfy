/**
 * Cursor pagination as `getBookmarkedPosts` and `explore` do it: fetch `limit + 1` rows under a
 * `where` that bounds the id by the cursor, pop the extra row and hand its id out as `nextCursor`.
 *
 * The bound the routers write, `id < cursor`, skips the popped row: it sits on neither page. The
 * corrected bound `key <= cursor`, in the direction of the listing, makes the next page start with it.
 */
module Pagination {
  import opened Wrappers
  import opened Rows
  import opened Ordering
  import opened Schema

  datatype Page<T> = Page(items: seq<T>, nextCursor: Option<int>)

  /** The routers' `where`: the conditions, and `id < cursor` when the cursor is truthy. */
  function Before<T>(keep: T -> bool, id: T -> int, cursor: Option<int>): T -> bool {
    if Truthy(cursor) then (x: T) => keep(x) && id(x) < cursor.value else keep
  }

  /**
   * The corrected `where`: the conditions, and the row at or after the cursor in the listing's order,
   * for a listing by `key` descending whose cursor is `sign * key` (so `id <= cursor` for a listing by
   * id descending, `id >= cursor` for one by id ascending).
   */
  function AtOrAfter<T>(keep: T -> bool, key: T -> int, sign: int, cursor: Option<int>): T -> bool {
    if Truthy(cursor) then (x: T) => keep(x) && key(x) <= sign * cursor.value else keep
  }

  /** `findMany({ limit: n, where, orderBy: desc(key) })`: the first `n` matching rows, largest key first. */
  function Fetch<T>(rows: seq<T>, where: T -> bool, key: T -> int, n: nat): (r: seq<T>)
    ensures |r| <= n
    ensures SortedDesc(r, key)
    ensures forall i :: 0 <= i < |r| ==> r[i] in rows && where(r[i])
  {
    var sorted := SortDesc(Filter(rows, where), key);
    forall i | 0 <= i < |sorted| ensures sorted[i] in rows && where(sorted[i]) {
      SortDescSameRows(Filter(rows, where), key, sorted[i]);
    }
    Take(sorted, n)
  }

  /** A matching row that is not fetched has a key no larger than any fetched row's, and `n` rows were fetched. */
  lemma FetchTop<T>(rows: seq<T>, where: T -> bool, key: T -> int, n: nat, x: T)
    requires x in rows && where(x)
    ensures var r := Fetch(rows, where, key, n);
            x in r || (|r| == n && forall i :: 0 <= i < |r| ==> key(r[i]) >= key(x))
  {
    var matching := Filter(rows, where);
    assert x in matching;
    TopN(matching, key, n, x);
    SortDescSameRows(matching, key, x);
  }

  /** Fetching from rows with unique keys lists them by strictly decreasing key. */
  lemma FetchStrict<T>(rows: seq<T>, where: T -> bool, key: T -> int, n: nat)
    requires UniqueKeys(rows, key)
    ensures var r := Fetch(rows, where, key, n);
            UniqueKeys(r, key) && forall i, j :: 0 <= i < j < |r| ==> key(r[i]) > key(r[j])
  {
    FilterKeepsUnique(rows, key, where);
    SortKeepsUnique(Filter(rows, where), key, key);
    var r := Fetch(rows, where, key, n);
    SortedUniqueStrict(r, key);
  }

  /**
   * `if (rows.length > limit) nextCursor = rows.pop()?.id`: the page keeps a prefix of the fetched rows;
   * it has a next cursor exactly when more than `limit` rows came back, and that cursor is the id of
   * the popped `limit + 1`-th row.
   */
  function PageOf<T>(fetched: seq<T>, limit: nat, id: T -> int): (p: Page<T>)
    ensures p.nextCursor.Some? <==> |fetched| > limit
    ensures |p.items| <= |fetched| && p.items == fetched[..|p.items|]
    ensures |fetched| <= limit + 1 ==> |p.items| == if |fetched| > limit then limit else |fetched|
    ensures |fetched| == limit + 1 ==> p.nextCursor == Some(id(fetched[limit]))
  {
    if |fetched| > limit then Page(fetched[..|fetched| - 1], Some(id(fetched[|fetched| - 1])))
    else Page(fetched, None)
  }

  /** The routers' `let nextCursor = undefined; if (rows.length > limit) { … rows.pop() … }`. */
  method PopExtra<T>(fetched: seq<T>, limit: nat, id: T -> int) returns (p: Page<T>)
    ensures p == PageOf(fetched, limit, id)
  {
    var rows := fetched;
    var nextCursor: Option<int> := None;
    if |rows| > limit {
      var nextItem := rows[|rows| - 1];
      rows := rows[..|rows| - 1];
      nextCursor := Some(id(nextItem));
    }
    p := Page(rows, nextCursor);
  }

  /** One page of a listing ordered by `key` descending with cursor `id`: fetch `limit + 1` rows, then pop. */
  function ListPage<T>(rows: seq<T>, where: T -> bool, key: T -> int, id: T -> int, limit: nat): (p: Page<T>)
    ensures |p.items| <= limit
    ensures forall i :: 0 <= i < |p.items| ==> p.items[i] in rows && where(p.items[i])
    ensures SortedDesc(p.items, key)
  {
    var fetched := Fetch(rows, where, key, limit + 1);
    PageOf(fetched, limit, id)
  }

  /** Exactly `limit` matching rows fit on one page: there is no next page. */
  lemma ExactFitHasNoNext<T>(rows: seq<T>, where: T -> bool, key: T -> int, id: T -> int, limit: nat)
    requires |Filter(rows, where)| <= limit
    ensures ListPage(rows, where, key, id, limit).nextCursor == None
  {
  }

  /** One more matching row than `limit`: a full page and a next cursor. */
  lemma OverflowHasNext<T>(rows: seq<T>, where: T -> bool, key: T -> int, id: T -> int, limit: nat)
    requires |Filter(rows, where)| > limit
    ensures |ListPage(rows, where, key, id, limit).items| == limit
    ensures ListPage(rows, where, key, id, limit).nextCursor.Some?
  {
  }

  /**
   * As written (`id < cursor` on a listing by id): the popped row, a matching row of the table, lies
   * on neither the page that popped it nor, once the cursor is truthy, on the next page.
   */
  lemma PoppedRowSkipped<T>(rows: seq<T>, keep: T -> bool, id: T -> int, limit: nat, cursor: Option<int>)
    requires UniqueKeys(rows, id)
    requires ListPage(rows, Before(keep, id, cursor), id, id, limit).nextCursor.Some?
    ensures var fetched := Fetch(rows, Before(keep, id, cursor), id, limit + 1);
            var p1 := ListPage(rows, Before(keep, id, cursor), id, id, limit);
            var p2 := ListPage(rows, Before(keep, id, p1.nextCursor), id, id, limit);
            && |fetched| == limit + 1 && fetched[limit] in rows && keep(fetched[limit])
            && p1.nextCursor == Some(id(fetched[limit]))
            && fetched[limit] !in p1.items
            && (Truthy(p1.nextCursor) ==> fetched[limit] !in p2.items)
  {
    var fetched := Fetch(rows, Before(keep, id, cursor), id, limit + 1);
    var p1 := ListPage(rows, Before(keep, id, cursor), id, id, limit);
    var x := fetched[limit];
    assert Before(keep, id, cursor)(x);
    FetchStrict(rows, Before(keep, id, cursor), id, limit + 1);
    forall i | 0 <= i < |p1.items| ensures p1.items[i] != x {
      assert p1.items[i] == fetched[i];
    }
    if Truthy(p1.nextCursor) {
      var p2 := ListPage(rows, Before(keep, id, p1.nextCursor), id, id, limit);
      forall i | 0 <= i < |p2.items| ensures p2.items[i] != x {
        assert Before(keep, id, p1.nextCursor)(p2.items[i]);
      }
    }
  }

  /**
   * Corrected: with the bound `key <= sign * cursor`, every matching row is either on this page or
   * matches the next page's bound (no row is lost), and no row of this page matches it (no row is
   * repeated).
   */
  lemma NextPageContinues<T>(rows: seq<T>, keep: T -> bool, key: T -> int, id: T -> int, sign: int, limit: nat, cursor: Option<int>)
    requires sign == 1 || sign == -1
    requires forall x :: id(x) == sign * key(x)
    requires UniqueKeys(rows, key)
    requires var p1 := ListPage(rows, AtOrAfter(keep, key, sign, cursor), key, id, limit);
             p1.nextCursor.Some? && Truthy(p1.nextCursor)
    ensures var p1 := ListPage(rows, AtOrAfter(keep, key, sign, cursor), key, id, limit);
            var next := AtOrAfter(keep, key, sign, p1.nextCursor);
            && (forall y :: y in rows && AtOrAfter(keep, key, sign, cursor)(y) ==> y in p1.items || next(y))
            && (forall i :: 0 <= i < |p1.items| ==> !next(p1.items[i]))
  {
    var where := AtOrAfter(keep, key, sign, cursor);
    var fetched := Fetch(rows, where, key, limit + 1);
    var p1 := ListPage(rows, where, key, id, limit);
    var x := PoppedRow(rows, keep, key, id, sign, limit, cursor);
    var next := AtOrAfter(keep, key, sign, p1.nextCursor);
    FetchStrict(rows, where, key, limit + 1);
    forall y | y in rows && where(y) ensures y in p1.items || next(y) {
      FetchTop(rows, where, key, limit + 1, y);
      if y in fetched {
        var k :| 0 <= k < |fetched| && fetched[k] == y;
        if k < limit {
          assert p1.items[k] == y;
        } else {
          assert y == x;
        }
      } else {
        assert key(fetched[limit]) >= key(y);
      }
    }
    forall i | 0 <= i < |p1.items| ensures !next(p1.items[i]) {
      assert p1.items[i] == fetched[i];
      assert key(fetched[i]) > key(x);
    }
  }

  /** Corrected, continued: with `limit >= 1` the next page starts with the popped row. */
  lemma NextPageStartsAtPopped<T>(rows: seq<T>, keep: T -> bool, key: T -> int, id: T -> int, sign: int, limit: nat, cursor: Option<int>)
    requires sign == 1 || sign == -1
    requires forall x :: id(x) == sign * key(x)
    requires UniqueKeys(rows, key) && limit >= 1
    requires var p1 := ListPage(rows, AtOrAfter(keep, key, sign, cursor), key, id, limit);
             p1.nextCursor.Some? && Truthy(p1.nextCursor)
    ensures var p1 := ListPage(rows, AtOrAfter(keep, key, sign, cursor), key, id, limit);
            var p2 := ListPage(rows, AtOrAfter(keep, key, sign, p1.nextCursor), key, id, limit);
            |p2.items| >= 1 && p2.items[0] == Fetch(rows, AtOrAfter(keep, key, sign, cursor), key, limit + 1)[limit]
  {
    var p1 := ListPage(rows, AtOrAfter(keep, key, sign, cursor), key, id, limit);
    var x := PoppedRow(rows, keep, key, id, sign, limit, cursor);
    var next := AtOrAfter(keep, key, sign, p1.nextCursor);
    assert next(x);
    forall y | y in rows && next(y) ensures key(y) <= key(x) {
    }
    FetchStartsAtTop(rows, next, key, limit + 1, x);
  }

  /** With unique keys, the first row fetched is the matching row of largest key. */
  lemma FetchStartsAtTop<T>(rows: seq<T>, where: T -> bool, key: T -> int, n: nat, x: T)
    requires UniqueKeys(rows, key) && n >= 1
    requires x in rows && where(x)
    requires forall y :: y in rows && where(y) ==> key(y) <= key(x)
    ensures var f := Fetch(rows, where, key, n);
            |f| >= 1 && f[0] == x
  {
    FetchTop(rows, where, key, n, x);
    var f := Fetch(rows, where, key, n);
    assert |f| >= 1;
    assert key(f[0]) == key(x) by {
      if x in f {
        var k :| 0 <= k < |f| && f[k] == x;
        assert key(f[0]) >= key(f[k]);
      }
    }
    var a :| 0 <= a < |rows| && rows[a] == f[0];
    var b :| 0 <= b < |rows| && rows[b] == x;
    assert a == b;
  }

  /** The row a page popped: a matching row of the table whose `sign * key` is the next cursor. */
  lemma PoppedRow<T>(rows: seq<T>, keep: T -> bool, key: T -> int, id: T -> int, sign: int, limit: nat, cursor: Option<int>)
      returns (x: T)
    requires sign == 1 || sign == -1
    requires forall x :: id(x) == sign * key(x)
    requires ListPage(rows, AtOrAfter(keep, key, sign, cursor), key, id, limit).nextCursor.Some?
    ensures var fetched := Fetch(rows, AtOrAfter(keep, key, sign, cursor), key, limit + 1);
            |fetched| == limit + 1 && x == fetched[limit]
    ensures x in rows && keep(x) && AtOrAfter(keep, key, sign, cursor)(x)
    ensures ListPage(rows, AtOrAfter(keep, key, sign, cursor), key, id, limit).nextCursor == Some(id(x))
    ensures sign * ListPage(rows, AtOrAfter(keep, key, sign, cursor), key, id, limit).nextCursor.value == key(x)
  {
    var fetched := Fetch(rows, AtOrAfter(keep, key, sign, cursor), key, limit + 1);
    x := fetched[limit];
    assert AtOrAfter(keep, key, sign, cursor)(x);
  }
}
