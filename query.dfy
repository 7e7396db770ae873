/**
 * What the SQLAlchemy queries of the registry modules compute over a table,
 * the table being the sequence of its rows in insertion (rowid) order:
 * `filter` keeps the rows satisfying a condition, `first()` is the first row
 * left or None, `offset(skip).limit(n)` is a window of the rows.
 */
module Query {
  import opened Wrappers

  /** `query.filter(p)`: the rows satisfying p, in table order. */
  function Filter<T(!new)>(rows: seq<T>, p: T -> bool): (r: seq<T>)
    ensures |r| <= |rows|
    ensures forall x :: x in r <==> x in rows && p(x)
  {
    if rows == [] then []
    else if p(rows[0]) then [rows[0]] + Filter(rows[1..], p)
    else Filter(rows[1..], p)
  }

  /** Filtering distributes over the two halves of a table. */
  lemma {:induction false} FilterAppend<T(!new)>(a: seq<T>, b: seq<T>, p: T -> bool)
    ensures Filter(a + b, p) == Filter(a, p) + Filter(b, p)
  {
    if a != [] {
      assert (a + b)[1..] == a[1..] + b;
      FilterAppend(a[1..], b, p);
    } else {
      assert a + b == b;
    }
  }

  /**
   * The id SQLite gives a new row of a table with an INTEGER PRIMARY KEY:
   * one more than the largest id in use, 1 for an empty table.
   */
  function NextRowId<T>(rows: seq<T>, id: T -> nat): (n: nat)
    ensures n >= 1
    ensures forall j :: 0 <= j < |rows| ==> id(rows[j]) < n
    ensures n == 1 || exists j :: 0 <= j < |rows| && id(rows[j]) == n - 1
  {
    if rows == [] then 1
    else
      var init := rows[..|rows| - 1];
      var n := NextRowId(init, id);
      var last := id(rows[|rows| - 1]);
      assert forall j :: 0 <= j < |init| ==> init[j] == rows[j];
      if last >= n then last + 1 else n
  }

  /** `query.first()`: the first row of the query, or None. */
  function First<T>(rows: seq<T>): (r: Option<T>)
    ensures r.None? <==> rows == []
    ensures r.Some? ==> r.value == rows[0]
  {
    if rows == [] then None else Some(rows[0])
  }

  /** Index of the first row satisfying p, |rows| if there is none. */
  function FirstIndex<T>(rows: seq<T>, p: T -> bool): (k: nat)
    ensures k <= |rows|
    ensures k < |rows| ==> p(rows[k])
    ensures forall j :: 0 <= j < k ==> !p(rows[j])
  {
    if rows == [] then 0
    else if p(rows[0]) then 0
    else 1 + FirstIndex(rows[1..], p)
  }

  /** `filter(p).first()` is the first row that satisfies p. */
  lemma {:induction false} FilterFirst<T(!new)>(rows: seq<T>, p: T -> bool)
    ensures var k := FirstIndex(rows, p);
            First(Filter(rows, p)) == if k < |rows| then Some(rows[k]) else None
  {
    if rows != [] && !p(rows[0]) {
      FilterFirst(rows[1..], p);
    }
  }

  /** Three successive `filter` calls keep exactly the rows satisfying all three conditions. */
  lemma {:induction false} FilterThree<T(!new)>(rows: seq<T>, p: T -> bool, q: T -> bool, r: T -> bool, all: T -> bool)
    requires forall j :: 0 <= j < |rows| ==> all(rows[j]) == (p(rows[j]) && q(rows[j]) && r(rows[j]))
    ensures Filter(Filter(Filter(rows, p), q), r) == Filter(rows, all)
  {
    if rows != [] {
      FilterThree(rows[1..], p, q, r, all);
    }
  }

  /** Filtering with a condition no row satisfies leaves nothing. */
  lemma {:induction false} FilterNone<T(!new)>(rows: seq<T>, p: T -> bool)
    requires forall j :: 0 <= j < |rows| ==> !p(rows[j])
    ensures Filter(rows, p) == []
  {
    if rows != [] {
      FilterNone(rows[1..], p);
    }
  }

  /** Filtering with a condition every row satisfies changes nothing. */
  lemma {:induction false} FilterAll<T(!new)>(rows: seq<T>, p: T -> bool)
    requires forall j :: 0 <= j < |rows| ==> p(rows[j])
    ensures Filter(rows, p) == rows
  {
    if rows != [] {
      FilterAll(rows[1..], p);
    }
  }

  /** Filtering out the one row at index k that fails p removes exactly that row. */
  lemma {:induction false} FilterDropsOne<T(!new)>(rows: seq<T>, p: T -> bool, k: nat)
    requires k < |rows| && !p(rows[k])
    requires forall j :: 0 <= j < |rows| && j != k ==> p(rows[j])
    ensures Filter(rows, p) == rows[..k] + rows[k + 1..]
  {
    var before, after := rows[..k], rows[k + 1..];
    assert rows == before + ([rows[k]] + after);
    FilterAppend(before, [rows[k]] + after, p);
    FilterAppend([rows[k]], after, p);
    assert [rows[k]][1..] == [];
    FilterAll(before, p);
    assert forall j :: 0 <= j < |after| ==> after[j] == rows[k + 1 + j];
    FilterAll(after, p);
  }

  function Min(a: int, b: int): int { if a <= b then a else b }

  /** `offset(skip).limit(limit)`: at most `limit` rows, starting at row `skip`. */
  function Window<T>(rows: seq<T>, skip: nat, limit: nat): (r: seq<T>)
    ensures |r| == if skip >= |rows| then 0 else Min(limit, |rows| - skip)
    ensures forall j :: 0 <= j < |r| ==> skip + j < |rows| && r[j] == rows[skip + j]
  {
    rows[Min(skip, |rows|)..Min(skip + limit, |rows|)]
  }

  /** Two consecutive windows make up the window that spans both. */
  lemma WindowConcat<T>(rows: seq<T>, skip: nat, a: nat, b: nat)
    ensures Window(rows, skip, a) + Window(rows, skip + a, b) == Window(rows, skip, a + b)
  {
    var n := |rows|;
    var lo, mid, hi := Min(skip, n), Min(skip + a, n), Min(skip + a + b, n);
    assert Min(skip + a, n) == mid;
    assert rows[lo..mid] + rows[mid..hi] == rows[lo..hi];
  }

  /** Paging through the table from row 0 with pages of `limit` rows visits every row once, in order. */
  lemma {:induction false} PagesCoverTable<T>(rows: seq<T>, limit: nat, pages: nat)
    requires limit > 0 && pages * limit >= |rows|
    ensures Pages(rows, 0, limit, pages) == rows
  {
    PagesFrom(rows, 0, limit, pages);
    assert rows[0..] == rows;
  }

  /** The concatenation of `pages` consecutive windows of `limit` rows starting at `skip`. */
  function Pages<T>(rows: seq<T>, skip: nat, limit: nat, pages: nat): seq<T>
    decreases pages
  {
    if pages == 0 then [] else Window(rows, skip, limit) + Pages(rows, skip + limit, limit, pages - 1)
  }

  lemma {:induction false} PagesFrom<T>(rows: seq<T>, skip: nat, limit: nat, pages: nat)
    requires limit > 0 && skip <= |rows| && skip + pages * limit >= |rows|
    ensures Pages(rows, skip, limit, pages) == rows[skip..]
    decreases pages
  {
    if pages == 0 {
    } else if skip + limit >= |rows| {
      PagesEmpty(rows, skip + limit, limit, pages - 1);
    } else {
      PagesFrom(rows, skip + limit, limit, pages - 1);
      assert rows[skip..skip + limit] + rows[skip + limit..] == rows[skip..];
    }
  }

  lemma {:induction false} PagesEmpty<T>(rows: seq<T>, skip: nat, limit: nat, pages: nat)
    requires skip >= |rows|
    ensures Pages(rows, skip, limit, pages) == []
    decreases pages
  {
    if pages > 0 {
      PagesEmpty(rows, skip + limit, limit, pages - 1);
    }
  }
}
