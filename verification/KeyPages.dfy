/**
 * The maintenance walk over active objects (`list_key_page` in `object_meta.rs`). The cursor is only a key, and
 * one key may be in many buckets, so a page must never end partway through a run of equal keys. The database
 * orders by key and breaks ties as it likes, differently in each query.
 */
module KeyPages {
  import opened Common
  import opened Versions

  datatype Object = Object(bucket: string, key: Key)

  datatype Page = Page(rows: seq<Object>, truncated: bool, cursor: Option<Key>)

  /** `key > start_after`; the first page has no lower bound. */
  predicate After(start: Option<Key>, k: Key) {
    start.None? || TextLess(start.value, k)
  }

  predicate NotAfter(k: Key, bound: Key) {
    !TextLess(bound, k)
  }

  predicate Distinct(rows: seq<Object>) {
    forall i, j :: 0 <= i < j < |rows| ==> rows[i] != rows[j]
  }

  predicate SortedByKey(rows: seq<Object>) {
    forall i, j :: 0 <= i < j < |rows| ==> NotAfter(rows[i].key, rows[j].key)
  }

  /** Any answer the database may give to `... WHERE key > start ORDER BY key LIMIT limit`. */
  ghost predicate Answer(objects: set<Object>, start: Option<Key>, limit: nat, rows: seq<Object>) {
    && Distinct(rows) && SortedByKey(rows) && |rows| <= limit
    && (forall i :: 0 <= i < |rows| ==> rows[i] in objects && After(start, rows[i].key))
    && (forall o :: o in objects && After(start, o.key) && o !in rows ==>
          |rows| == limit && forall i :: 0 <= i < |rows| ==> NotAfter(rows[i].key, o.key))
  }

  /** Any answer to the query for every object under one key. */
  ghost predicate RunAnswer(objects: set<Object>, k: Key, rows: seq<Object>) {
    Distinct(rows) && forall o :: o in rows <==> o in objects && o.key == k
  }

  ghost predicate MoreAfter(objects: set<Object>, k: Key) {
    exists o :: o in objects && TextLess(k, o.key)
  }

  /** What a page owes its caller: exactly the objects up to its cursor, and whether any are left. */
  ghost predicate PageOk(objects: set<Object>, start: Option<Key>, page: Page) {
    && Distinct(page.rows)
    && (page.cursor.None? ==> page.rows == [] && !page.truncated && forall o :: o in objects ==> !After(start, o.key))
    && (page.cursor.Some? ==>
          && page.rows != [] && After(start, page.cursor.value)
          && (forall o :: o in page.rows <==>
                o in objects && After(start, o.key) && NotAfter(o.key, page.cursor.value))
          && (page.truncated <==> MoreAfter(objects, page.cursor.value)))
  }

  function EndingAtLastRow(rows: seq<Object>, truncated: bool): Page {
    Page(rows, truncated, if rows == [] then None else Some(rows[|rows| - 1].key))
  }

  lemma CompletePageOk(objects: set<Object>, start: Option<Key>, limit: nat, rows: seq<Object>)
    requires Answer(objects, start, limit + 1, rows) && |rows| <= limit
    ensures PageOk(objects, start, EndingAtLastRow(rows, false))
  {
    if rows != [] {
      var last := rows[|rows| - 1].key;
      TextOrderTotal(last, last);
      forall o | o in objects && After(start, o.key) ensures o in rows && NotAfter(o.key, last) {
        var i :| 0 <= i < |rows| && rows[i] == o;
        assert i == |rows| - 1 || NotAfter(rows[i].key, rows[|rows| - 1].key);
      }
      forall o | o in objects ensures !TextLess(last, o.key) {
        if TextLess(last, o.key) && start.Some? { TextOrderTransitive(start.value, last, o.key); }
      }
    }
  }

  /** Dropping the trailing run of the boundary key leaves every object below the boundary and nothing else. */
  lemma TrimmedIsBelow(objects: set<Object>, start: Option<Key>, limit: nat, rows: seq<Object>, n: nat)
    requires Answer(objects, start, limit, rows) && n < |rows|
    requires forall i :: n <= i < |rows| ==> rows[i].key == rows[|rows| - 1].key
    requires n > 0 ==> rows[n - 1].key != rows[|rows| - 1].key
    ensures forall o :: o in rows[..n] <==>
      o in objects && After(start, o.key) && TextLess(o.key, rows[|rows| - 1].key)
  {
    var boundary := rows[|rows| - 1].key;
    TextOrderTotal(boundary, boundary);
    forall i | 0 <= i < n ensures TextLess(rows[i].key, boundary) {
      TextOrderTotal(rows[i].key, boundary);
      TextOrderTotal(rows[n - 1].key, boundary);
      assert NotAfter(rows[n - 1].key, boundary);
      if i < n - 1 {
        assert NotAfter(rows[i].key, rows[n - 1].key);
        TextOrderTotal(rows[i].key, rows[n - 1].key);
        if rows[i].key != rows[n - 1].key { TextOrderTransitive(rows[i].key, rows[n - 1].key, boundary); }
      }
    }
    forall o | o in objects && After(start, o.key) && TextLess(o.key, boundary) ensures o in rows[..n] {
      TextOrderTotal(o.key, boundary);
      assert o !in rows ==> NotAfter(rows[|rows| - 1].key, o.key);
      var i :| 0 <= i < |rows| && rows[i] == o;
      assert i < n;
      assert rows[..n][i] == o;
    }
  }

  lemma TrimmedPageOk(objects: set<Object>, start: Option<Key>, limit: nat, rows: seq<Object>, n: nat)
    requires Answer(objects, start, limit, rows) && 0 < n < |rows|
    requires forall i :: n <= i < |rows| ==> rows[i].key == rows[|rows| - 1].key
    requires rows[n - 1].key != rows[|rows| - 1].key
    ensures PageOk(objects, start, EndingAtLastRow(rows[..n], true))
  {
    var boundary, last := rows[|rows| - 1].key, rows[n - 1].key;
    TrimmedIsBelow(objects, start, limit, rows, n);
    assert rows[..n][n - 1] == rows[n - 1] && rows[n - 1] in rows[..n];
    assert TextLess(last, boundary);
    assert rows[|rows| - 1] in objects && MoreAfter(objects, last);
    forall o | o in rows[..n] ensures NotAfter(o.key, last) {
      var i :| 0 <= i < n && rows[..n][i] == o;
      TextOrderTotal(last, last);
      assert i == n - 1 || NotAfter(rows[i].key, rows[n - 1].key);
    }
    forall o | o in objects && After(start, o.key) && NotAfter(o.key, last) ensures o in rows[..n] {
      TextOrderTotal(o.key, last);
      if o.key != last { TextOrderTransitive(o.key, last, boundary); }
    }
  }

  lemma RunPageOk(objects: set<Object>, start: Option<Key>, limit: nat, rows: seq<Object>, run: seq<Object>, more: bool)
    requires Answer(objects, start, limit, rows) && rows != []
    requires forall i :: 0 <= i < |rows| ==> rows[i].key == rows[|rows| - 1].key
    requires RunAnswer(objects, rows[|rows| - 1].key, run) && more == MoreAfter(objects, rows[|rows| - 1].key)
    ensures PageOk(objects, start, Page(run, more, Some(rows[|rows| - 1].key)))
  {
    var boundary := rows[|rows| - 1].key;
    TrimmedIsBelow(objects, start, limit, rows, 0);
    assert rows[|rows| - 1] in run;
    forall o | o in objects && After(start, o.key) && NotAfter(o.key, boundary) ensures o in run {
      TextOrderTotal(o.key, boundary);
      assert o !in rows[..0];
    }
    TextOrderTotal(boundary, boundary);
  }

  /**
   * One page. `fetched` is the answer to the query for `limit + 1` rows; `run` and `more` are the answers to the
   * two further queries, made only when the whole page is one run.
   */
  method ListKeyPage(ghost objects: set<Object>, limit: int, start: Option<Key>, fetched: seq<Object>,
                     run: seq<Object>, more: bool) returns (page: Page)
    requires Answer(objects, start, (if limit < 1 then 1 else limit) + 1, fetched)
    requires fetched != [] ==> RunAnswer(objects, fetched[|fetched| - 1].key, run)
                               && more == MoreAfter(objects, fetched[|fetched| - 1].key)
    ensures PageOk(objects, start, page)
    ensures |page.rows| <= (if limit < 1 then 1 else limit) || forall o :: o in page.rows ==> Some(o.key) == page.cursor
    ensures |fetched| <= (if limit < 1 then 1 else limit) ==> page.rows == fetched
    ensures forall o :: o in fetched && o.key != fetched[|fetched| - 1].key ==> o in page.rows
  {
    var most := if limit < 1 then 1 else limit;
    if |fetched| <= most {
      CompletePageOk(objects, start, most, fetched);
      return EndingAtLastRow(fetched, false);
    }
    var boundary := fetched[|fetched| - 1].key;
    var n := |fetched| - 1;
    while n > 0 && fetched[n - 1].key == boundary
      invariant 0 <= n < |fetched|
      invariant forall i :: n <= i < |fetched| ==> fetched[i].key == boundary
    {
      n := n - 1;
    }
    if n == 0 {
      RunPageOk(objects, start, most + 1, fetched, run, more);
      return Page(run, more, Some(boundary));
    }
    TrimmedPageOk(objects, start, most + 1, fetched, n);
    forall o | o in fetched && o.key != boundary ensures o in fetched[..n] {
      var i :| 0 <= i < |fetched| && fetched[i] == o;
      assert fetched[..n][i] == o;
    }
    return EndingAtLastRow(fetched[..n], true);
  }

  // ---------------------------------------------------------------- the whole walk

  /** Pages each resumed from the one before; all but the last say more follows. */
  ghost predicate Walk(objects: set<Object>, start: Option<Key>, pages: seq<Page>)
    decreases |pages|
  {
    && pages != [] && PageOk(objects, start, pages[0])
    && (if |pages| == 1 then !pages[0].truncated
        else pages[0].truncated && pages[0].cursor.Some? && Walk(objects, pages[0].cursor, pages[1..]))
  }

  function Rows(pages: seq<Page>): seq<Object> {
    if pages == [] then [] else pages[0].rows + Rows(pages[1..])
  }

  /** A complete walk visits every object after its start once, and nothing else. */
  lemma {:induction false} WalkVisitsOnce(objects: set<Object>, start: Option<Key>, pages: seq<Page>)
    requires Walk(objects, start, pages)
    ensures Distinct(Rows(pages))
    ensures forall o :: o in Rows(pages) <==> o in objects && After(start, o.key)
    decreases |pages|
  {
    var page := pages[0];
    if |pages| == 1 {
      assert Rows(pages[1..]) == [] && Rows(pages) == page.rows;
      forall o | o in objects && After(start, o.key) ensures o in page.rows {
        assert page.cursor.Some? ==> !TextLess(page.cursor.value, o.key);
      }
    } else {
      var c := page.cursor.value;
      WalkVisitsOnce(objects, page.cursor, pages[1..]);
      forall o | o in objects && TextLess(c, o.key) ensures After(start, o.key) {
        if start.Some? { TextOrderTransitive(start.value, c, o.key); }
      }
      forall i, j | 0 <= i < |page.rows| && 0 <= j < |Rows(pages[1..])| ensures page.rows[i] != Rows(pages[1..])[j] {
        assert page.rows[i] in page.rows && Rows(pages[1..])[j] in Rows(pages[1..]);
      }
    }
  }

  /** A run of pages that all say more follows cannot be longer than the number of objects left. */
  ghost predicate Unfinished(objects: set<Object>, start: Option<Key>, pages: seq<Page>)
    decreases |pages|
  {
    pages == [] || (PageOk(objects, start, pages[0]) && pages[0].truncated && pages[0].cursor.Some?
                    && Unfinished(objects, pages[0].cursor, pages[1..]))
  }

  ghost function Left(objects: set<Object>, start: Option<Key>): set<Object> {
    set o | o in objects && After(start, o.key)
  }

  lemma {:induction false} WalkTerminates(objects: set<Object>, start: Option<Key>, pages: seq<Page>)
    requires Unfinished(objects, start, pages)
    ensures |pages| <= |Left(objects, start)|
    decreases |pages|
  {
    if pages != [] {
      var page := pages[0];
      var before, after := Left(objects, start), Left(objects, page.cursor);
      WalkTerminates(objects, page.cursor, pages[1..]);
      forall o | o in after ensures o in before {
        if start.Some? { TextOrderTransitive(start.value, page.cursor.value, o.key); }
      }
      var first := page.rows[0];
      assert first in page.rows && first in before && first !in after;
      SubsetSize(after, before - {first});
    }
  }

  lemma {:induction false} SubsetSize<T>(a: set<T>, b: set<T>)
    requires a <= b
    ensures |a| <= |b|
    decreases a
  {
    if a != {} {
      var x :| x in a;
      SubsetSize(a - {x}, b - {x});
    }
  }
}
