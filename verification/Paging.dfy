/**
 * Keyset pagination of the public disclosures of an anchor: newest review first, then by flag id, with one row more
 * than the page asked for to tell whether there is a next page.
 */
module Paging {
  import opened Outcomes
  import opened Sorting
  import opened TextOrder
  import opened Totals
  import opened Keys

  datatype Row = Row(reviewedAt: int, flagId: string, detail: string)

  datatype Cursor = Cursor(reviewedAt: int, flagId: string)

  datatype Page = Page(rows: seq<Row>, next: Option<Cursor>)

  const MAXIMUM_LIMIT: int := 100

  function CursorOf(r: Row): Cursor { Cursor(r.reviewedAt, r.flagId) }

  function RowKey(): Row -> Cursor { (r: Row) => CursorOf(r) }

  /** The condition of the query: strictly behind the cursor. */
  predicate Behind(c: Option<Cursor>, r: Row) {
    c.Some? ==>
      r.reviewedAt < c.value.reviewedAt || (r.reviewedAt == c.value.reviewedAt && Less(c.value.flagId, r.flagId))
  }

  function IfBehind(c: Option<Cursor>): Row -> seq<Row> { (r: Row) => if Behind(c, r) then [r] else [] }

  /** Descending time, ascending id. */
  function Order(): (Row, Row) -> bool {
    (a: Row, b: Row) => a.reviewedAt > b.reviewedAt || (a.reviewedAt == b.reviewedAt && AtMost(a.flagId, b.flagId))
  }

  function Candidates(rows: seq<Row>, c: Option<Cursor>): seq<Row> { Sort(Collect(rows, IfBehind(c)), Order()) }

  /** None stands for the error when the limit is out of range. */
  function Query(rows: seq<Row>, c: Option<Cursor>, limit: int): Option<Page> {
    if limit < 1 || limit > MAXIMUM_LIMIT then None
    else
      var found := Candidates(rows, c);
      var fetched := if |found| > limit + 1 then found[..limit + 1] else found;
      var page := if |fetched| > limit then fetched[..limit] else fetched;
      Some(Page(page, if |fetched| > limit then Some(CursorOf(page[|page| - 1])) else None))
  }

  predicate UniqueKeys(rows: seq<Row>) { DistinctBy(rows, RowKey()) }

  // ---- The order ---------------------------------------------------------------------------------

  lemma {:induction false} OrderIsTotal()
    ensures TotalPreorder(Order())
  {
    AtMostIsTotal();
  }

  /** Behind a row's cursor come exactly the rows with another key that the order puts after it. */
  lemma {:induction false} BehindExactly(a: Row, b: Row)
    ensures Behind(Some(CursorOf(a)), b) <==> Order()(a, b) && CursorOf(a) != CursorOf(b)
  {
    Trichotomy(a.flagId, b.flagId);
  }

  lemma {:induction false} BehindTransitive(c: Option<Cursor>, a: Row, b: Row)
    requires Behind(c, a) && Behind(Some(CursorOf(a)), b)
    ensures Behind(c, b)
  {
    if c.Some? && c.value.reviewedAt == a.reviewedAt && a.reviewedAt == b.reviewedAt {
      Transitive(c.value.flagId, a.flagId, b.flagId);
    }
  }

  // ---- Candidates --------------------------------------------------------------------------------

  /** Ordered rows with unique keys: each comes strictly behind those before it. */
  predicate Strict(s: seq<Row>) { forall i, j | 0 <= i < j < |s| :: Behind(Some(CursorOf(s[i])), s[j]) }

  lemma {:induction false} NotBehindItself(r: Row)
    ensures !Behind(Some(CursorOf(r)), r)
  {
    Trichotomy(r.flagId, r.flagId);
  }

  lemma {:induction false} StrictUniqueKeys(s: seq<Row>)
    requires Strict(s)
    ensures UniqueKeys(s)
  {
    forall i, j | 0 <= i < j < |s| ensures RowKey()(s[i]) != RowKey()(s[j]) { NotBehindItself(s[i]); }
  }

  lemma {:induction false} CandidatesExactly(rows: seq<Row>, c: Option<Cursor>)
    requires UniqueKeys(rows)
    ensures Strict(Candidates(rows, c))
    ensures forall r :: r in Candidates(rows, c) <==> r in rows && Behind(c, r)
  {
    var kept, found := Collect(rows, IfBehind(c)), Candidates(rows, c);
    OrderIsTotal();
    SortCorrect(kept, Order());
    forall r ensures r in found <==> r in rows && Behind(c, r) {
      assert r in multiset(found) <==> r in multiset(kept);
      SelectedExactly(rows, IfBehind(c), r);
    }
    SelectionDistinct(rows, IfBehind(c), RowKey());
    DistinctForgetsOrder(kept, found, RowKey());
    forall i, j | 0 <= i < j < |found| ensures Behind(Some(CursorOf(found[i])), found[j]) {
      assert RowKey()(found[i]) != RowKey()(found[j]);
      BehindExactly(found[i], found[j]);
    }
  }

  /** Two strict listings of the same rows are the same. */
  lemma {:induction false} StrictUnique(s: seq<Row>, t: seq<Row>)
    requires Strict(s) && Strict(t) && forall r :: r in s <==> r in t
    ensures s == t
  {
    StrictUniqueKeys(s);
    StrictUniqueKeys(t);
    forall r ensures multiset(s)[r] == multiset(t)[r] {
      OnceInMultiset(s, RowKey(), r);
      OnceInMultiset(t, RowKey(), r);
      assert r in multiset(s) <==> r in s;
      assert r in multiset(t) <==> r in t;
    }
    assert multiset(s) == multiset(t);
    StrictSorted(s);
    StrictSorted(t);
    SortedUnique(s, t, Order());
  }

  lemma {:induction false} StrictSorted(s: seq<Row>)
    requires Strict(s)
    ensures SortedBy(s, Order()) && Antisymmetric(s, Order())
  {
    forall i, j | 0 <= i < j < |s| ensures Order()(s[i], s[j]) { BehindExactly(s[i], s[j]); }
    forall a, b | a in s && b in s && Order()(a, b) && Order()(b, a) ensures a == b {
      var i :| 0 <= i < |s| && s[i] == a;
      var j :| 0 <= j < |s| && s[j] == b;
      if i < j { BehindExactly(b, a); BehindExactly(a, b); NotBoth(a, b); }
      if j < i { BehindExactly(b, a); BehindExactly(a, b); NotBoth(b, a); }
    }
  }

  lemma {:induction false} NotBoth(a: Row, b: Row)
    ensures !(Behind(Some(CursorOf(a)), b) && Order()(b, a))
  {
    Trichotomy(a.flagId, b.flagId);
  }

  // ---- Following the cursor ----------------------------------------------------------------------

  /** In a strict listing the rows behind one of them are those that follow it. */
  lemma {:induction false} BehindIsAfter(found: seq<Row>, n: nat, r: Row)
    requires Strict(found) && 0 < n <= |found|
    ensures r in found[n..] <==> r in found && Behind(Some(CursorOf(found[n - 1])), r)
  {
    if r in found[n..] {
      var i :| n <= i < |found| && found[i] == r;
      assert Behind(Some(CursorOf(found[n - 1])), found[i]);
    }
    if r in found && Behind(Some(CursorOf(found[n - 1])), r) {
      var i :| 0 <= i < |found| && found[i] == r;
      NotAhead(found, i, n - 1);
      assert found[n..][i - n] == r;
    }
  }

  /** What a page leaves is what the query behind its last row finds. */
  lemma {:induction false} PageLeavesRest(rows: seq<Row>, c: Option<Cursor>, n: nat)
    requires UniqueKeys(rows) && 0 < n <= |Candidates(rows, c)|
    ensures Candidates(rows, Some(CursorOf(Candidates(rows, c)[n - 1]))) == Candidates(rows, c)[n..]
  {
    var found := Candidates(rows, c);
    var last := found[n - 1];
    var next := Some(CursorOf(last));
    CandidatesExactly(rows, c);
    CandidatesExactly(rows, next);
    assert last in found;
    forall r ensures r in Candidates(rows, next) <==> r in found[n..] {
      BehindIsAfter(found, n, r);
      if r in Candidates(rows, next) { BehindTransitive(c, last, r); }
    }
    StrictUnique(Candidates(rows, next), found[n..]);
  }

  /** A row that comes before another, or is it, does not come behind it. */
  lemma {:induction false} NotAhead(s: seq<Row>, i: nat, k: nat)
    requires Strict(s) && i < |s| && k < |s| && Behind(Some(CursorOf(s[k])), s[i])
    ensures i > k
  {
    if i == k {
      NotBehindItself(s[k]);
    } else if i < k {
      BehindExactly(s[k], s[i]);
      NotBoth(s[i], s[k]);
    }
  }

  lemma {:induction false} QueryShape(rows: seq<Row>, c: Option<Cursor>, limit: int)
    requires 1 <= limit <= MAXIMUM_LIMIT && |Candidates(rows, c)| > limit
    ensures Query(rows, c, limit) == Some(Page(Candidates(rows, c)[..limit], Some(CursorOf(Candidates(rows, c)[limit - 1]))))
  {
    var found := Candidates(rows, c);
    var fetched := if |found| > limit + 1 then found[..limit + 1] else found;
    assert fetched[..limit] == found[..limit];
  }

  /** All pages, from a cursor until there is no next one. */
  function Pages(rows: seq<Row>, c: Option<Cursor>, limit: int, fuel: nat): seq<seq<Row>>
    requires 1 <= limit <= MAXIMUM_LIMIT
    decreases fuel
  {
    var page := Query(rows, c, limit).value;
    if page.next.None? || fuel == 0 then [page.rows] else [page.rows] + Pages(rows, page.next, limit, fuel - 1)
  }

  function Flat(pages: seq<seq<Row>>): seq<Row> { if pages == [] then [] else pages[0] + Flat(pages[1..]) }

  lemma {:induction false} LastPage(rows: seq<Row>, c: Option<Cursor>, limit: int, fuel: nat)
    requires 1 <= limit <= MAXIMUM_LIMIT && |Candidates(rows, c)| <= limit
    ensures Pages(rows, c, limit, fuel) == [Candidates(rows, c)]
  {}

  lemma {:induction false} MorePages(rows: seq<Row>, c: Option<Cursor>, limit: int, fuel: nat)
    requires 1 <= limit <= MAXIMUM_LIMIT && |Candidates(rows, c)| > limit && fuel > 0
    ensures var found := Candidates(rows, c);
      Pages(rows, c, limit, fuel) == [found[..limit]] + Pages(rows, Some(CursorOf(found[limit - 1])), limit, fuel - 1)
  {
    QueryShape(rows, c, limit);
  }

  lemma {:induction false} FlatMore(page: seq<Row>, rest: seq<seq<Row>>)
    ensures Flat([page] + rest) == page + Flat(rest)
  {
    assert ([page] + rest)[1..] == rest;
  }

  lemma {:induction false} FlatOne(page: seq<Row>)
    ensures Flat([page]) == page
  {
    FlatMore(page, []);
    assert [page] + [] == [page];
  }

  /** Following the cursor ends after no more turns than rows, having listed everything behind it. */
  lemma {:induction false} PagesEnd(rows: seq<Row>, c: Option<Cursor>, limit: int, fuel: nat)
    requires UniqueKeys(rows) && 1 <= limit <= MAXIMUM_LIMIT && fuel >= |Candidates(rows, c)|
    ensures Flat(Pages(rows, c, limit, fuel)) == Candidates(rows, c)
    decreases fuel, 1
  {
    if |Candidates(rows, c)| <= limit {
      LastPage(rows, c, limit, fuel);
      FlatOne(Candidates(rows, c));
    } else {
      MorePages(rows, c, limit, fuel);
      PageLeavesRest(rows, c, limit);
      NextPagesEnd(rows, Candidates(rows, c), limit, fuel);
    }
  }

  lemma {:induction false} NextPagesEnd(rows: seq<Row>, found: seq<Row>, limit: int, fuel: nat)
    requires UniqueKeys(rows) && 1 <= limit <= MAXIMUM_LIMIT && limit < |found| <= fuel
    requires Candidates(rows, Some(CursorOf(found[limit - 1]))) == found[limit..]
    ensures Flat([found[..limit]] + Pages(rows, Some(CursorOf(found[limit - 1])), limit, fuel - 1)) == found
    decreases fuel, 0
  {
    PagesEnd(rows, Some(CursorOf(found[limit - 1])), limit, fuel - 1);
    FlatMore(found[..limit], Pages(rows, Some(CursorOf(found[limit - 1])), limit, fuel - 1));
    assert found == found[..limit] + found[limit..];
  }

  /** A page is refused exactly for a limit out of range; it holds as many rows as it may, and a cursor if more are left. */
  lemma {:induction false} QueryExactly(rows: seq<Row>, c: Option<Cursor>, limit: int)
    requires UniqueKeys(rows)
    ensures Query(rows, c, limit).None? <==> limit < 1 || 100 < limit
    ensures Query(rows, c, limit).Some? ==>
              var page, found := Query(rows, c, limit).value, Candidates(rows, c);
              && page.rows == (if |found| <= limit then found else found[..limit])
              && page.next == (if |found| <= limit then None else Some(Cursor(found[limit - 1].reviewedAt, found[limit - 1].flagId)))
              && forall r :: r in found <==> r in rows && (c.Some? ==>
                               r.reviewedAt < c.value.reviewedAt || (r.reviewedAt == c.value.reviewedAt && Less(c.value.flagId, r.flagId)))
  {
    CandidatesExactly(rows, c);
  }

  /**
   * For every page size the pages concatenate to the whole list, newest first and then by id, each row exactly once.
   */
  lemma {:induction false} PagesAreComplete(rows: seq<Row>, limit: int)
    requires UniqueKeys(rows) && 1 <= limit <= MAXIMUM_LIMIT
    ensures var all := Flat(Pages(rows, None, limit, |rows|));
      && multiset(all) == multiset(rows)
      && forall i, j | 0 <= i < j < |all| ::
           all[i].reviewedAt > all[j].reviewedAt || (all[i].reviewedAt == all[j].reviewedAt && Less(all[i].flagId, all[j].flagId))
  {
    CandidatesExactly(rows, None);
    var found := Candidates(rows, None);
    StrictUniqueKeys(found);
    forall r ensures multiset(found)[r] == multiset(rows)[r] {
      OnceInMultiset(found, RowKey(), r);
      OnceInMultiset(rows, RowKey(), r);
      assert r in multiset(found) <==> r in found;
      assert r in multiset(rows) <==> r in rows;
    }
    assert multiset(found) == multiset(rows);
    assert |multiset(found)| == |found| && |multiset(rows)| == |rows|;
    PagesEnd(rows, None, limit, |rows|);
  }

  /** Rows that arrive meanwhile do not disturb the pages already fetched or repeat a row: only later keys are read. */
  lemma {:induction false} LaterPagesDoNotRepeat(rows: seq<Row>, more: seq<Row>, c: Option<Cursor>, limit: int, r: Row)
    requires UniqueKeys(rows) && UniqueKeys(more) && 1 <= limit <= MAXIMUM_LIMIT
    requires Query(rows, c, limit).value.next.Some? && r in Query(rows, c, limit).value.rows
    ensures r !in Candidates(more, Query(rows, c, limit).value.next)
  {
    var found := Candidates(rows, c);
    CandidatesExactly(rows, c);
    CandidatesExactly(more, Query(rows, c, limit).value.next);
    var i :| 0 <= i < limit && found[i] == r;
    if Behind(Some(CursorOf(found[limit - 1])), found[i]) { NotAhead(found, i, limit - 1); }
  }
}
