/**
 * What `GET /items` promises, stated independently of how the query is
 * built: which rows pass the filters, which of them form a page, and what
 * each page entry holds. The table has no defined row order, so the order in
 * which the database scans it is a parameter.
 */
module Listing {
  import opened Wrappers
  import opened Errors
  import opened Text
  import opened Documents

  /** The defaults the route declares for `page` and `page_size`. */
  const DefaultPage := 1
  const DefaultPageSize := 20

  function Min(a: int, b: int): int
  {
    if a <= b then a else b
  }

  /**
   * The text a filter parameter contributes: its stripped value, and nothing
   * when the parameter is absent, empty or only whitespace.
   */
  function Needle(param: Option<string>): (r: Option<string>)
    ensures r.Some? <==> param.Some? && !AllSpace(param.value)
    ensures r.Some? ==> r.value == Strip(param.value) && r.value != []
  {
    if param.Some? && Strip(param.value) != [] then Some(Strip(param.value)) else None
  }

  /** A present field containing the needle; a missing field never matches. */
  predicate FieldHas(field: Option<string>, needle: string, has: Matcher)
  {
    field.Some? && has(field.value, needle)
  }

  /** The `q` predicate: the name, the work base or the work occupation contains the needle. */
  predicate QueryHit(d: Doc, needle: string, has: Matcher)
  {
    FieldHas(d.name, needle, has) || FieldHas(WorkBase(d), needle, has) || FieldHas(WorkOccupation(d), needle, has)
  }

  /** A document passes the filters when it passes every predicate an active filter adds. */
  predicate Selected(d: Doc, f: Filters, has: Matcher)
  {
    && (Needle(f.q).Some? ==> QueryHit(d, Needle(f.q).value, has))
    && (Needle(f.base).Some? ==> FieldHas(WorkBase(d), Needle(f.base).value, has))
    && (Needle(f.occupation).Some? ==> FieldHas(WorkOccupation(d), Needle(f.occupation).value, has))
  }

  /** No id occurs twice. */
  predicate Distinct(s: seq<int>)
  {
    forall i, j :: 0 <= i < j < |s| ==> s[i] != s[j]
  }

  /** `order` lists every key of the table exactly once: a scan of the table. */
  predicate IsEnumeration(order: seq<int>, keys: set<int>)
  {
    && (forall i :: 0 <= i < |order| ==> order[i] in keys)
    && (forall id :: id in keys ==> id in order)
    && Distinct(order)
  }

  /** `[id]` when row `id` exists and passes the filters, otherwise `[]`. */
  function Keep(rows: map<int, Doc>, id: int, f: Filters, has: Matcher): seq<int>
  {
    if id in rows && Selected(rows[id], f, has) then [id] else []
  }

  /** The ids, in scan order, of the rows that pass the filters. */
  function Matching(rows: map<int, Doc>, order: seq<int>, f: Filters, has: Matcher): (ids: seq<int>)
    ensures |ids| <= |order|
    ensures forall i :: 0 <= i < |ids| ==> ids[i] in rows && ids[i] in order && Selected(rows[ids[i]], f, has)
  {
    if order == [] then []
    else Keep(rows, order[0], f, has) + Matching(rows, order[1..], f, has)
  }

  /** `LIMIT limit OFFSET offset`: at most `limit` elements of `s`, starting at position `offset`. */
  function Window(s: seq<int>, offset: nat, limit: nat): (w: seq<int>)
    ensures |w| == if offset >= |s| then 0 else Min(limit, |s| - offset)
    ensures forall i :: 0 <= i < |w| ==> w[i] == s[offset + i]
  {
    if offset >= |s| then [] else s[offset..Min(offset + limit, |s|)]
  }

  /** The list entries for the rows `ids`. */
  function Summaries(rows: map<int, Doc>, ids: seq<int>): seq<ListItem>
    requires forall i :: 0 <= i < |ids| ==> ids[i] in rows
  {
    seq(|ids|, i requires 0 <= i < |ids| => Summary(ids[i], rows[ids[i]]))
  }

  /**
   * The response of `GET /items`. A negative `LIMIT` or `OFFSET` is refused by
   * the database; otherwise the response echoes the raw parameters and holds
   * at most `pageSize` entries, each the id, name and image of a stored row
   * that passes the filters.
   */
  function ListPage(rows: map<int, Doc>, order: seq<int>, page: int, pageSize: int, f: Filters,
                    has: Matcher): (r: Result<ListResponse, Error>)
    ensures r.Failure? <==> pageSize < 0 || (page - 1) * pageSize < 0
    ensures r.Failure? ==> r.error == DatabaseError
    ensures r.Success? ==> r.value.page == page && r.value.pageSize == pageSize && r.value.filters == f
    ensures r.Success? ==> |r.value.items| <= pageSize
    ensures r.Success? ==> forall i :: 0 <= i < |r.value.items| ==>
      var it := r.value.items[i];
      it.id in rows && it == Summary(it.id, rows[it.id]) && Selected(rows[it.id], f, has)
  {
    var offset := (page - 1) * pageSize;
    if pageSize < 0 || offset < 0 then Failure(DatabaseError)
    else
      var ids := Window(Matching(rows, order, f, has), offset, pageSize);
      Success(ListResponse(page, pageSize, f, Summaries(rows, ids)))
  }

  /** A page holds the matching rows from position `(page - 1) * pageSize` on, as many as fit. */
  lemma PageHoldsMatchesFromOffset(rows: map<int, Doc>, order: seq<int>, page: int, pageSize: int,
                                   f: Filters, has: Matcher)
    requires ListPage(rows, order, page, pageSize, f, has).Success?
    ensures var m := Matching(rows, order, f, has);
      var offset := (page - 1) * pageSize;
      var items := ListPage(rows, order, page, pageSize, f, has).value.items;
      && |items| == (if offset >= |m| then 0 else Min(pageSize, |m| - offset))
      && forall i :: 0 <= i < |items| ==> items[i] == Summary(m[offset + i], rows[m[offset + i]])
  {
    var m := Matching(rows, order, f, has);
    var offset := (page - 1) * pageSize;
    var ids := Window(m, offset, pageSize);
    assert ListPage(rows, order, page, pageSize, f, has).value.items == Summaries(rows, ids);
  }

  /** A row id is matched exactly when it is scanned, stored and passes the filters. */
  lemma {:induction false} MatchingExact(rows: map<int, Doc>, order: seq<int>, f: Filters, has: Matcher, id: int)
    ensures id in Matching(rows, order, f, has) <==> id in order && id in rows && Selected(rows[id], f, has)
  {
    if order != [] {
      MatchingExact(rows, order[1..], f, has, id);
      assert order == [order[0]] + order[1..];
    }
  }

  /**
   * Matching keeps scan order: the matches of a scan that visits `a` and then
   * `b` are the matches in `a` followed by the matches in `b`.
   */
  lemma {:induction false} MatchingAppend(rows: map<int, Doc>, a: seq<int>, b: seq<int>, f: Filters, has: Matcher)
    ensures Matching(rows, a + b, f, has) == Matching(rows, a, f, has) + Matching(rows, b, f, has)
  {
    if a != [] {
      assert (a + b)[1..] == a[1..] + b;
      MatchingAppend(rows, a[1..], b, f, has);
    } else {
      assert a + b == b;
    }
  }

  /** A scan of one row matches that row exactly when it is stored and passes the filters. */
  lemma MatchingOne(rows: map<int, Doc>, id: int, f: Filters, has: Matcher)
    ensures Matching(rows, [id], f, has) == if id in rows && Selected(rows[id], f, has) then [id] else []
  {
    assert [id][1..] == [];
  }

  /** Over a scan of the table, the matched ids are exactly the stored rows that pass the filters. */
  lemma MatchingOfTable(rows: map<int, Doc>, order: seq<int>, f: Filters, has: Matcher, id: int)
    requires IsEnumeration(order, rows.Keys)
    ensures id in Matching(rows, order, f, has) <==> id in rows && Selected(rows[id], f, has)
  {
    MatchingExact(rows, order, f, has, id);
  }

  /** A scan that visits each row once matches each row at most once. */
  lemma {:induction false} MatchingDistinct(rows: map<int, Doc>, order: seq<int>, f: Filters, has: Matcher)
    requires Distinct(order)
    ensures Distinct(Matching(rows, order, f, has))
  {
    if order != [] {
      assert Distinct(order[1..]) by {
        forall i, j | 0 <= i < j < |order[1..]| ensures order[1..][i] != order[1..][j] {
          assert order[1..][i] == order[i + 1] && order[1..][j] == order[j + 1];
        }
      }
      MatchingDistinct(rows, order[1..], f, has);
      var head, tail := Keep(rows, order[0], f, has), Matching(rows, order[1..], f, has);
      forall k | 0 <= k < |tail| ensures tail[k] != order[0] {
        var j :| 0 <= j < |order[1..]| && order[1..][j] == tail[k];
        assert order[j + 1] == tail[k];
      }
      var m := head + tail;
      forall i, j | 0 <= i < j < |m| ensures m[i] != m[j] {
        if i >= |head| {
          assert m[i] == tail[i - |head|] && m[j] == tail[j - |head|];
          assert 0 <= i - |head| < j - |head| < |tail|;
          assert tail[i - |head|] != tail[j - |head|];
        } else {
          assert head == [order[0]];
          assert m[i] == order[0] && m[j] == tail[j - 1];
        }
      }
    }
  }

  /** Filters that behave alike on every document select the same rows in the same order. */
  lemma {:induction false} MatchingCongruent(rows: map<int, Doc>, order: seq<int>, f: Filters, g: Filters,
                                             has: Matcher)
    requires forall d :: Selected(d, f, has) == Selected(d, g, has)
    ensures Matching(rows, order, f, has) == Matching(rows, order, g, has)
  {
    if order != [] {
      MatchingCongruent(rows, order[1..], f, g, has);
    }
  }

  /** `g` carries every predicate that `f` carries (and maybe more). */
  predicate Includes(g: Filters, f: Filters)
  {
    && (Needle(f.q).Some? ==> Needle(g.q) == Needle(f.q))
    && (Needle(f.base).Some? ==> Needle(g.base) == Needle(f.base))
    && (Needle(f.occupation).Some? ==> Needle(g.occupation) == Needle(f.occupation))
  }

  /** The predicates are ANDed: adding filters never lets a row in that was kept out. */
  lemma AddingFiltersNarrows(rows: map<int, Doc>, order: seq<int>, f: Filters, g: Filters, has: Matcher,
                             id: int)
    requires Includes(g, f)
    requires id in Matching(rows, order, g, has)
    ensures id in Matching(rows, order, f, has)
  {
    MatchingExact(rows, order, g, has, id);
    MatchingExact(rows, order, f, has, id);
  }

  /** A document passes the filters exactly when it passes each active filter on its own. */
  lemma FiltersAreAnded(d: Doc, f: Filters, has: Matcher)
    ensures Selected(d, f, has) <==>
      && Selected(d, Filters(f.q, None, None), has)
      && Selected(d, Filters(None, f.base, None), has)
      && Selected(d, Filters(None, None, f.occupation), has)
  {
  }

  /** `q` matches on the name, the work base or the work occupation, with the stripped value. */
  lemma QueryFilterMatches(d: Doc, q: string, has: Matcher)
    requires !AllSpace(q)
    ensures Selected(d, Filters(Some(q), None, None), has) <==>
      || (d.name.Some? && has(d.name.value, Strip(q)))
      || (d.work.Some? && d.work.value.base.Some? && has(d.work.value.base.value, Strip(q)))
      || (d.work.Some? && d.work.value.occupation.Some? && has(d.work.value.occupation.value, Strip(q)))
  {
  }

  /** `base` and `occupation` test only their own field, with the stripped value. */
  lemma WorkFiltersMatch(d: Doc, base: string, occupation: string, has: Matcher)
    requires !AllSpace(base) && !AllSpace(occupation)
    ensures Selected(d, Filters(None, Some(base), None), has) <==>
      d.work.Some? && d.work.value.base.Some? && has(d.work.value.base.value, Strip(base))
    ensures Selected(d, Filters(None, None, Some(occupation)), has) <==>
      d.work.Some? && d.work.value.occupation.Some? && has(d.work.value.occupation.value, Strip(occupation))
  {
  }

  /** A document without `work` never passes an active `base` or `occupation` filter. */
  lemma NoWorkFailsWorkFilters(d: Doc, f: Filters, has: Matcher)
    requires d.work.None?
    requires Needle(f.base).Some? || Needle(f.occupation).Some?
    ensures !Selected(d, f, has)
  {
  }

  /** Parameters with the same needles give the same page. */
  lemma SameNeedlesSamePage(rows: map<int, Doc>, order: seq<int>, page: int, pageSize: int, f: Filters,
                            g: Filters, has: Matcher)
    requires Needle(f.q) == Needle(g.q) && Needle(f.base) == Needle(g.base)
    requires Needle(f.occupation) == Needle(g.occupation)
    ensures ListPage(rows, order, page, pageSize, f, has).Success? ==>
      && ListPage(rows, order, page, pageSize, g, has).Success?
      && ListPage(rows, order, page, pageSize, f, has).value.items
         == ListPage(rows, order, page, pageSize, g, has).value.items
  {
    MatchingCongruent(rows, order, f, g, has);
  }

  /** A filter that is only whitespace lists the same items as no filter, and is still echoed as sent. */
  lemma BlankFiltersAreOmitted(rows: map<int, Doc>, order: seq<int>, page: int, pageSize: int, f: Filters,
                               has: Matcher)
    requires f.q.None? || AllSpace(f.q.value)
    requires f.base.None? || AllSpace(f.base.value)
    requires f.occupation.None? || AllSpace(f.occupation.value)
    requires ListPage(rows, order, page, pageSize, f, has).Success?
    ensures ListPage(rows, order, page, pageSize, f, has).value.items
      == ListPage(rows, order, page, pageSize, Filters(None, None, None), has).value.items
    ensures ListPage(rows, order, page, pageSize, f, has).value.filters == f
  {
    SameNeedlesSamePage(rows, order, page, pageSize, f, Filters(None, None, None), has);
  }

  function StripAll(f: Filters): Filters
  {
    Filters(
      if f.q.Some? then Some(Strip(f.q.value)) else None,
      if f.base.Some? then Some(Strip(f.base.value)) else None,
      if f.occupation.Some? then Some(Strip(f.occupation.value)) else None)
  }

  /** The match uses the stripped values: stripping the parameters first lists the same items. */
  lemma FiltersAreStripped(rows: map<int, Doc>, order: seq<int>, page: int, pageSize: int, f: Filters,
                           has: Matcher)
    requires ListPage(rows, order, page, pageSize, f, has).Success?
    ensures ListPage(rows, order, page, pageSize, f, has).value.items
      == ListPage(rows, order, page, pageSize, StripAll(f), has).value.items
  {
    if f.q.Some? { StripIdempotent(f.q.value); }
    if f.base.Some? { StripIdempotent(f.base.value); }
    if f.occupation.Some? { StripIdempotent(f.occupation.value); }
    SameNeedlesSamePage(rows, order, page, pageSize, f, StripAll(f), has);
  }

  /** When the scan visits each row once, a page never lists the same row twice. */
  lemma PageIdsDistinct(rows: map<int, Doc>, order: seq<int>, page: int, pageSize: int, f: Filters,
                        has: Matcher)
    requires Distinct(order)
    ensures var r := ListPage(rows, order, page, pageSize, f, has);
      r.Success? ==> forall i, j :: 0 <= i < j < |r.value.items| ==> r.value.items[i].id != r.value.items[j].id
  {
    var r := ListPage(rows, order, page, pageSize, f, has);
    if r.Success? {
      var m := Matching(rows, order, f, has);
      var offset := (page - 1) * pageSize;
      MatchingDistinct(rows, order, f, has);
      PageHoldsMatchesFromOffset(rows, order, page, pageSize, f, has);
      forall i, j | 0 <= i < j < |r.value.items| ensures r.value.items[i].id != r.value.items[j].id {
        assert r.value.items[i].id == m[offset + i] && r.value.items[j].id == m[offset + j];
      }
    }
  }

  /** Two adjacent windows of the same size make one window twice as large. */
  lemma AdjacentWindows(s: seq<int>, offset: nat, n: nat)
    ensures Window(s, offset, n) + Window(s, offset + n, n) == Window(s, offset, 2 * n)
  {
    var a, b, c := Window(s, offset, n), Window(s, offset + n, n), Window(s, offset, 2 * n);
    assert |a + b| == |c|;
    forall i | 0 <= i < |c| ensures (a + b)[i] == c[i] {
      if i >= |a| {
        assert |a| == n;
        assert b[i - n] == s[offset + i];
      }
    }
  }

  /** Page `page + 1` continues exactly where page `page` stops: nothing is skipped or repeated. */
  lemma ConsecutivePages(rows: map<int, Doc>, order: seq<int>, page: int, pageSize: nat, f: Filters,
                         has: Matcher)
    requires page >= 1
    ensures var m := Matching(rows, order, f, has);
      var offset := (page - 1) * pageSize;
      && ListPage(rows, order, page, pageSize, f, has).Success?
      && ListPage(rows, order, page + 1, pageSize, f, has).Success?
      && ListPage(rows, order, page, pageSize, f, has).value.items
         + ListPage(rows, order, page + 1, pageSize, f, has).value.items
         == Summaries(rows, Window(m, offset, 2 * pageSize))
  {
    var m := Matching(rows, order, f, has);
    var offset := (page - 1) * pageSize;
    assert page * pageSize == offset + pageSize;
    AdjacentWindows(m, offset, pageSize);
    var a, b := Window(m, offset, pageSize), Window(m, offset + pageSize, pageSize);
    assert Summaries(rows, a) + Summaries(rows, b) == Summaries(rows, a + b);
  }

  lemma DivMod(x: nat, n: int)
    requires n > 0
    ensures x == (x / n) * n + x % n && 0 <= x % n < n && x / n >= 0
  {
  }

  /** Every matching row is listed: the one at position `pos` is entry `pos % pageSize` of page `pos / pageSize + 1`. */
  lemma EveryMatchIsListed(rows: map<int, Doc>, order: seq<int>, pageSize: int, f: Filters, has: Matcher,
                           pos: int)
    requires pageSize > 0
    requires 0 <= pos < |Matching(rows, order, f, has)|
    ensures var m := Matching(rows, order, f, has);
      var r := ListPage(rows, order, pos / pageSize + 1, pageSize, f, has);
      && r.Success?
      && pos % pageSize < |r.value.items|
      && r.value.items[pos % pageSize] == Summary(m[pos], rows[m[pos]])
  {
    var p, rem := pos / pageSize, pos % pageSize;
    DivMod(pos, pageSize);
    var page := p + 1;
    assert (page - 1) * pageSize == p * pageSize;
    PageHoldsMatchesFromOffset(rows, order, page, pageSize, f, has);
  }

  /**
   * With the route's defaults (`page=1`, `page_size=20`) the listing holds the
   * first twenty matching rows, in scan order.
   */
  lemma DefaultListing(rows: map<int, Doc>, order: seq<int>, f: Filters, has: Matcher)
    ensures var m := Matching(rows, order, f, has);
      var r := ListPage(rows, order, DefaultPage, DefaultPageSize, f, has);
      && r.Success?
      && |r.value.items| == Min(DefaultPageSize, |m|)
      && forall i :: 0 <= i < |r.value.items| ==> r.value.items[i] == Summary(m[i], rows[m[i]])
  {
    PageHoldsMatchesFromOffset(rows, order, DefaultPage, DefaultPageSize, f, has);
  }

  /** Three rows scanned in id order, no filter: page 2 of size 1 is the second row. */
  lemma SecondPageOfThree(d1: Doc, d2: Doc, d3: Doc, has: Matcher)
    ensures ListPage(map[1 := d1, 2 := d2, 3 := d3], [1, 2, 3], 2, 1, Filters(None, None, None), has)
      == Success(ListResponse(2, 1, Filters(None, None, None), [Summary(2, d2)]))
  {
    var rows := map[1 := d1, 2 := d2, 3 := d3];
    var none := Filters(None, None, None);
    assert [1, 2, 3][1..] == [2, 3] && [2, 3][1..] == [3] && [3][1..] == [];
    assert Matching(rows, [3], none, has) == [3];
    assert Matching(rows, [2, 3], none, has) == [2, 3];
    assert Matching(rows, [1, 2, 3], none, has) == [1, 2, 3];
    assert Window([1, 2, 3], 1, 1) == [2];
    assert Summaries(rows, [2]) == [Summary(2, d2)];
  }
}
