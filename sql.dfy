/**
 * How `get_items` builds its statement, and what the database returns for it.
 * The database is outside the model; `Execute` is its contract: the rows it
 * scans, in the order it scans them, that satisfy every WHERE predicate, with
 * LIMIT and OFFSET applied.
 */
module Sql {
  import opened Wrappers
  import opened Text
  import opened Documents
  import opened Listing

  /** One predicate of the WHERE clause, with the stripped value it is bound to. */
  datatype Cond =
    | AnyField(needle: string)        // name, work.base or work.occupation LIKE :q
    | BaseLike(needle: string)        // work.base LIKE :base
    | OccupationLike(needle: string)  // work.occupation LIKE :occ

  /** The predicates of the WHERE clause, and the LIMIT and OFFSET parameters. */
  datatype Query = Query(conds: seq<Cond>, limit: int, offset: int)

  predicate Holds(c: Cond, d: Doc, has: Matcher)
  {
    match c
    case AnyField(n) => QueryHit(d, n, has)
    case BaseLike(n) => FieldHas(WorkBase(d), n, has)
    case OccupationLike(n) => FieldHas(WorkOccupation(d), n, has)
  }

  /** The predicates joined by AND; with none there is no WHERE clause and every row qualifies. */
  predicate HoldsAll(conds: seq<Cond>, d: Doc, has: Matcher)
  {
    forall i :: 0 <= i < |conds| ==> Holds(conds[i], d, has)
  }

  lemma HoldsAllAppend(a: seq<Cond>, b: seq<Cond>, d: Doc, has: Matcher)
    ensures HoldsAll(a + b, d, has) <==> HoldsAll(a, d, has) && HoldsAll(b, d, has)
  {
    if HoldsAll(a, d, has) && HoldsAll(b, d, has) {
      forall i | 0 <= i < |a + b| ensures Holds((a + b)[i], d, has) {
        if i >= |a| { assert (a + b)[i] == b[i - |a|]; }
      }
    }
    if HoldsAll(a + b, d, has) {
      forall i | 0 <= i < |a| ensures Holds(a[i], d, has) {
        assert (a + b)[i] == a[i];
      }
      forall i | 0 <= i < |b| ensures Holds(b[i], d, has) {
        assert (a + b)[|a| + i] == b[i];
      }
    }
  }

  lemma HoldsOne(c: Cond, d: Doc, has: Matcher)
    ensures HoldsAll([c], d, has) <==> Holds(c, d, has)
  {
    assert [c][0] == c;
  }

  /** The predicate each filter contributes: none, or one bound to its stripped value. */
  function QueryConds(f: Filters): seq<Cond>
  {
    if Needle(f.q).Some? then [AnyField(Needle(f.q).value)] else []
  }

  function BaseConds(f: Filters): seq<Cond>
  {
    if Needle(f.base).Some? then [BaseLike(Needle(f.base).value)] else []
  }

  function OccupationConds(f: Filters): seq<Cond>
  {
    if Needle(f.occupation).Some? then [OccupationLike(Needle(f.occupation).value)] else []
  }

  /** The three contributions joined by AND say exactly what `Selected` says. */
  lemma ContributionsAreSelected(f: Filters, d: Doc, has: Matcher)
    ensures HoldsAll(QueryConds(f) + BaseConds(f) + OccupationConds(f), d, has) <==> Selected(d, f, has)
  {
    var q, b, o := QueryConds(f), BaseConds(f), OccupationConds(f);
    if q != [] { HoldsOne(q[0], d, has); assert q == [q[0]]; }
    if b != [] { HoldsOne(b[0], d, has); assert b == [b[0]]; }
    if o != [] { HoldsOne(o[0], d, has); assert o == [o[0]]; }
    assert HoldsAll(q, d, has) <==> (Needle(f.q).Some? ==> QueryHit(d, Needle(f.q).value, has));
    assert HoldsAll(b, d, has) <==> (Needle(f.base).Some? ==> FieldHas(WorkBase(d), Needle(f.base).value, has));
    assert HoldsAll(o, d, has) <==>
      (Needle(f.occupation).Some? ==> FieldHas(WorkOccupation(d), Needle(f.occupation).value, has));
    HoldsAllAppend(QueryConds(f), BaseConds(f), d, has);
    HoldsAllAppend(QueryConds(f) + BaseConds(f), OccupationConds(f), d, has);
  }

  /** Every contributed predicate is bound to a non-empty, stripped value. */
  lemma ContributionsAreStripped(f: Filters)
    ensures var conds := QueryConds(f) + BaseConds(f) + OccupationConds(f);
      && |conds| <= 3
      && forall c :: c in conds ==> c.needle != [] && Strip(c.needle) == c.needle
  {
    var q, b, o := QueryConds(f), BaseConds(f), OccupationConds(f);
    forall c: Cond | c in q + b + o ensures c.needle != [] && Strip(c.needle) == c.needle {
      if c in q {
        NeedleIsStripped(f.q);
      } else if c in b {
        NeedleIsStripped(f.base);
      } else {
        assert c in o;
        NeedleIsStripped(f.occupation);
      }
    }
  }

  lemma NeedleIsStripped(p: Option<string>)
    ensures Needle(p).Some? ==> Needle(p).value != [] && Strip(Needle(p).value) == Needle(p).value
  {
    if p.Some? { StripIdempotent(p.value); }
  }

  /**
   * The WHERE and parameter building of `get_items`: each filter whose stripped
   * value is not empty appends its predicate, in the order q, base, occupation.
   * The predicates hold of a document exactly when it passes the filters.
   */
  method BuildQuery(page: int, pageSize: int, f: Filters) returns (query: Query)
    ensures query.limit == pageSize && query.offset == (page - 1) * pageSize
    ensures |query.conds| <= 3
    ensures forall c :: c in query.conds ==> c.needle != [] && Strip(c.needle) == c.needle
    ensures forall d: Doc, has: Matcher :: HoldsAll(query.conds, d, has) <==> Selected(d, f, has)
  {
    var offset := (page - 1) * pageSize;
    var conds: seq<Cond> := [];
    if f.q.Some? && Strip(f.q.value) != [] {
      conds := conds + [AnyField(Strip(f.q.value))];
    }
    assert conds == QueryConds(f);
    ghost var before := conds;
    if f.base.Some? && Strip(f.base.value) != [] {
      conds := conds + [BaseLike(Strip(f.base.value))];
    }
    assert conds == before + BaseConds(f);
    before := conds;
    if f.occupation.Some? && Strip(f.occupation.value) != [] {
      conds := conds + [OccupationLike(Strip(f.occupation.value))];
    }
    assert conds == before + OccupationConds(f);
    ContributionsAreStripped(f);
    query := Query(conds, pageSize, offset);
    forall d: Doc, has: Matcher ensures HoldsAll(query.conds, d, has) <==> Selected(d, f, has) {
      ContributionsAreSelected(f, d, has);
    }
  }

  /** The ids, in scan order, of the rows that satisfy the WHERE clause. */
  function Scan(rows: map<int, Doc>, order: seq<int>, conds: seq<Cond>, has: Matcher): (ids: seq<int>)
    ensures forall i :: 0 <= i < |ids| ==> ids[i] in rows && HoldsAll(conds, rows[ids[i]], has)
  {
    if order == [] then []
    else
      (if order[0] in rows && HoldsAll(conds, rows[order[0]], has) then [order[0]] else [])
      + Scan(rows, order[1..], conds, has)
  }

  /** The database's answer to `SELECT id, data FROM data WHERE … LIMIT :limit OFFSET :offset`. */
  function Execute(rows: map<int, Doc>, order: seq<int>, query: Query, has: Matcher): (result: seq<(int, Doc)>)
    requires query.limit >= 0 && query.offset >= 0
    ensures |result| <= query.limit
    ensures forall i :: 0 <= i < |result| ==>
      result[i].0 in rows && result[i].1 == rows[result[i].0] && HoldsAll(query.conds, result[i].1, has)
  {
    var ids := Window(Scan(rows, order, query.conds, has), query.offset, query.limit);
    seq(|ids|, i requires 0 <= i < |ids| => (ids[i], rows[ids[i]]))
  }

  /** A WHERE clause equivalent to the filters selects what the filters select, in the same order. */
  lemma {:induction false} ScanIsMatching(rows: map<int, Doc>, order: seq<int>, conds: seq<Cond>, f: Filters,
                                          has: Matcher)
    requires forall d :: HoldsAll(conds, d, has) <==> Selected(d, f, has)
    ensures Scan(rows, order, conds, has) == Matching(rows, order, f, has)
  {
    if order != [] {
      ScanIsMatching(rows, order[1..], conds, f, has);
    }
  }
}
