/**
 * How the database reads the fields the list filters search, for a document
 * stored by `POST /items`. `model_dump` writes every field of the request, so
 * an omitted `base` or `occupation` is stored as a JSON `null`; and
 * `JSON_UNQUOTE(JSON_EXTRACT(data, path))` turns a JSON `null` into the text
 * "null", which `LIKE` then searches as if it were a value. `Unquoted` is that
 * read as written; `Value` is the read the handlers mean, where `null` is no
 * value, and it is the one the listing model (`Listing.Selected` over
 * `Documents.WorkBase` and `Documents.WorkOccupation`) uses.
 */
module Stored {
  import opened Wrappers
  import opened Text
  import opened Documents
  import opened Listing
  import opened Like

  /** A JSON leaf: `null` or a string. */
  datatype Scalar = JNull | JString(s: string)

  /**
   * A stored document by the leaf paths the filters read. A path through a
   * missing key or through a `null` object is absent: `JSON_EXTRACT` gives
   * SQL NULL there.
   */
  type Json = map<string, Scalar>

  const NamePath := "$.name"
  const BasePath := "$.work.base"
  const OccupationPath := "$.work.occupation"

  /** How `json.dumps` writes an optional string: `None` becomes `null`. */
  function Leaf(v: Option<string>): Scalar
  {
    if v.Some? then JString(v.value) else JNull
  }

  /**
   * `json.dumps(payload.model_dump())` for a create request, at the paths the
   * filters read. A `work` of `None` is stored as `null`, so nothing lies below it.
   */
  function Dump(p: ItemCreate): (j: Json)
    ensures NamePath in j
    ensures BasePath in j <==> p.work.Some?
    ensures OccupationPath in j <==> p.work.Some?
  {
    map[NamePath := JString(p.name)]
    + (if p.work.Some?
       then map[BasePath := Leaf(p.work.value.base), OccupationPath := Leaf(p.work.value.occupation)]
       else map[])
  }

  /** `JSON_UNQUOTE(JSON_EXTRACT(data, path))` as the SELECT computes it. */
  function Unquoted(j: Json, path: string): Option<string>
  {
    if path !in j then None
    else match j[path]
      case JNull => Some("null")
      case JString(s) => Some(s)
  }

  /** The field as the handlers read it (`d.get(...)`): a JSON `null` is no value, like a missing key. */
  function Value(j: Json, path: string): (r: Option<string>)
    ensures r.Some? <==> path in j && j[path].JString?
  {
    if path in j && j[path].JString? then Some(j[path].s) else None
  }

  /** The two reads differ exactly where the stored leaf is a JSON `null`. */
  lemma UnquotedDiffersOnlyAtNull(j: Json, path: string)
    ensures Unquoted(j, path) != Value(j, path) <==> path in j && j[path] == JNull
    ensures Unquoted(j, path) != Value(j, path) ==> Unquoted(j, path) == Some("null") && Value(j, path).None?
  {
  }

  /**
   * Read with `Value`, a created document's fields are exactly what the
   * listing model filters on: the name, `work.base` and `work.occupation` of
   * the document `FromCreate` stores.
   */
  lemma ValueIsStoredField(p: ItemCreate)
    ensures Value(Dump(p), NamePath) == FromCreate(p).name
    ensures Value(Dump(p), BasePath) == WorkBase(FromCreate(p))
    ensures Value(Dump(p), OccupationPath) == WorkOccupation(FromCreate(p))
  {
    var j := Dump(p);
    assert NamePath != BasePath && NamePath != OccupationPath && BasePath != OccupationPath;
    assert j[NamePath] == JString(p.name);
    if p.work.Some? {
      assert j[BasePath] == Leaf(p.work.value.base);
      assert j[OccupationPath] == Leaf(p.work.value.occupation);
    }
  }

  /**
   * The discrepancy on one input: a hero created with a `work` but no `base`
   * stores `"base": null`; as written the database reads that as the text
   * "null", which `LIKE '%ul%'` matches, so `base=ul` lists the hero. The hero has no
   * base, and the filter as meant keeps it out under any collation.
   */
  lemma NullBaseIsListed(has: Matcher)
    ensures var p := ItemCreate("Bat", None, Some(Work(None, Some("x"))));
      && Unquoted(Dump(p), BasePath) == Some("null")
      && LikeMatch(Unquoted(Dump(p), BasePath).value, Pattern("ul"), Exact)
      && Contains(Unquoted(Dump(p), BasePath).value, "ul", Exact)
      && Value(Dump(p), BasePath).None?
      && !Selected(FromCreate(p), Filters(None, Some("ul"), None), has)
  {
    var p := ItemCreate("Bat", None, Some(Work(None, Some("x"))));
    ValueIsStoredField(p);
    assert Dump(p)[BasePath] == JNull;
    assert "null"[1..] == "ull";
    assert StartsWith("ull", "ul", Exact);
    assert "ul"[0] == 'u' && !IsSpace('u');
    var pat := Pattern("ul");
    assert pat == "%ul%" && pat[1..] == "ul%" && pat[1..][1..] == "l%" && pat[1..][1..][1..] == "%";
    assert "ull"[1..] == "ll" && "ll"[1..] == "l";
    PercentMatchesAll("l", Exact);
    assert LikeMatch("ll", "l%", Exact);
    assert LikeMatch("ull", "ul%", Exact);
  }
}
