/** The item documents stored in the `data` table and the shapes the item routes return. */
module Documents {
  import opened Wrappers

  /** The optional `work` object of a document. */
  datatype Work = Work(base: Option<string>, occupation: Option<string>)

  /**
   * A stored document. Raw inserts and updates accept any object, so even
   * `name` may be missing; a missing key and a JSON `null` both read as `None`.
   */
  datatype Doc = Doc(name: Option<string>, image: Option<string>, work: Option<Work>)

  /** The validated body of `POST /items`: a name is required. */
  datatype ItemCreate = ItemCreate(name: string, image: Option<string>, work: Option<Work>)

  /** What `GET /items/{id}` returns. */
  datatype ItemDetail = ItemDetail(id: int, name: Option<string>, work: Option<Work>, image: Option<string>)

  /** One entry of a listing: the id and two fields of the document, nothing else. */
  datatype ListItem = ListItem(id: int, name: Option<string>, image: Option<string>)

  /** The raw filter parameters of `GET /items`. */
  datatype Filters = Filters(q: Option<string>, base: Option<string>, occupation: Option<string>)

  /** What `GET /items` returns: the raw parameters echoed back, and the page. */
  datatype ListResponse = ListResponse(page: int, pageSize: int, filters: Filters, items: seq<ListItem>)

  /** The document stored for a validated create request (`model_dump`). */
  function FromCreate(p: ItemCreate): (d: Doc)
    ensures d.name.Some?
  {
    Doc(Some(p.name), p.image, p.work)
  }

  /** The list entry for row `id`. */
  function Summary(id: int, d: Doc): ListItem
  {
    ListItem(id, d.name, d.image)
  }

  function WorkBase(d: Doc): Option<string>
  {
    if d.work.Some? then d.work.value.base else None
  }

  function WorkOccupation(d: Doc): Option<string>
  {
    if d.work.Some? then d.work.value.occupation else None
  }
}
