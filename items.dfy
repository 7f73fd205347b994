/** The row-level outcomes of the single-item routes over the `data` table. */
module Items {
  import opened Wrappers
  import opened Errors
  import opened Documents

  /** `get_item`: 404 when no row has the id, otherwise id, name, work and image of the stored document. */
  function Find(rows: map<int, Doc>, id: int): (r: Result<ItemDetail, Error>)
    ensures r.Failure? <==> id !in rows
    ensures r.Failure? ==> r.error == ItemNotFound && Status(r.error) == 404
    ensures r.Success? ==>
      && r.value.id == id && r.value.name == rows[id].name
      && r.value.work == rows[id].work && r.value.image == rows[id].image
  {
    if id !in rows then Failure(ItemNotFound)
    else Success(ItemDetail(id, rows[id].name, rows[id].work, rows[id].image))
  }

  /** `update_item`: 404 on no matching row, otherwise that row's document is replaced and no other row changes. */
  function Replace(rows: map<int, Doc>, id: int, doc: Doc): (r: Result<map<int, Doc>, Error>)
    ensures r.Failure? <==> id !in rows
    ensures r.Failure? ==> r.error == ItemNotFound
    ensures r.Success? ==> r.value.Keys == rows.Keys && r.value[id] == doc
    ensures r.Success? ==> forall k :: k in rows && k != id ==> r.value[k] == rows[k]
  {
    if id !in rows then Failure(ItemNotFound) else Success(rows[id := doc])
  }

  /** `delete_item`: 404 on no matching row, otherwise exactly that row is gone and no other row changes. */
  function Remove(rows: map<int, Doc>, id: int): (r: Result<map<int, Doc>, Error>)
    ensures r.Failure? <==> id !in rows
    ensures r.Failure? ==> r.error == ItemNotFound
    ensures r.Success? ==> r.value.Keys == rows.Keys - {id} && |r.value| == |rows| - 1
    ensures r.Success? ==> forall k :: k in r.value ==> r.value[k] == rows[k]
  {
    if id !in rows then Failure(ItemNotFound) else Success(rows - {id})
  }

  /** Create followed by get gives back the name, work and image that were sent. */
  lemma CreateThenGet(rows: map<int, Doc>, id: int, p: ItemCreate)
    ensures Find(rows[id := FromCreate(p)], id) == Success(ItemDetail(id, Some(p.name), p.work, p.image))
  {
  }

  /** Update followed by get gives back the new document's fields. */
  lemma UpdateThenGet(rows: map<int, Doc>, id: int, doc: Doc)
    requires id in rows
    ensures Find(Replace(rows, id, doc).value, id) == Success(ItemDetail(id, doc.name, doc.work, doc.image))
  {
  }

  /** A second delete of the same id fails with 404, and so does a get after the delete. */
  lemma DeleteTwice(rows: map<int, Doc>, id: int)
    requires id in rows
    ensures Remove(Remove(rows, id).value, id) == Failure(ItemNotFound)
    ensures Find(Remove(rows, id).value, id) == Failure(ItemNotFound)
  {
  }
}
