/**
 * The route handlers over the two tables they share: `users` and `data`
 * (the items). Each handler is one atomic step. The admin routes run
 * `require_admin` before anything else and, when it fails, answer with its
 * error and change nothing; the read routes do the same with `require_user`.
 */
module Service {
  import opened Wrappers
  import opened Errors
  import opened Text
  import opened Documents
  import opened Auth
  import opened Items
  import opened Listing
  import opened Sql

  /**
   * `items.append({"id": …, "name": …, "image": …})` for every result row:
   * the list entries, one per row, in the rows' order.
   */
  method Project(rows: seq<(int, Doc)>) returns (entries: seq<ListItem>)
    ensures |entries| == |rows|
    ensures forall i :: 0 <= i < |rows| ==> entries[i] == Summary(rows[i].0, rows[i].1)
  {
    entries := [];
    for i := 0 to |rows|
      invariant |entries| == i
      invariant forall k :: 0 <= k < i ==> entries[k] == Summary(rows[k].0, rows[k].1)
    {
      var (id, d) := rows[i];
      entries := entries + [ListItem(id, d.name, d.image)];
    }
  }

  class Backend {
    /** The `data` table: row id to stored document. */
    var items: map<int, Doc>
    /** The next auto-increment id of the `data` table. */
    var nextId: int
    /** The `users` table, keyed by username. */
    var users: map<string, UserRow>

    /** Every stored id was handed out before the counter. */
    ghost predicate Valid()
      reads this
    {
      nextId >= 1 && forall id :: id in items ==> id < nextId
    }

    constructor ()
      ensures Valid()
      ensures items == map[] && nextId == 1 && users == map[]
    {
      items := map[];
      nextId := 1;
      users := map[];
    }

    /**
     * `POST /register`: 400 when the username is taken; otherwise exactly one
     * user is added, with the given password hash and role "user".
     */
    method Register(username: string, hashed: string) returns (r: Result<(), Error>)
      requires Valid()
      modifies this
      ensures Valid()
      ensures r == CheckRegister(old(users), username)
      ensures users == if r.Success? then AddUser(old(users), username, hashed) else old(users)
      ensures items == old(items) && nextId == old(nextId)
    {
      r := CheckRegister(users, username);
      if r.Success? {
        users := users[username := UserRow(hashed, UserRole)];
      }
    }

    /** `POST /items`: an admin stores the validated document under a fresh id and gets that id back. */
    method CreateItem(decoded: Option<TokenPayload>, payload: ItemCreate) returns (r: Result<int, Error>)
      requires Valid()
      modifies this
      ensures Valid()
      ensures users == old(users)
      ensures var caller := AdminCaller(decoded, old(users));
        if caller.Failure? then
          r == Failure(caller.error) && items == old(items) && nextId == old(nextId)
        else
          && r == Success(old(nextId)) && old(nextId) !in old(items)
          && items == old(items)[old(nextId) := FromCreate(payload)] && nextId == old(nextId) + 1
    {
      var caller := AdminCaller(decoded, users);
      if caller.Failure? {
        return Failure(caller.error);
      }
      var id := nextId;
      items := items[id := FromCreate(payload)];
      nextId := nextId + 1;
      r := Success(id);
    }

    /** `POST /admin/items`: an admin stores an arbitrary document under a fresh id; no id is returned. */
    method InsertItem(decoded: Option<TokenPayload>, doc: Doc) returns (r: Result<(), Error>)
      requires Valid()
      modifies this
      ensures Valid()
      ensures users == old(users)
      ensures var caller := AdminCaller(decoded, old(users));
        if caller.Failure? then
          r == Failure(caller.error) && items == old(items) && nextId == old(nextId)
        else
          && r == Success(()) && old(nextId) !in old(items)
          && items == old(items)[old(nextId) := doc] && nextId == old(nextId) + 1
    {
      var caller := AdminCaller(decoded, users);
      if caller.Failure? {
        return Failure(caller.error);
      }
      items := items[nextId := doc];
      nextId := nextId + 1;
      r := Success(());
    }

    /** `GET /items/{id}`: any user; 404 when no row has the id. */
    function GetItem(decoded: Option<TokenPayload>, id: int): (r: Result<ItemDetail, Error>)
      reads this
      ensures RequireUser(decoded, users).Failure? ==> r == Failure(RequireUser(decoded, users).error)
      ensures RequireUser(decoded, users).Success? ==> r == Find(items, id)
    {
      var caller := RequireUser(decoded, users);
      if caller.Failure? then Failure(caller.error) else Find(items, id)
    }

    /**
     * `GET /items`: any user. The statement is built from the parameters, the
     * database answers it scanning the table in `order` (which the statement
     * does not fix), and each result row is projected to its list entry. The
     * response is exactly the one `ListPage` specifies.
     */
    method GetItems(decoded: Option<TokenPayload>, page: int, pageSize: int, f: Filters, order: seq<int>,
                    has: Matcher) returns (r: Result<ListResponse, Error>)
      requires IsEnumeration(order, items.Keys)
      ensures RequireUser(decoded, users).Failure? ==> r == Failure(RequireUser(decoded, users).error)
      ensures RequireUser(decoded, users).Success? ==> r == ListPage(items, order, page, pageSize, f, has)
      ensures r.Success? ==> forall i, j :: 0 <= i < j < |r.value.items| ==> r.value.items[i].id != r.value.items[j].id
    {
      var caller := RequireUser(decoded, users);
      if caller.Failure? {
        return Failure(caller.error);
      }
      var query := BuildQuery(page, pageSize, f);
      if query.limit < 0 || query.offset < 0 {
        return Failure(DatabaseError);
      }
      var rows := Execute(items, order, query, has);
      var entries := Project(rows);
      r := Success(ListResponse(page, pageSize, f, entries));
      ScanIsMatching(items, order, query.conds, f, has);
      ghost var ids := Window(Matching(items, order, f, has), query.offset, query.limit);
      assert |rows| == |ids| && forall i :: 0 <= i < |ids| ==> rows[i] == (ids[i], items[ids[i]]);
      assert entries == Summaries(items, ids);
      PageIdsDistinct(items, order, page, pageSize, f, has);
    }

    /** `PUT /items/{id}`: an admin replaces the whole document of row `id`; 404 when there is none. */
    method UpdateItem(decoded: Option<TokenPayload>, id: int, doc: Doc) returns (r: Result<(), Error>)
      requires Valid()
      modifies this
      ensures Valid()
      ensures users == old(users) && nextId == old(nextId)
      ensures var caller := AdminCaller(decoded, old(users));
        var outcome := Replace(old(items), id, doc);
        && (caller.Failure? ==> r == Failure(caller.error) && items == old(items))
        && (caller.Success? && outcome.Failure? ==> r == Failure(outcome.error) && items == old(items))
        && (caller.Success? && outcome.Success? ==> r == Success(()) && items == outcome.value)
    {
      var caller := AdminCaller(decoded, users);
      if caller.Failure? {
        return Failure(caller.error);
      }
      if id !in items {
        return Failure(ItemNotFound);
      }
      items := items[id := doc];
      r := Success(());
    }

    /** `DELETE /items/{id}`: an admin removes row `id`; 404 when there is none. */
    method DeleteItem(decoded: Option<TokenPayload>, id: int) returns (r: Result<(), Error>)
      requires Valid()
      modifies this
      ensures Valid()
      ensures users == old(users) && nextId == old(nextId)
      ensures var caller := AdminCaller(decoded, old(users));
        var outcome := Remove(old(items), id);
        && (caller.Failure? ==> r == Failure(caller.error) && items == old(items))
        && (caller.Success? && outcome.Failure? ==> r == Failure(outcome.error) && items == old(items))
        && (caller.Success? && outcome.Success? ==> r == Success(()) && items == outcome.value)
    {
      var caller := AdminCaller(decoded, users);
      if caller.Failure? {
        return Failure(caller.error);
      }
      if id !in items {
        return Failure(ItemNotFound);
      }
      items := items - {id};
      r := Success(());
    }
  }

  /**
   * Scenarios run against one backend: a user registers twice
   * and logs in; an admin (a row put straight into `users`, as no route
   * creates admins) creates an item, the user reads it back and is refused the
   * delete, and the admin deletes it twice.
   */
  method Scenario(verify: (string, string) -> bool, password: string, hashed: string, adminHash: string,
                  p: ItemCreate)
    returns (first: Result<(), Error>, second: Result<(), Error>, login: Result<LoginOk, Error>, detail: Result<ItemDetail, Error>,
             refused: Result<(), Error>, deletes: (Result<(), Error>, Result<(), Error>))
    requires verify(password, hashed)
    ensures first == Success(())
    ensures second == Failure(UserExists)
    ensures login == Success(LoginOk(IssuedClaims("ana", UserRole), TokenType, UserRole))
    ensures detail == Success(ItemDetail(1, Some(p.name), p.work, p.image))
    ensures refused == Failure(AdminOnly)
    ensures deletes == (Success(()), Failure(ItemNotFound))
  {
    var b := new Backend();
    first := b.Register("ana", hashed);
    second := b.Register("ana", hashed);
    login := Login(b.users, "ana", password, verify);
    b.users := b.users["root" := UserRow(adminHash, AdminRole)];
    var admin := Some(TokenPayload(Some("root"), Some(AdminRole)));
    var plain := Some(login.value.claims);
    var created := b.CreateItem(admin, p);
    assert created == Success(1);
    detail := b.GetItem(plain, 1);
    refused := b.DeleteItem(plain, 1);
    var d1 := b.DeleteItem(admin, 1);
    var d2 := b.DeleteItem(admin, 1);
    deletes := (d1, d2);
  }
}
