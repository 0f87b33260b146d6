/** The user and category endpoints of backend/api.py, each a function from
    the database state (and the request) to an outcome. */
module Catalog {
  import opened Wrappers
  import opened Http
  import opened Values
  import opened Admin
  import opened Store
  import opened Keys

  /** Deployment settings and the collaborators that are not modelled: the
      parsed MODERATOR_IDS and the JSON and float parsers. */
  datatype Env = Env(moderators: seq<int>, oracles: Oracles)

  /** Where the caller's Telegram id may come from: the X-Telegram-Id
      header and the `tg_id` query parameter. */
  datatype Caller = Caller(header: Option<int>, query: Option<int>)

  function Gate(env: Env, caller: Caller): Result<int, Failure> {
    Authorize(caller.header, caller.query, env.moderators)
  }

  // ---------------------------------------------------------------- users

  datatype UserOut = UserOut(id: int, tgId: int, isAdmin: bool, isActive: bool)

  /** The ids of the users registered with `tgId`. */
  function UsersWith(db: Db, tgId: int): (r: set<int>)
    ensures forall u :: u in r <==> u in db.users && db.users[u].tgId == tgId
  {
    set u | u in db.users && db.users[u].tgId == tgId
  }

  lemma SingletonOnly(s: set<int>)
    requires |s| == 1
    ensures forall x, y :: x in s && y in s ==> x == y
  {
    HasKey(s);
    var a :| a in s;
    assert |s - {a}| == 0;
    forall y | y in s
      ensures y == a
    {
    }
  }

  /** The one element of a one-element set. */
  function Only(s: set<int>): (x: int)
    requires |s| == 1
    ensures x in s && s == {x}
  {
    SingletonOnly(s);
    HasKey(s);
    var x :| x in s;
    assert forall y :: y in s <==> y == x;
    x
  }

  /** `ensure_user`: the user registered with the id, or a new active user
      who is an admin exactly when the id is a moderator's. A body whose
      `tg_id` is not positive is answered 422. */
  function EnsureUser(moderators: seq<int>, db: Db, tgId: int): (o: Outcome<UserOut>)
    ensures tgId <= 0 ==> o == Outcome(db, Failure(Unprocessable))
    ensures o.reply.Success? ==> o.reply.value.tgId == tgId
    ensures o.reply.Success? ==> o.reply.value.id in o.db.users
    ensures o.reply.Success? ==>
      o.db.users[o.reply.value.id] == User(tgId, o.reply.value.isActive, o.reply.value.isAdmin)
    ensures o.reply.Failure? ==> o.db == db
  {
    if tgId <= 0 then Outcome(db, Failure(Unprocessable))
    else
      var found := UsersWith(db, tgId);
      if |found| > 1 then Outcome(db, Failure(Internal))
      else if |found| == 1 then
        var id := Only(found);
        var u := db.users[id];
        Outcome(db, Success(UserOut(id, u.tgId, u.isAdmin, u.isActive)))
      else
        var id := db.nextUser;
        var u := User(tgId, true, tgId in moderators);
        Commit(db, db.(users := db.users[id := u], nextUser := id + 1), UserOut(id, tgId, u.isAdmin, u.isActive))
  }

  /** A first visit registers exactly one user, active, whose admin flag
      is what the admin gate would answer for the id, and touches nothing
      else. */
  lemma EnsureUserRegisters(moderators: seq<int>, db: Db, tgId: int)
    requires Valid(db) && tgId > 0 && UsersWith(db, tgId) == {}
    requires IsInt4(tgId)
    ensures var o := EnsureUser(moderators, db, tgId);
      && o.reply.Success?
      && o.reply.value.isActive
      && (o.reply.value.isAdmin <==> RequireAdmin(Some(tgId), moderators).Success?)
      && o.db == db.(users := db.users[db.nextUser := User(tgId, true, o.reply.value.isAdmin)], nextUser := db.nextUser + 1)
  {
    var id := db.nextUser;
    var after := db.(users := db.users[id := User(tgId, true, tgId in moderators)], nextUser := id + 1);
    assert KeysUnique(after) by {
      forall a, b | a in after.users && b in after.users && a != b
        ensures after.users[a].tgId != after.users[b].tgId
      {
        if a != id && b != id {
          assert db.users[a].tgId != db.users[b].tgId;
        } else if a == id {
          assert b !in UsersWith(db, tgId);
        } else {
          assert a !in UsersWith(db, tgId);
        }
      }
    }
  }

  /** A registered user is answered as stored, whatever the moderator list
      says now, and the database is left as it is. */
  lemma EnsureUserFindsExisting(moderators: seq<int>, db: Db, id: int)
    requires Valid(db) && id in db.users && db.users[id].tgId > 0
    ensures EnsureUser(moderators, db, db.users[id].tgId)
      == Outcome(db, Success(UserOut(id, db.users[id].tgId, db.users[id].isAdmin, db.users[id].isActive)))
  {
    var found := UsersWith(db, db.users[id].tgId);
    assert forall u :: u in db.users && u != id ==> db.users[u].tgId != db.users[id].tgId;
    assert found == {id};
  }

  /** Calling `ensure_user` again answers the same and changes nothing. */
  lemma EnsureUserIdempotent(moderators: seq<int>, db: Db, tgId: int)
    requires Valid(db)
    requires EnsureUser(moderators, db, tgId).reply.Success?
    ensures var o := EnsureUser(moderators, db, tgId);
      Valid(o.db) && EnsureUser(moderators, o.db, tgId) == o
  {
    var o := EnsureUser(moderators, db, tgId);
    if |UsersWith(db, tgId)| == 0 {
      assert UsersWith(db, tgId) == {};
      EnsureUserRegisters(moderators, db, tgId);
    }
    EnsureUserFindsExisting(moderators, o.db, o.reply.value.id);
  }

  // ----------------------------------------------------------- categories

  /** The `CategoryIn` body after JSON decoding. */
  datatype CategoryIn = CategoryIn(name: string, slug: string, parentId: Option<int>)

  /** `Field(..., max_length=200)` on both names; a body that fails is
      answered 422. */
  predicate CategoryInValid(payload: CategoryIn) {
    |payload.name| <= 200 && |payload.slug| <= 200
  }

  function CategoryOf(payload: CategoryIn): Category {
    Category(payload.name, payload.slug, payload.parentId)
  }

  datatype CategoryRow = CategoryRow(id: int, category: Category)

  function RowsOf(ids: seq<int>, categories: map<int, Category>): (r: seq<CategoryRow>)
    requires forall i :: 0 <= i < |ids| ==> ids[i] in categories
    ensures |r| == |ids|
    ensures forall i :: 0 <= i < |r| ==> r[i].id == ids[i]
    ensures forall i :: 0 <= i < |r| ==> r[i].id in categories && r[i].category == categories[r[i].id]
  {
    if ids == [] then [] else [CategoryRow(ids[0], categories[ids[0]])] + RowsOf(ids[1..], categories)
  }

  /** `list_categories`: categories by ascending id. */
  function ListCategories(db: Db): (r: seq<CategoryRow>)
    ensures forall i :: 0 <= i < |r| ==> r[i].id in db.categories && r[i].category == db.categories[r[i].id]
    ensures forall i, j :: 0 <= i < j < |r| ==> r[i].id < r[j].id
  {
    var ids := Ascending(db.categories.Keys);
    assert forall i :: 0 <= i < |ids| ==> ids[i] in db.categories by {
      assert forall i :: 0 <= i < |ids| ==> ids[i] in ids;
    }
    RowsOf(ids, db.categories)
  }

  /** Every category is listed. */
  lemma ListCategoriesComplete(db: Db, c: int)
    requires c in db.categories
    ensures exists i :: 0 <= i < |ListCategories(db)| && ListCategories(db)[i].id == c
  {
    var ids := Ascending(db.categories.Keys);
    assert c in ids;
    var i :| 0 <= i < |ids| && ids[i] == c;
    assert ListCategories(db)[i].id == c;
  }

  /** `create_category`: admin only; the new row takes the next id. */
  function CreateCategory(env: Env, caller: Caller, db: Db, payload: CategoryIn): (o: Outcome<CategoryRow>)
    ensures Gate(env, caller).Failure? ==> o == Outcome(db, Failure(Gate(env, caller).error))
    ensures Gate(env, caller).Success? && !CategoryInValid(payload) ==> o == Outcome(db, Failure(Unprocessable))
    ensures o.reply.Success? ==>
      && o.reply.value == CategoryRow(db.nextCategory, CategoryOf(payload))
      && o.db.categories == db.categories[db.nextCategory := CategoryOf(payload)]
      && o.db.products == db.products && o.db.users == db.users
    ensures o.reply.Failure? ==> o.db == db
  {
    if Gate(env, caller).Failure? then Outcome(db, Failure(Gate(env, caller).error))
    else if !CategoryInValid(payload) then Outcome(db, Failure(Unprocessable))
    else
      var id := db.nextCategory;
      Commit(db, db.(categories := db.categories[id := CategoryOf(payload)], nextCategory := id + 1),
        CategoryRow(id, CategoryOf(payload)))
  }

  /** `update_category`: a full overwrite of name, slug and parent. */
  function UpdateCategory(env: Env, caller: Caller, db: Db, id: int, payload: CategoryIn): (o: Outcome<CategoryRow>)
    ensures Gate(env, caller).Failure? ==> o == Outcome(db, Failure(Gate(env, caller).error))
    ensures Gate(env, caller).Success? && !CategoryInValid(payload) ==> o == Outcome(db, Failure(Unprocessable))
    ensures Gate(env, caller).Success? && CategoryInValid(payload) && id !in db.categories ==>
      o == Outcome(db, Failure(NotFound))
    ensures o.reply.Success? ==>
      && id in db.categories
      && o.reply.value == CategoryRow(id, CategoryOf(payload))
      && o.db == db.(categories := db.categories[id := CategoryOf(payload)])
    ensures o.reply.Failure? ==> o.db == db
  {
    if Gate(env, caller).Failure? then Outcome(db, Failure(Gate(env, caller).error))
    else if !CategoryInValid(payload) then Outcome(db, Failure(Unprocessable))
    else if id !in db.categories then Outcome(db, Failure(NotFound))
    else Commit(db, db.(categories := db.categories[id := CategoryOf(payload)]), CategoryRow(id, CategoryOf(payload)))
  }

  /** `delete_category`: a bulk DELETE, so no ORM cascade; a missing id is
      no error. */
  function DeleteCategory(env: Env, caller: Caller, db: Db, id: int): (o: Outcome<()>)
    ensures Gate(env, caller).Failure? ==> o == Outcome(db, Failure(Gate(env, caller).error))
    ensures o.reply.Success? ==> o.db == db.(categories := db.categories - {id})
    ensures o.reply.Failure? ==> o.db == db
  {
    if Gate(env, caller).Failure? then Outcome(db, Failure(Gate(env, caller).error))
    else Commit(db, db.(categories := db.categories - {id}), ())
  }

  /** Something other than the category itself points at it. */
  predicate Referenced(db: Db, id: int) {
    || (exists p :: p in db.products && db.products[p].categoryId == id)
    || (exists c :: c in db.categories && c != id && db.categories[c].parentId == Some(id))
  }

  /** Deleting a category a product or a child category refers to fails
      on the foreign key: a 500, and nothing changes. */
  lemma DeleteReferencedCategoryFails(env: Env, caller: Caller, db: Db, id: int)
    requires Gate(env, caller).Success?
    requires id in db.categories && Referenced(db, id)
    ensures DeleteCategory(env, caller, db, id) == Outcome(db, Failure(Internal))
  {
    var after := db.(categories := db.categories - {id});
    if exists p :: p in db.products && db.products[p].categoryId == id {
      var p :| p in db.products && db.products[p].categoryId == id;
      assert !ReferencesResolve(after);
    } else {
      var c :| c in db.categories && c != id && db.categories[c].parentId == Some(id);
      assert !ReferencesResolve(after) by {
        assert c in after.categories;
      }
    }
  }

  /** An admin deletes an unreferenced category, and only it. */
  lemma DeleteFreeCategorySucceeds(env: Env, caller: Caller, db: Db, id: int)
    requires Gate(env, caller).Success?
    requires Valid(db) && !Referenced(db, id)
    ensures DeleteCategory(env, caller, db, id).reply.Success?
    ensures Valid(DeleteCategory(env, caller, db, id).db)
    ensures id !in DeleteCategory(env, caller, db, id).db.categories
  {
  }

  /** Nothing stops a category from becoming its own parent: the foreign
      key is satisfied. */
  lemma CategoryMayBeItsOwnParent(env: Env, caller: Caller, db: Db, id: int, name: string)
    requires Gate(env, caller).Success? && Valid(db)
    requires id in db.categories && |name| <= 200
    ensures var o := UpdateCategory(env, caller, db, id, CategoryIn(name, db.categories[id].slug, Some(id)));
      o.reply.Success? && o.db.categories[id].parentId == Some(id)
  {
    var payload := CategoryIn(name, db.categories[id].slug, Some(id));
    var after := db.(categories := db.categories[id := CategoryOf(payload)]);
    assert KeysUnique(after) by {
      forall a, b | a in after.categories && b in after.categories && a != b
        ensures after.categories[a].slug != after.categories[b].slug
      {
        assert db.categories[a].slug != db.categories[b].slug;
      }
    }
  }

  /** Every category endpoint keeps the database valid. */
  lemma CategoryEndpointsPreserveValid(env: Env, caller: Caller, db: Db, id: int, payload: CategoryIn)
    requires Valid(db)
    ensures Valid(CreateCategory(env, caller, db, payload).db)
    ensures Valid(UpdateCategory(env, caller, db, id, payload).db)
    ensures Valid(DeleteCategory(env, caller, db, id).db)
  {
  }
}
