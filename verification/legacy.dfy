/** The product writes of WebAppTG/backend/api.py. That file's gate, user,
    category, listing, lookup and delete endpoints are the ones of
    backend/api.py word for word and are modelled once, in `Admin`,
    `Catalog`, `Listing` and `Products`; only `ProductIn` and the two
    writing endpoints differ. */
module Legacy {
  import opened Wrappers
  import opened Text
  import opened Http
  import opened Values
  import opened Schema
  import opened Store
  import opened Catalog

  /** The strictly typed `ProductIn` body after JSON decoding: `slug` and
      `category_id` are required. */
  datatype LegacyProductIn = LegacyProductIn(
    title: string,
    slug: string,
    description: Option<string>,
    price: real,
    currency: string,
    stock: int,
    isActive: bool,
    images: Option<seq<string>>,
    attributes: Option<map<string, Raw>>,
    categoryId: int)

  /** The `Field` limits; a body that fails is answered 422. Blank text
      passes: there is no title validator here. */
  predicate LegacyValid(payload: LegacyProductIn) {
    && |payload.title| <= 255
    && |payload.slug| <= 255
    && payload.price >= 0.0
    && |payload.currency| == 3
    && payload.stock >= 0
  }

  /** `_validate_images`: drops blank entries and keeps the others as sent,
      surrounding whitespace included. */
  function KeepNonBlank(images: seq<string>): (r: seq<string>)
    ensures |r| <= |images|
    ensures forall i :: 0 <= i < |r| ==> !IsBlank(r[i])
    ensures forall s :: s in r <==> s in images && !IsBlank(s)
  {
    if images == [] then []
    else
      var rest := KeepNonBlank(images[1..]);
      assert forall s :: s in images <==> s == images[0] || s in images[1..];
      if IsBlank(images[0]) then rest else [images[0]] + rest
  }

  /** The filter goes entry by entry, so the kept images stay in the order
      they were sent. */
  lemma {:induction false} KeepNonBlankAppend(a: seq<string>, b: seq<string>)
    ensures KeepNonBlank(a + b) == KeepNonBlank(a) + KeepNonBlank(b)
  {
    if a == [] {
      assert a + b == b;
    } else {
      assert (a + b)[0] == a[0] && (a + b)[1..] == a[1..] + b;
      KeepNonBlankAppend(a[1..], b);
    }
  }

  /** One entry: dropped when blank, otherwise kept as sent. */
  lemma KeepNonBlankOne(s: string)
    ensures KeepNonBlank([s]) == if IsBlank(s) then [] else [s]
  {
  }

  /** Entries that are all non-blank pass unchanged. */
  lemma {:induction false} KeepNonBlankKeeps(images: seq<string>)
    requires forall i :: 0 <= i < |images| ==> !IsBlank(images[i])
    ensures KeepNonBlank(images) == images
  {
    if images != [] {
      KeepNonBlankKeeps(images[1..]);
    }
  }

  lemma KeepNonBlankIdempotent(images: seq<string>)
    ensures KeepNonBlank(KeepNonBlank(images)) == KeepNonBlank(images)
  {
    KeepNonBlankKeeps(KeepNonBlank(images));
  }

  /** The row both endpoints store: currency upper-cased, images filtered. */
  function LegacyProductOf(payload: LegacyProductIn): (p: Product)
    ensures Presentable(p)
    ensures p.currency == Upper(payload.currency)
    ensures p.title == payload.title && p.slug == payload.slug && p.categoryId == payload.categoryId
    ensures && p.description == payload.description && p.price == payload.price
            && p.stock == payload.stock && p.isActive == payload.isActive
    ensures p.images.RNone? <==> payload.images.None?
    ensures payload.images.Some? ==>
      p.images.RList? && AllText(p.images.items) && Texts(p.images.items) == KeepNonBlank(payload.images.value)
    ensures p.attributes.RNone? <==> payload.attributes.None?
    ensures payload.attributes.Some? ==> p.attributes == RMap(payload.attributes.value)
  {
    UpperIdempotent(payload.currency);
    Product(
      title := payload.title,
      slug := payload.slug,
      description := payload.description,
      price := payload.price,
      currency := Upper(payload.currency),
      stock := payload.stock,
      isActive := payload.isActive,
      images := if payload.images.None? then RNone else RList(TextItems(KeepNonBlank(payload.images.value))),
      attributes := if payload.attributes.None? then RNone else RMap(payload.attributes.value),
      categoryId := payload.categoryId)
  }

  /** `create_product`: admin only, then the body, then the insert. */
  function LegacyCreateProduct(env: Env, caller: Caller, db: Db, payload: LegacyProductIn): (o: Outcome<Row>)
    ensures Gate(env, caller).Failure? ==> o == Outcome(db, Failure(Gate(env, caller).error))
    ensures Gate(env, caller).Success? && !LegacyValid(payload) ==> o == Outcome(db, Failure(Unprocessable))
    ensures o.reply.Success? ==>
      && o.reply.value == Row(db.nextProduct, LegacyProductOf(payload))
      && o.db == db.(products := db.products[db.nextProduct := LegacyProductOf(payload)], nextProduct := db.nextProduct + 1)
    ensures o.reply.Failure? ==> o.db == db
  {
    if Gate(env, caller).Failure? then Outcome(db, Failure(Gate(env, caller).error))
    else if !LegacyValid(payload) then Outcome(db, Failure(Unprocessable))
    else
      var id := db.nextProduct;
      Commit(db, db.(products := db.products[id := LegacyProductOf(payload)], nextProduct := id + 1),
        Row(id, LegacyProductOf(payload)))
  }

  /** `update_product`: a full overwrite; every field comes from the body. */
  function LegacyUpdateProduct(env: Env, caller: Caller, db: Db, id: int, payload: LegacyProductIn): (o: Outcome<Row>)
    ensures Gate(env, caller).Failure? ==> o == Outcome(db, Failure(Gate(env, caller).error))
    ensures Gate(env, caller).Success? && !LegacyValid(payload) ==> o == Outcome(db, Failure(Unprocessable))
    ensures Gate(env, caller).Success? && LegacyValid(payload) && id !in db.products ==>
      o == Outcome(db, Failure(NotFound))
    ensures o.reply.Success? ==>
      && id in db.products
      && o.reply.value == Row(id, LegacyProductOf(payload))
      && o.db == db.(products := db.products[id := LegacyProductOf(payload)])
    ensures o.reply.Failure? ==> o.db == db
  {
    if Gate(env, caller).Failure? then Outcome(db, Failure(Gate(env, caller).error))
    else if !LegacyValid(payload) then Outcome(db, Failure(Unprocessable))
    else if id !in db.products then Outcome(db, Failure(NotFound))
    else Commit(db, db.(products := db.products[id := LegacyProductOf(payload)]), Row(id, LegacyProductOf(payload)))
  }

  /** The stored row after an update does not depend on what was stored
      before: two databases that differ only in that row end up equal. */
  lemma LegacyUpdateForgetsOldRow(env: Env, caller: Caller, db: Db, id: int, old1: Product, old2: Product, payload: LegacyProductIn)
    requires id in db.products
    requires LegacyUpdateProduct(env, caller, db.(products := db.products[id := old1]), id, payload).reply.Success?
    requires LegacyUpdateProduct(env, caller, db.(products := db.products[id := old2]), id, payload).reply.Success?
    ensures LegacyUpdateProduct(env, caller, db.(products := db.products[id := old1]), id, payload)
         == LegacyUpdateProduct(env, caller, db.(products := db.products[id := old2]), id, payload)
  {
    assert db.products[id := old1][id := LegacyProductOf(payload)] == db.products[id := old2][id := LegacyProductOf(payload)];
  }

  /** Repeating an update changes nothing more. */
  lemma LegacyUpdateIdempotent(env: Env, caller: Caller, db: Db, id: int, payload: LegacyProductIn)
    requires LegacyUpdateProduct(env, caller, db, id, payload).reply.Success?
    ensures var o := LegacyUpdateProduct(env, caller, db, id, payload);
      LegacyUpdateProduct(env, caller, o.db, id, payload) == o
  {
    var o := LegacyUpdateProduct(env, caller, db, id, payload);
    assert o.db.products[id := LegacyProductOf(payload)] == o.db.products;
  }

  /** Unlike `ProductIn` of backend/api.py, this one stores a blank title. */
  lemma LegacyAcceptsBlankTitle(env: Env, caller: Caller, db: Db, payload: LegacyProductIn)
    requires Gate(env, caller).Success? && LegacyValid(payload) && IsBlank(payload.title)
    requires Admissible(db.(products := db.products[db.nextProduct := LegacyProductOf(payload)], nextProduct := db.nextProduct + 1))
    ensures LegacyCreateProduct(env, caller, db, payload).reply.Success?
    ensures IsBlank(LegacyCreateProduct(env, caller, db, payload).reply.value.product.title)
    ensures ValidateTitle(payload.title).None?
  {
  }
}
