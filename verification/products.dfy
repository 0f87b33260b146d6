/** The product endpoints of backend/api.py that change or fetch one row:
    `get_product`, `create_product`, `update_product`, `delete_product`. */
module Products {
  import opened Wrappers
  import opened Text
  import opened Http
  import opened Values
  import opened Body
  import opened Schema
  import opened Slug
  import opened Store
  import opened Catalog

  /** The allow-list both writing endpoints hand to `parse_json_or_form`. */
  const ProductFields: seq<string> :=
    ["title", "slug", "description", "price", "currency",
     "stock", "is_active", "images", "attributes", "category_id"]

  /** `get_product`. */
  function GetProduct(db: Db, id: int): (r: Result<Row, Failure>)
    ensures r == Failure(NotFound) <==> id !in db.products
    ensures r.Success? ==> r.value == Row(id, db.products[id]) && Presentable(r.value.product)
    ensures r.Failure? ==> r.error == NotFound || r.error == Internal
  {
    if id !in db.products then Failure(NotFound)
    else if !Presentable(db.products[id]) then Failure(Internal)
    else Success(Row(id, db.products[id]))
  }

  /** The row `create_product` stores for a validated body. */
  function ProductOf(payload: ProductIn): (p: Product)
    requires payload.categoryId.Some?
    ensures p.slug != []
  {
    SlugifyShape(payload.title);
    var slug := if payload.slug.Some? && payload.slug.value != [] then payload.slug.value else Slugify(payload.title);
    Product(
      title := payload.title,
      slug := slug,
      description := payload.description,
      price := payload.price,
      currency := payload.currency,
      stock := payload.stock,
      isActive := payload.isActive,
      images := if payload.images.None? then RNone else RList(TextItems(payload.images.value)),
      attributes := if payload.attributes.None? then RNone else RMap(payload.attributes.value),
      categoryId := payload.categoryId.value)
  }

  /** The stored row carries the validated values, and its slug is the
      payload's when there is one and `slugify` of the title otherwise
      (`payload.slug or slugify(payload.title)`). */
  lemma ProductOfFields(payload: ProductIn)
    requires payload.categoryId.Some?
    ensures var p := ProductOf(payload);
      && (payload.slug.Some? && payload.slug.value != [] ==> p.slug == payload.slug.value)
      && (payload.slug.None? || payload.slug.value == [] ==> p.slug == Slugify(payload.title))
      && p.title == payload.title && p.description == payload.description
      && p.price == payload.price && p.currency == payload.currency
      && p.stock == payload.stock && p.isActive == payload.isActive
      && p.categoryId == payload.categoryId.value
      && (p.images.RNone? <==> payload.images.None?)
      && (payload.images.Some? ==>
            p.images.RList? && AllText(p.images.items) && Texts(p.images.items) == payload.images.value)
      && (p.attributes.RNone? <==> payload.attributes.None?)
      && (payload.attributes.Some? ==> p.attributes == RMap(payload.attributes.value))
  {
  }

  /** Commit, then build `ProductOut` from the committed row. */
  function CommitRow(before: Db, after: Db, id: int, p: Product): (o: Outcome<Row>)
    ensures o.reply.Success? <==> Admissible(after) && Presentable(p)
    ensures o.reply.Success? ==> o == Outcome(after, Success(Row(id, p)))
    ensures !Admissible(after) ==> o == Outcome(before, Failure(Internal))
    ensures Admissible(after) && !Presentable(p) ==> o == Outcome(after, Failure(Internal))
  {
    var c := Commit(before, after, Row(id, p));
    if c.reply.Success? && !Presentable(p) then Outcome(after, Failure(Internal)) else c
  }

  /** `create_product`: admin only; the body is normalised, validated,
      given a slug from its title when it has none, and stored under the
      next id. */
  function CreateProduct(env: Env, caller: Caller, db: Db, req: Request): (o: Outcome<Row>)
    ensures Gate(env, caller).Failure? ==> o == Outcome(db, Failure(Gate(env, caller).error))
    ensures o.reply.Failure? ==> o.db == db
    ensures o.reply.Success? ==>
      && Gate(env, caller).Success?
      && ParseJsonOrForm(req, ProductFields).Success?
      && var payload := BuildProductIn(ParseJsonOrForm(req, ProductFields).value, env.oracles);
      && payload.Success? && payload.value.categoryId.Some?
      && o.reply.value == Row(db.nextProduct, ProductOf(payload.value))
      && o.db == Inserted(db, ProductOf(payload.value))
      && Admissible(o.db)
  {
    if Gate(env, caller).Failure? then Outcome(db, Failure(Gate(env, caller).error))
    else
      match ParseJsonOrForm(req, ProductFields)
      case Failure(f) => Outcome(db, Failure(f))
      case Success(raw) => CreateFromFields(db, raw, env.oracles)
  }

  /** The database after inserting `p` under the next product id. */
  function Inserted(db: Db, p: Product): Db {
    db.(products := db.products[db.nextProduct := p], nextProduct := db.nextProduct + 1)
  }

  /** What `create_product` does with the parsed body once the gate has
      passed: build `ProductIn`, insist on a category, insert. */
  function CreateFromFields(db: Db, raw: map<string, Raw>, oracles: Oracles): (o: Outcome<Row>)
    ensures o.reply.Failure? ==> o.db == db
    ensures o.reply.Success? ==>
      && BuildProductIn(raw, oracles).Success?
      && BuildProductIn(raw, oracles).value.categoryId.Some?
      && o.reply.value == Row(db.nextProduct, ProductOf(BuildProductIn(raw, oracles).value))
      && o.db == Inserted(db, o.reply.value.product)
      && Admissible(o.db)
  {
    match BuildProductIn(raw, oracles)
    case Failure(f) => Outcome(db, Failure(f))
    case Success(payload) =>
      if payload.categoryId.None? then Outcome(db, Failure(Unprocessable))
      else
        PayloadPresentable(payload);
        CommitRow(db, Inserted(db, ProductOf(payload)), db.nextProduct, ProductOf(payload))
  }

  /** A validated body always yields a row `ProductOut` accepts. */
  lemma PayloadPresentable(payload: ProductIn)
    requires payload.categoryId.Some?
    ensures Presentable(ProductOf(payload))
  {
  }

  /** An admin's body that validates, names an existing category and gets
      a slug no other product has is stored under the next id, as the row
      `ProductOf` builds, provided the row fits its columns. */
  lemma CreateProductSucceeds(env: Env, caller: Caller, db: Db, req: Request)
    requires Gate(env, caller).Success? && Valid(db)
    requires ParseJsonOrForm(req, ProductFields).Success?
    requires var payload := BuildProductIn(ParseJsonOrForm(req, ProductFields).value, env.oracles);
      && payload.Success? && payload.value.categoryId.Some?
      && payload.value.categoryId.value in db.categories
      && (forall k :: k in db.products ==> db.products[k].slug != ProductOf(payload.value).slug)
      && ProductFits(ProductOf(payload.value))
    ensures var payload := BuildProductIn(ParseJsonOrForm(req, ProductFields).value, env.oracles).value;
      CreateProduct(env, caller, db, req) == Outcome(Inserted(db, ProductOf(payload)), Success(Row(db.nextProduct, ProductOf(payload))))
  {
    CreateProductGated(env, caller, db, req);
    CreateFromFieldsSucceeds(db, ParseJsonOrForm(req, ProductFields).value, env.oracles);
  }

  lemma CreateFromFieldsSucceeds(db: Db, raw: map<string, Raw>, oracles: Oracles)
    requires Valid(db)
    requires var payload := BuildProductIn(raw, oracles);
      && payload.Success? && payload.value.categoryId.Some?
      && payload.value.categoryId.value in db.categories
      && (forall k :: k in db.products ==> db.products[k].slug != ProductOf(payload.value).slug)
      && ProductFits(ProductOf(payload.value))
    ensures var p := ProductOf(BuildProductIn(raw, oracles).value);
      CreateFromFields(db, raw, oracles) == Outcome(Inserted(db, p), Success(Row(db.nextProduct, p)))
  {
    var payload := BuildProductIn(raw, oracles).value;
    CreateFromFieldsCommits(db, raw, oracles);
    PayloadPresentable(payload);
    InsertAdmissible(db, ProductOf(payload));
  }

  lemma CreateProductGated(env: Env, caller: Caller, db: Db, req: Request)
    requires Gate(env, caller).Success? && ParseJsonOrForm(req, ProductFields).Success?
    ensures CreateProduct(env, caller, db, req) == CreateFromFields(db, ParseJsonOrForm(req, ProductFields).value, env.oracles)
  {
  }

  lemma CreateFromFieldsCommits(db: Db, raw: map<string, Raw>, oracles: Oracles)
    requires BuildProductIn(raw, oracles).Success? && BuildProductIn(raw, oracles).value.categoryId.Some?
    ensures var p := ProductOf(BuildProductIn(raw, oracles).value);
      CreateFromFields(db, raw, oracles) == CommitRow(db, Inserted(db, p), db.nextProduct, p)
  {
  }

  /** Inserting a fitting row with a fresh slug and an existing category
      under the next id keeps every constraint. */
  lemma InsertAdmissible(db: Db, p: Product)
    requires Valid(db)
    requires p.categoryId in db.categories && ProductFits(p)
    requires forall k :: k in db.products ==> db.products[k].slug != p.slug
    ensures Admissible(Inserted(db, p))
  {
    var after := Inserted(db, p);
    assert db.nextProduct !in db.products;
    assert KeysUnique(after) by {
      forall a, b | a in after.products && b in after.products && a != b
        ensures after.products[a].slug != after.products[b].slug
      {
      }
    }
  }

  /** A worked example: "Nice Shoes" sent with
      no slug is stored with the slug "nice-shoes". */
  lemma NiceShoes(env: Env, caller: Caller, db: Db, category: int)
    requires Gate(env, caller).Success? && Valid(db)
    requires category in db.categories && IsInt4(category)
    requires forall k :: k in db.products ==> db.products[k].slug != "nice-shoes"
    ensures var req := Request(Some("application/json"), Some(RMap(MinimalBody("Nice Shoes", 10, category))), map[]);
      var o := CreateProduct(env, caller, db, req);
      && o.reply.Success?
      && o.reply.value.id == db.nextProduct
      && o.reply.value.product.title == "Nice Shoes"
      && o.reply.value.product.slug == "nice-shoes"
      && o.reply.value.product.price == 10.0
      && o.reply.value.product.currency == "RUB"
  {
    var req := Request(Some("application/json"), Some(RMap(MinimalBody("Nice Shoes", 10, category))), map[]);
    NiceShoesFieldsAllowed(category);
    JsonObjectParses(MinimalBody("Nice Shoes", 10, category), ProductFields);
    var payload := NiceShoesPayload(category, env.oracles);
    NiceShoesRow(payload, category);
    CreateProductSucceeds(env, caller, db, req);
  }

  lemma NiceShoesRow(payload: ProductIn, category: int)
    requires && payload.title == "Nice Shoes" && payload.slug.None?
             && payload.price == 10.0 && payload.currency == "RUB"
             && payload.stock == 0 && payload.categoryId == Some(category) && IsInt4(category)
    ensures var p := ProductOf(payload);
      && p.title == "Nice Shoes" && p.slug == "nice-shoes" && p.price == 10.0 && p.currency == "RUB"
      && ProductFits(p)
  {
    ProductOfFields(payload);
    SlugOfNiceShoes();
  }

  lemma NiceShoesFieldsAllowed(category: int)
    ensures forall k :: k in MinimalBody("Nice Shoes", 10, category) ==> k in ProductFields
  {
    assert ProductFields[0] == "title";
    assert ProductFields[3] == "price";
    assert ProductFields[9] == "category_id";
  }

  lemma NiceShoesPayload(category: int, oracles: Oracles) returns (payload: ProductIn)
    ensures BuildProductIn(MinimalBody("Nice Shoes", 10, category), oracles) == Success(payload)
    ensures && payload.title == "Nice Shoes" && payload.slug.None?
            && payload.price == 10.0 && payload.currency == "RUB"
            && payload.stock == 0 && payload.categoryId == Some(category)
  {
    assert !IsBlank("Nice Shoes") by {
      assert !IsSpace("Nice Shoes"[0]);
    }
    assert Trim("Nice Shoes") == "Nice Shoes" by {
      TrimTrimmed("Nice Shoes");
    }
    BuildMinimal("Nice Shoes", 10, category, oracles);
    payload := BuildProductIn(MinimalBody("Nice Shoes", 10, category), oracles).value;
  }

  /** A request from an admin whose body names no category is answered 422. */
  lemma CreateNeedsCategory(env: Env, caller: Caller, db: Db, req: Request)
    requires Gate(env, caller).Success?
    ensures var body := ParseJsonOrForm(req, ProductFields);
      && body.Success? && "category_id" !in body.value
      && BuildProductIn(body.value, env.oracles).Success?
      ==> CreateProduct(env, caller, db, req) == Outcome(db, Failure(Unprocessable))
  {
  }

  /** `update_product`'s field-by-field assignments: each field present in
      the body is coerced and replaces the stored one. */
  function ApplyPatch(p: Product, raw: map<string, Raw>, oracles: Oracles): (r: Result<Product, Failure>)
    ensures r.Failure? <==>
      || ("price" in raw && ToFloat(raw["price"], oracles).None?)
      || ("category_id" in raw && ToIntOrNone(raw["category_id"]).None?)
    ensures r.Failure? ==>
      (r.error == Internal <==> "price" in raw && ToFloat(raw["price"], oracles).None?)
    ensures r.Failure? ==> r.error == Internal || r.error == Unprocessable
    ensures r.Success? ==>
      && ("title" !in raw ==> r.value.title == p.title)
      && ("slug" !in raw ==> r.value.slug == p.slug)
      && ("description" !in raw ==> r.value.description == p.description)
      && ("price" !in raw ==> r.value.price == p.price)
      && ("currency" !in raw ==> r.value.currency == p.currency)
      && ("stock" !in raw ==> r.value.stock == p.stock)
      && ("is_active" !in raw ==> r.value.isActive == p.isActive)
      && ("images" !in raw ==> r.value.images == p.images)
      && ("attributes" !in raw ==> r.value.attributes == p.attributes)
      && ("category_id" !in raw ==> r.value.categoryId == p.categoryId)
    ensures r.Success? && "title" in raw ==> IsTrimmed(r.value.title) && r.value.title == Trim(Render(raw["title"]))
    ensures r.Success? && "price" in raw ==> Some(r.value.price) == ToFloat(raw["price"], oracles)
    ensures r.Success? && "category_id" in raw ==> Some(r.value.categoryId) == ToIntOrNone(raw["category_id"])
    ensures r.Success? && "stock" in raw ==> r.value.stock == ToIntOrNone(raw["stock"]).GetOr(0)
    ensures r.Success? && "is_active" in raw ==> r.value.isActive == ToBool(raw["is_active"])
    ensures r.Success? && "slug" in raw ==> r.value.slug != []
    ensures r.Success? && "slug" in raw && IsBlank(Render(raw["slug"])) ==> r.value.slug == Slugify(r.value.title)
    ensures r.Success? && "currency" in raw && IsBlank(Render(raw["currency"])) ==> r.value.currency == p.currency
    ensures r.Success? && "description" in raw ==>
      (r.value.description.None? <==> IsBlank(Render(raw["description"])))
    ensures r.Success? ==> r.value == Patched(p, raw, oracles, r.value.price, r.value.categoryId)
  {
    var price := if "price" in raw then ToFloat(raw["price"], oracles) else Some(p.price);
    var category := if "category_id" in raw then ToIntOrNone(raw["category_id"]) else Some(p.categoryId);
    if price.None? then Failure(Internal)
    else if category.None? then Failure(Unprocessable)
    else Success(Patched(p, raw, oracles, price.value, category.value))
  }

  /** The row with every field but price and category taken from the body
      when present there. */
  function Patched(p: Product, raw: map<string, Raw>, oracles: Oracles, price: real, category: int): (r: Product)
    ensures r.price == price && r.categoryId == category
    ensures "title" !in raw ==> r.title == p.title
    ensures "slug" !in raw ==> r.slug == p.slug
    ensures "description" !in raw ==> r.description == p.description
    ensures "currency" !in raw ==> r.currency == p.currency
    ensures "stock" !in raw ==> r.stock == p.stock
    ensures "is_active" !in raw ==> r.isActive == p.isActive
    ensures "images" !in raw ==> r.images == p.images
    ensures "attributes" !in raw ==> r.attributes == p.attributes
    ensures "title" in raw ==> IsTrimmed(r.title) && r.title == Trim(Render(raw["title"]))
    ensures "stock" in raw ==> r.stock == ToIntOrNone(raw["stock"]).GetOr(0)
    ensures "is_active" in raw ==> r.isActive == ToBool(raw["is_active"])
    ensures "slug" in raw ==> r.slug != []
    ensures "slug" in raw && IsBlank(Render(raw["slug"])) ==> r.slug == Slugify(r.title)
    ensures "currency" in raw && IsBlank(Render(raw["currency"])) ==> r.currency == p.currency
    ensures "description" in raw ==> (r.description.None? <==> IsBlank(Render(raw["description"])))
    ensures "slug" in raw && !IsBlank(Render(raw["slug"])) ==> r.slug == Trim(Render(raw["slug"]))
    ensures "currency" in raw && !IsBlank(Render(raw["currency"])) ==> r.currency == Upper(Trim(Render(raw["currency"])))
    ensures "description" in raw && !IsBlank(Render(raw["description"])) ==>
      r.description == Some(Trim(Render(raw["description"])))
    ensures "images" in raw ==> r.images == Decoded(raw["images"], oracles)
    ensures "attributes" in raw ==> r.attributes == Decoded(raw["attributes"], oracles)
  {
    var title := PatchedTitle(raw, p.title);
    Product(
      title,
      if "slug" in raw then PatchedSlug(Render(raw["slug"]), title) else p.slug,
      PatchedDescription(raw, p.description),
      price,
      if "currency" in raw then PatchedCurrency(Render(raw["currency"]), p.currency) else p.currency,
      if "stock" in raw then ToIntOrNone(raw["stock"]).GetOr(0) else p.stock,
      if "is_active" in raw then ToBool(raw["is_active"]) else p.isActive,
      if "images" in raw then Decoded(raw["images"], oracles) else p.images,
      if "attributes" in raw then Decoded(raw["attributes"], oracles) else p.attributes,
      category)
  }

  /** `str(v).strip() or None` for the description. */
  function PatchedDescription(raw: map<string, Raw>, current: Option<string>): (r: Option<string>)
    ensures "description" !in raw ==> r == current
    ensures "description" in raw ==> (r.None? <==> IsBlank(Render(raw["description"])))
    ensures "description" in raw && !IsBlank(Render(raw["description"])) ==> r == Some(Trim(Render(raw["description"])))
  {
    if "description" in raw then StripOrNone(Some(Render(raw["description"]))) else current
  }

  /** `str(v).strip()` for the title. */
  function PatchedTitle(raw: map<string, Raw>, current: string): (r: string)
    ensures "title" !in raw ==> r == current
    ensures "title" in raw ==> IsTrimmed(r) && r == Trim(Render(raw["title"]))
  {
    if "title" in raw then
      TrimTrimmed(Render(raw["title"]));
      Trim(Render(raw["title"]))
    else current
  }

  /** `s or slugify(p.title)` with `s` the stripped text. */
  function PatchedSlug(text: string, title: string): (r: string)
    ensures r != []
    ensures IsBlank(text) ==> r == Slugify(title)
    ensures !IsBlank(text) ==> r == Trim(text) && IsTrimmed(r) && !IsBlank(r)
  {
    TrimBlank(text);
    TrimTrimmed(text);
    SlugifyShape(title);
    var s := Trim(text);
    if s == [] then Slugify(title) else s
  }

  /** `str(v).strip().upper() or p.currency`. */
  function PatchedCurrency(text: string, current: string): (r: string)
    ensures IsBlank(text) ==> r == current
    ensures !IsBlank(text) ==> r == Upper(Trim(text)) && r != [] && Upper(r) == r && IsTrimmed(r)
  {
    TrimBlank(text);
    TrimTrimmed(text);
    UpperTrimmed(Trim(text));
    UpperIdempotent(Trim(text));
    var c := Upper(Trim(text));
    if c == [] then current else c
  }

  /** A body with no fields changes nothing. */
  lemma EmptyPatchKeeps(p: Product, oracles: Oracles)
    ensures ApplyPatch(p, map[], oracles) == Success(p)
  {
  }

  /** Sending the same patch twice has the effect of sending it once. */
  lemma ApplyPatchIdempotent(p: Product, raw: map<string, Raw>, oracles: Oracles)
    requires ApplyPatch(p, raw, oracles).Success?
    ensures ApplyPatch(ApplyPatch(p, raw, oracles).value, raw, oracles) == ApplyPatch(p, raw, oracles)
  {
    var q := ApplyPatch(p, raw, oracles).value;
    PatchedIdempotent(p, raw, oracles, q.price, q.categoryId);
  }

  lemma PatchedIdempotent(p: Product, raw: map<string, Raw>, oracles: Oracles, price: real, category: int)
    ensures var q := Patched(p, raw, oracles, price, category);
      Patched(q, raw, oracles, price, category) == q
  {
    var q := Patched(p, raw, oracles, price, category);
    var r := Patched(q, raw, oracles, price, category);
    assert PatchedTitle(raw, q.title) == q.title;
    assert r.title == q.title;
    assert r.slug == q.slug;
    assert PatchedDescription(raw, q.description) == q.description;
    assert r.description == q.description;
    assert r.currency == q.currency;
  }

  /** `update_product`: admin only, 404 before the body is read, then the
      patch; a row `ProductOut` rejects is committed before the 500. */
  function UpdateProduct(env: Env, caller: Caller, db: Db, id: int, req: Request): (o: Outcome<Row>)
    ensures Gate(env, caller).Failure? ==> o == Outcome(db, Failure(Gate(env, caller).error))
    ensures Gate(env, caller).Success? && id !in db.products ==> o == Outcome(db, Failure(NotFound))
    ensures o.reply.Success? ==>
      && id in db.products
      && o.reply.value.id == id
      && o.db == db.(products := db.products[id := o.reply.value.product])
      && Presentable(o.reply.value.product)
    ensures o.db == db || (id in db.products && o.db.products.Keys == db.products.Keys)
    ensures o.reply.Success? ==>
      && Gate(env, caller).Success?
      && id in db.products
      && ParseJsonOrForm(req, ProductFields).Success?
      && ApplyPatch(db.products[id], ParseJsonOrForm(req, ProductFields).value, env.oracles)
         == Success(o.reply.value.product)
  {
    if Gate(env, caller).Failure? then Outcome(db, Failure(Gate(env, caller).error))
    else if id !in db.products then Outcome(db, Failure(NotFound))
    else
      match ParseJsonOrForm(req, ProductFields)
      case Failure(f) => Outcome(db, Failure(f))
      case Success(raw) =>
        match ApplyPatch(db.products[id], raw, env.oracles)
        case Failure(f) => Outcome(db, Failure(f))
        case Success(p) => CommitRow(db, db.(products := db.products[id := p]), id, p)
  }

  /** An admin's patch of a stored product that applies, leaves the
      database's constraints intact and gives a row `ProductOut` accepts
      is stored over the old row and returned. */
  lemma UpdateProductSucceeds(env: Env, caller: Caller, db: Db, id: int, req: Request)
    requires Gate(env, caller).Success? && id in db.products
    requires ParseJsonOrForm(req, ProductFields).Success?
    requires var q := ApplyPatch(db.products[id], ParseJsonOrForm(req, ProductFields).value, env.oracles);
      && q.Success? && Presentable(q.value)
      && Admissible(db.(products := db.products[id := q.value]))
    ensures var q := ApplyPatch(db.products[id], ParseJsonOrForm(req, ProductFields).value, env.oracles).value;
      UpdateProduct(env, caller, db, id, req) == Outcome(db.(products := db.products[id := q]), Success(Row(id, q)))
  {
  }

  /** `delete_product`: a bulk DELETE; a missing id is no error. */
  function DeleteProduct(env: Env, caller: Caller, db: Db, id: int): (o: Outcome<()>)
    ensures Gate(env, caller).Failure? ==> o == Outcome(db, Failure(Gate(env, caller).error))
    ensures o.reply.Success? ==> o.db == db.(products := db.products - {id})
    ensures o.reply.Failure? ==> o.db == db
  {
    if Gate(env, caller).Failure? then Outcome(db, Failure(Gate(env, caller).error))
    else Commit(db, db.(products := db.products - {id}), ())
  }

  /** Nothing refers to a product, so an admin's delete always succeeds on
      a valid database and removes that row only. */
  lemma DeleteProductSucceeds(env: Env, caller: Caller, db: Db, id: int)
    requires Gate(env, caller).Success? && Valid(db)
    ensures DeleteProduct(env, caller, db, id) == Outcome(db.(products := db.products - {id}), Success(()))
  {
  }

  /** Every product endpoint keeps the database valid. */
  lemma CreateProductPreservesValid(env: Env, caller: Caller, db: Db, req: Request)
    requires Valid(db)
    ensures Valid(CreateProduct(env, caller, db, req).db)
  {
    var o := CreateProduct(env, caller, db, req);
    if o.reply.Success? {
      InsertKeepsAhead(db, o.reply.value.product);
    }
  }

  lemma InsertKeepsAhead(db: Db, p: Product)
    requires SequencesAhead(db)
    ensures SequencesAhead(db.(products := db.products[db.nextProduct := p], nextProduct := db.nextProduct + 1))
  {
  }

  lemma UpdateProductPreservesValid(env: Env, caller: Caller, db: Db, id: int, req: Request)
    requires Valid(db)
    ensures Valid(UpdateProduct(env, caller, db, id, req).db)
  {
  }

  lemma DeleteProductPreservesValid(env: Env, caller: Caller, db: Db, id: int)
    requires Valid(db)
    ensures Valid(DeleteProduct(env, caller, db, id).db)
  {
  }
}
