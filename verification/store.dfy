/** The catalog's rows as TG Shop/backend/models.py declares them, and the
    constraints the database checks when a transaction commits. */
module Store {
  import opened Wrappers
  import opened Values
  import opened Http

  datatype Category = Category(name: string, slug: string, parentId: Option<int>)

  /** `price` is the exact decimal the row stores; `images` and `attributes`
      are JSON columns, RNone being SQL NULL. */
  datatype Product = Product(
    title: string,
    slug: string,
    description: Option<string>,
    price: real,
    currency: string,
    stock: int,
    isActive: bool,
    images: Raw,
    attributes: Raw,
    categoryId: int)

  datatype User = User(tgId: int, isActive: bool, isAdmin: bool)

  /** The three tables keyed by primary key, and the next value of each
      table's id sequence. */
  datatype Db = Db(
    categories: map<int, Category>,
    products: map<int, Product>,
    users: map<int, User>,
    nextCategory: int,
    nextProduct: int,
    nextUser: int)

  /** A product row as the product endpoints return it. */
  datatype Row = Row(id: int, product: Product)

  /** What a handler leaves behind: the state of the database and the
      answer. A failure after the commit leaves the committed state. */
  datatype Outcome<T> = Outcome(db: Db, reply: Result<T, Failure>)

  const Int4Max: int := 0x7fff_ffff
  const Int4Min: int := -0x8000_0000

  predicate IsInt4(n: int) {
    Int4Min <= n <= Int4Max
  }

  /** Numeric(12, 2) holds at most ten digits before the point. */
  predicate FitsPrice(price: real) {
    -10_000_000_000.0 < price < 10_000_000_000.0
  }

  predicate CategoryFits(c: Category) {
    |c.name| <= 200 && |c.slug| <= 200
  }

  predicate ProductFits(p: Product) {
    && |p.title| <= 255
    && |p.slug| <= 255
    && |p.currency| <= 3
    && IsInt4(p.stock)
    && IsInt4(p.categoryId)
    && FitsPrice(p.price)
  }

  predicate UserFits(u: User) {
    IsInt4(u.tgId)
  }

  /** Foreign keys: a category's parent and a product's category exist. */
  predicate ReferencesResolve(db: Db) {
    && (forall c :: c in db.categories && db.categories[c].parentId.Some? ==>
          db.categories[c].parentId.value in db.categories)
    && (forall p :: p in db.products ==> db.products[p].categoryId in db.categories)
  }

  /** Unique constraints: category slug, product slug, user Telegram id. */
  predicate KeysUnique(db: Db) {
    && (forall a, b :: a in db.categories && b in db.categories && a != b ==>
          db.categories[a].slug != db.categories[b].slug)
    && (forall a, b :: a in db.products && b in db.products && a != b ==>
          db.products[a].slug != db.products[b].slug)
    && (forall a, b :: a in db.users && b in db.users && a != b ==>
          db.users[a].tgId != db.users[b].tgId)
  }

  predicate ColumnsFit(db: Db) {
    && (forall c :: c in db.categories ==> CategoryFits(db.categories[c]))
    && (forall p :: p in db.products ==> ProductFits(db.products[p]))
    && (forall u :: u in db.users ==> UserFits(db.users[u]))
  }

  /** Everything the database enforces at commit. */
  predicate Admissible(db: Db) {
    ReferencesResolve(db) && KeysUnique(db) && ColumnsFit(db)
  }

  /** Every id in use lies below its sequence's next value. */
  predicate SequencesAhead(db: Db) {
    && (forall c :: c in db.categories ==> c < db.nextCategory)
    && (forall p :: p in db.products ==> p < db.nextProduct)
    && (forall u :: u in db.users ==> u < db.nextUser)
  }

  /** The invariant every committed state satisfies. */
  predicate Valid(db: Db) {
    Admissible(db) && SequencesAhead(db)
  }

  /** `session.commit()`: the new state if the database accepts it, else
      the IntegrityError (or DataError) nothing catches, and the old state. */
  function Commit<T>(before: Db, after: Db, out: T): (r: Outcome<T>)
    ensures r.reply.Success? <==> Admissible(after)
    ensures r.reply.Success? ==> r == Outcome(after, Success(out))
    ensures r.reply.Failure? ==> r == Outcome(before, Failure(Internal))
  {
    if Admissible(after) then Outcome(after, Success(out)) else Outcome(before, Failure(Internal))
  }

  /** Whether `ProductOut(...)` accepts the row's JSON columns:
      `images` must be None or a list of text, `attributes` None or a
      dict. A row that fails makes the endpoint answer 500. */
  predicate Presentable(p: Product) {
    && (p.images.RNone? || (p.images.RList? && AllText(p.images.items)))
    && (p.attributes.RNone? || p.attributes.RMap?)
  }
}
