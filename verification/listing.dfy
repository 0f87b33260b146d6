/** `list_products` of backend/api.py: query validation, the conjunction
    of filters, newest first, then `LIMIT` and `OFFSET`. */
module Listing {
  import opened Wrappers
  import opened Text
  import opened Http
  import opened Store
  import opened Search
  import opened Keys

  /** The filtering query parameters after FastAPI has parsed them. */
  datatype Filter = Filter(
    q: Option<string>,
    categoryId: Option<int>,
    minPrice: Option<real>,
    maxPrice: Option<real>,
    isActive: Option<bool>)

  /** All query parameters: the filters and the page. */
  datatype ProductQuery = ProductQuery(filter: Filter, limit: int, offset: int)

  /** The parameters a request leaves out. */
  const DefaultQuery := ProductQuery(Filter(None, None, None, None, Some(true)), 50, 0)

  /** `Query(..., ge=..., le=...)`: a query that fails is answered 422. */
  predicate ValidQuery(query: ProductQuery) {
    && 1 <= query.limit <= 200
    && query.offset >= 0
    && (query.filter.minPrice.Some? ==> query.filter.minPrice.value >= 0.0)
    && (query.filter.maxPrice.Some? ==> query.filter.maxPrice.value >= 0.0)
  }

  /** The text filter: title or description contains the search text. A
      NULL description matches nothing. */
  predicate TextHit(p: Product, q: string) {
    SearchHit(p.title, q) || (p.description.Some? && SearchHit(p.description.value, q))
  }

  /** Every given filter holds; an empty search text is no filter. */
  predicate Matches(p: Product, f: Filter) {
    && (f.isActive.Some? ==> p.isActive == f.isActive.value)
    && (f.categoryId.Some? ==> p.categoryId == f.categoryId.value)
    && (f.minPrice.Some? ==> p.price >= f.minPrice.value)
    && (f.maxPrice.Some? ==> p.price <= f.maxPrice.value)
    && (f.q.Some? && f.q.value != [] ==> TextHit(p, f.q.value))
  }

  predicate KeysIn(ids: seq<int>, products: map<int, Product>) {
    forall i :: 0 <= i < |ids| ==> ids[i] in products
  }

  /** The ids of `ids` whose product matches, in their order. */
  function Select(ids: seq<int>, products: map<int, Product>, f: Filter): (r: seq<int>)
    requires KeysIn(ids, products)
    ensures |r| <= |ids|
    ensures KeysIn(r, products)
    ensures forall x :: x in r ==> x in ids && Matches(products[x], f)
    ensures forall i :: 0 <= i < |ids| && Matches(products[ids[i]], f) ==> ids[i] in r
  {
    if ids == [] then []
    else
      var rest := Select(ids[1..], products, f);
      assert forall i :: 1 <= i < |ids| ==> ids[i] == ids[1..][i - 1];
      assert forall x :: x in ids[1..] ==> x in ids;
      if Matches(products[ids[0]], f) then [ids[0]] + rest else rest
  }

  /** Selecting keeps the order of the ids. */
  lemma {:induction false} SelectDescending(ids: seq<int>, products: map<int, Product>, f: Filter)
    requires KeysIn(ids, products) && StrictlyDescending(ids)
    ensures StrictlyDescending(Select(ids, products, f))
  {
    if ids != [] {
      var rest := Select(ids[1..], products, f);
      assert StrictlyDescending(ids[1..]);
      SelectDescending(ids[1..], products, f);
      forall x | x in rest
        ensures x < ids[0]
      {
        var i :| 0 <= i < |ids[1..]| && ids[1..][i] == x;
        assert ids[i + 1] == x;
      }
    }
  }

  /** The ids of all matching products, newest (largest id) first. */
  function Matching(db: Db, f: Filter): (r: seq<int>)
    ensures KeysIn(r, db.products)
    ensures forall x :: x in r <==> x in db.products && Matches(db.products[x], f)
    ensures StrictlyDescending(r)
  {
    var all := Descending(db.products.Keys);
    var r := Select(all, db.products, f);
    SelectDescending(all, db.products, f);
    assert forall x :: x in db.products ==> exists i :: 0 <= i < |all| && all[i] == x;
    r
  }

  function Min(a: int, b: int): int {
    if a <= b then a else b
  }

  /** `LIMIT limit OFFSET offset`. */
  function Window(s: seq<int>, offset: nat, limit: nat): (r: seq<int>)
    ensures |r| <= limit
    ensures |r| == Min(offset + limit, |s|) - Min(offset, |s|)
    ensures forall i :: 0 <= i < |r| ==> r[i] == s[Min(offset, |s|) + i]
  {
    s[Min(offset, |s|)..Min(offset + limit, |s|)]
  }

  lemma WindowDescending(s: seq<int>, offset: nat, limit: nat)
    requires StrictlyDescending(s)
    ensures StrictlyDescending(Window(s, offset, limit))
    ensures forall x :: x in Window(s, offset, limit) ==> x in s
  {
    var r := Window(s, offset, limit);
    forall x | x in r
      ensures x in s
    {
      var i :| 0 <= i < |r| && r[i] == x;
      assert s[Min(offset, |s|) + i] == x;
    }
  }

  /** Where a member of the window sits in the whole sequence. */
  lemma WindowPosition(s: seq<int>, offset: nat, limit: nat, x: int) returns (k: int)
    requires x in Window(s, offset, limit)
    ensures Min(offset, |s|) <= k < Min(offset + limit, |s|) && s[k] == x
  {
    var r := Window(s, offset, limit);
    var i :| 0 <= i < |r| && r[i] == x;
    k := Min(offset, |s|) + i;
  }

  lemma WindowHas(s: seq<int>, offset: nat, limit: nat, k: int)
    requires Min(offset, |s|) <= k < Min(offset + limit, |s|)
    ensures s[k] in Window(s, offset, limit)
  {
    assert Window(s, offset, limit)[k - Min(offset, |s|)] == s[k];
  }

  /** In a strictly descending sequence the larger value comes first. */
  lemma DescendingOrder(s: seq<int>, a: int, b: int)
    requires StrictlyDescending(s)
    requires 0 <= a < |s| && 0 <= b < |s| && s[a] > s[b]
    ensures a < b
  {
  }

  lemma WindowContiguous(s: seq<int>, offset: nat, limit: nat, x: int, y: int, z: int)
    requires StrictlyDescending(s)
    requires x in Window(s, offset, limit) && y in Window(s, offset, limit) && z in s
    requires y < z < x
    ensures z in Window(s, offset, limit)
  {
    var a := WindowPosition(s, offset, limit, x);
    var b := WindowPosition(s, offset, limit, y);
    var k :| 0 <= k < |s| && s[k] == z;
    DescendingOrder(s, a, k);
    DescendingOrder(s, k, b);
    WindowHas(s, offset, limit, k);
  }

  lemma WindowNextOlder(s: seq<int>, offset: nat, limit: nat, limit2: nat, x: int, y: int)
    requires StrictlyDescending(s)
    requires x in Window(s, offset, limit) && y in Window(s, offset + limit, limit2)
    ensures y < x
  {
    var a := WindowPosition(s, offset, limit, x);
    var b := WindowPosition(s, offset + limit, limit2, y);
    assert a < b;
    assert s[a] > s[b];
  }

  /** The ids `ListProducts` answers with. */
  function Page(db: Db, query: ProductQuery): (r: seq<int>)
    requires ValidQuery(query)
    ensures KeysIn(r, db.products)
    ensures forall x :: x in r ==> x in db.products && Matches(db.products[x], query.filter)
    ensures StrictlyDescending(r)
  {
    var m := Matching(db, query.filter);
    WindowDescending(m, query.offset, query.limit);
    Window(m, query.offset, query.limit)
  }

  function RowsOf(ids: seq<int>, products: map<int, Product>): (r: seq<Row>)
    requires KeysIn(ids, products)
    ensures |r| == |ids|
    ensures forall i :: 0 <= i < |ids| ==> r[i] == Row(ids[i], products[ids[i]])
  {
    if ids == [] then [] else [Row(ids[0], products[ids[0]])] + RowsOf(ids[1..], products)
  }

  predicate AllPresentable(rows: seq<Row>) {
    forall i :: 0 <= i < |rows| ==> Presentable(rows[i].product)
  }

  /** The rows of the page, each product as stored, newest first. */
  function PageRows(db: Db, query: ProductQuery): (r: seq<Row>)
    requires ValidQuery(query)
    ensures r == RowsOf(Page(db, query), db.products)
    ensures |r| <= query.limit
    ensures forall i :: 0 <= i < |r| ==>
      && r[i].id in db.products
      && r[i].product == db.products[r[i].id]
      && Matches(r[i].product, query.filter)
    ensures forall i, j :: 0 <= i < j < |r| ==> r[i].id > r[j].id
  {
    var ids := Page(db, query);
    var r := RowsOf(ids, db.products);
    assert |r| <= query.limit by {
      assert Page(db, query) == Window(Matching(db, query.filter), query.offset, query.limit);
    }
    forall i | 0 <= i < |r|
      ensures r[i].id in db.products && r[i].product == db.products[r[i].id]
      ensures Matches(r[i].product, query.filter)
    {
      assert ids[i] in ids;
    }
    r
  }

  /** The page of matching products; a row `ProductOut` rejects turns the
      whole answer into a 500. */
  function ListProducts(db: Db, query: ProductQuery): (r: Result<seq<Row>, Failure>)
    ensures r == Failure(Unprocessable) <==> !ValidQuery(query)
    ensures r.Failure? ==> r.error == Unprocessable || r.error == Internal
    ensures ValidQuery(query) ==>
      && (r.Success? <==> AllPresentable(PageRows(db, query)))
      && (r.Success? ==> r.value == PageRows(db, query))
    ensures r.Success? ==> |r.value| <= query.limit
    ensures r.Success? ==> forall i :: 0 <= i < |r.value| ==>
      && r.value[i].id in db.products
      && r.value[i].product == db.products[r.value[i].id]
      && Matches(r.value[i].product, query.filter)
      && Presentable(r.value[i].product)
    ensures r.Success? ==> forall i, j :: 0 <= i < j < |r.value| ==> r.value[i].id > r.value[j].id
  {
    if !ValidQuery(query) then Failure(Unprocessable)
    else
      var rows := PageRows(db, query);
      if AllPresentable(rows) then Success(rows) else Failure(Internal)
  }

  /** With the offset at zero and no more matches than the limit, the page
      holds every matching product. */
  lemma FirstPageIsComplete(db: Db, query: ProductQuery, x: int)
    requires ValidQuery(query) && query.offset == 0
    requires |Matching(db, query.filter)| <= query.limit
    requires x in db.products && Matches(db.products[x], query.filter)
    ensures x in Page(db, query)
  {
    var m := Matching(db, query.filter);
    PageIsWindow(db, query);
    assert Window(m, 0, query.limit) == m by {
      assert m[0..|m|] == m;
    }
  }

  lemma PageIsWindow(db: Db, query: ProductQuery)
    requires ValidQuery(query)
    ensures Page(db, query) == Window(Matching(db, query.filter), query.offset, query.limit)
  {
  }

  /** No matching product falls between two products of one page. */
  lemma PageIsContiguous(db: Db, query: ProductQuery, x: int, y: int, z: int)
    requires ValidQuery(query)
    ensures && x in Page(db, query) && y in Page(db, query)
            && z in db.products && Matches(db.products[z], query.filter)
            && y < z < x
            ==> z in Page(db, query)
  {
    if x in Page(db, query) && y in Page(db, query) && z in db.products && Matches(db.products[z], query.filter) && y < z < x {
      PageIsWindow(db, query);
      WindowContiguous(Matching(db, query.filter), query.offset, query.limit, x, y, z);
    }
  }

  /** The next page, asked for with `offset + limit`, holds only older
      products than this one. */
  lemma NextPageIsOlder(db: Db, query: ProductQuery, x: int, y: int)
    requires ValidQuery(query)
    ensures x in Page(db, query) && y in Page(db, query.(offset := query.offset + query.limit)) ==> y < x
  {
    var next := query.(offset := query.offset + query.limit);
    if x in Page(db, query) && y in Page(db, next) {
      PageIsWindow(db, query);
      PageIsWindow(db, next);
      WindowNextOlder(Matching(db, query.filter), query.offset, query.limit, query.limit, x, y);
    }
  }
}
