/** `ProductIn` of backend/api.py as `create_product` builds it: the
    lenient coercion of each body field, pydantic's type and length checks,
    and the field validators that run after them. */
module Schema {
  import opened Wrappers
  import opened Text
  import opened Values
  import opened Http

  datatype ProductIn = ProductIn(
    title: string,
    slug: Option<string>,
    description: Option<string>,
    price: real,
    currency: string,
    stock: int,
    isActive: bool,
    images: Option<seq<string>>,
    attributes: Option<map<string, Raw>>,
    categoryId: Option<int>)

  /** `_title`: the title without surrounding whitespace; blank is an error. */
  function ValidateTitle(v: string): (r: Option<string>)
    ensures r.Some? <==> !IsBlank(v)
    ensures r.Some? ==> r.value == Trim(v)
    ensures r.Some? ==> !IsBlank(r.value) && IsTrimmed(r.value) && |r.value| <= |v|
  {
    TrimBlank(v);
    TrimTrimmed(v);
    if IsBlank(v) then None else Some(Trim(v))
  }

  /** `_slug` and `_desc` alike: None for absent or blank text, otherwise
      the text without surrounding whitespace. */
  function StripOrNone(v: Option<string>): (r: Option<string>)
    ensures r.None? <==> v.None? || IsBlank(v.value)
    ensures r.Some? ==> r.value == Trim(v.value)
    ensures r.Some? ==> !IsBlank(r.value) && IsTrimmed(r.value) && |r.value| <= |v.value|
  {
    if v.None? then None
    else
      TrimBlank(v.value);
      TrimTrimmed(v.value);
      if IsBlank(v.value) then None else Some(Trim(v.value))
  }

  /** `_curr`: empty text means "RUB"; the rest is stripped and
      upper-cased and must be three characters long. */
  function ValidateCurrency(v: string): (r: Option<string>)
    ensures var w := if v == [] then "RUB" else v;
      && (r.Some? <==> |Trim(w)| == 3)
      && (r.Some? ==> r.value == Upper(Trim(w)))
    ensures v == [] ==> r == Some("RUB")
    ensures r.Some? ==> |r.value| == 3 && Upper(r.value) == r.value && IsTrimmed(r.value)
  {
    var c := Upper(Trim(if v == [] then "RUB" else v));
    TrimTrimmed(if v == [] then "RUB" else v);
    UpperTrimmed(Trim(if v == [] then "RUB" else v));
    UpperIdempotent(Trim(if v == [] then "RUB" else v));
    assert v == [] ==> Trim("RUB") == "RUB" by {
      TrimTrimmed("RUB");
    }
    assert Upper("RUB") == "RUB" by {
      UpperKeeps("RUB");
    }
    if |c| == 3 then Some(c) else None
  }

  /** The list comprehension of `_images`: each entry stripped, blank ones
      dropped. */
  function CleanEntries(items: seq<string>): (r: seq<string>)
    ensures |r| <= |items|
    ensures forall i :: 0 <= i < |r| ==> !IsBlank(r[i]) && IsTrimmed(r[i])
  {
    if items == [] then []
    else
      var rest := CleanEntries(items[1..]);
      TrimBlank(items[0]);
      TrimTrimmed(items[0]);
      if IsBlank(items[0]) then rest else [Trim(items[0])] + rest
  }

  /** Cleaning goes entry by entry: cleaning a concatenation is
      concatenating the cleaned pieces, so the entries keep their order. */
  lemma {:induction false} CleanEntriesAppend(a: seq<string>, b: seq<string>)
    ensures CleanEntries(a + b) == CleanEntries(a) + CleanEntries(b)
  {
    if a == [] {
      assert a + b == b;
    } else {
      assert (a + b)[0] == a[0] && (a + b)[1..] == a[1..] + b;
      CleanEntriesAppend(a[1..], b);
    }
  }

  /** One entry: dropped when blank, otherwise kept stripped. */
  lemma CleanEntriesOne(s: string)
    ensures CleanEntries([s]) == if IsBlank(s) then [] else [Trim(s)]
  {
  }

  /** Every non-blank entry survives, stripped, and every kept entry comes
      from a non-blank one. */
  lemma {:induction false} CleanEntriesMembers(items: seq<string>)
    ensures forall s :: s in items && !IsBlank(s) ==> Trim(s) in CleanEntries(items)
    ensures forall t :: t in CleanEntries(items) ==>
              exists s :: s in items && !IsBlank(s) && Trim(s) == t
  {
    if items != [] {
      CleanEntriesMembers(items[1..]);
      assert forall s :: s in items[1..] ==> s in items;
      assert forall s :: s in items ==> s == items[0] || s in items[1..];
    }
  }

  /** Cleaning clean entries changes nothing. */
  lemma {:induction false} CleanEntriesKeeps(items: seq<string>)
    requires forall i :: 0 <= i < |items| ==> !IsBlank(items[i]) && IsTrimmed(items[i])
    ensures CleanEntries(items) == items
  {
    if items != [] {
      assert Trim(items[0]) == items[0] by {
        TrimTrimmed(items[0]);
      }
      CleanEntriesKeeps(items[1..]);
    }
  }

  lemma CleanEntriesIdempotent(items: seq<string>)
    ensures CleanEntries(CleanEntries(items)) == CleanEntries(items)
  {
    CleanEntriesKeeps(CleanEntries(items));
  }

  /** pydantic's check against `Optional[str]`: None when the value is
      rejected, Some(None) for None, Some(Some(text)) for text. */
  function AsOptionalText(v: Raw): (r: Option<Option<string>>)
    ensures r.None? <==> !(v.RNone? || v.RStr?)
    ensures v.RStr? ==> r == Some(Some(v.s))
  {
    match v
    case RNone => Some(None)
    case RStr(s) => Some(Some(s))
    case _ => None
  }

  function Texts(items: seq<Raw>): (r: seq<string>)
    requires AllText(items)
    ensures |r| == |items|
    ensures forall i :: 0 <= i < |items| ==> r[i] == items[i].s
  {
    if items == [] then [] else [items[0].s] + Texts(items[1..])
  }

  /** pydantic's check against `Optional[List[str]]`: a list whose every
      entry is text (numbers are not coerced to text). */
  function AsOptionalTextList(v: Raw): (r: Option<Option<seq<string>>>)
    ensures r.None? <==> !(v.RNone? || (v.RList? && AllText(v.items)))
  {
    match v
    case RNone => Some(None)
    case RList(items) => if AllText(items) then Some(Some(Texts(items))) else None
    case _ => None
  }

  /** pydantic's check against `Optional[Dict[str, Any]]`. */
  function AsOptionalObject(v: Raw): (r: Option<Option<map<string, Raw>>>)
    ensures r.None? <==> !(v.RNone? || v.RMap?)
    ensures v.RMap? ==> r == Some(Some(v.entries))
  {
    match v
    case RNone => Some(None)
    case RMap(entries) => Some(Some(entries))
    case _ => None
  }

  /** What `create_product` hands to the `images` and `attributes` fields:
      text is first decoded by `parse_json_field`. */
  function Decoded(v: Raw, oracles: Oracles): (r: Raw)
    ensures !v.RStr? ==> r == v
    ensures v.RStr? ==> r == ParseJsonField(v, oracles)
  {
    if v.RStr? then ParseJsonField(v, oracles) else v
  }

  /** The keyword arguments `create_product` passes to `ProductIn`, after
      the lenient coercions of lines 456-465; a `price` of None is the
      ValueError `to_float` raises. */
  datatype Arguments = Arguments(
    title: string,
    slug: Raw,
    description: Raw,
    price: Option<real>,
    currency: string,
    stock: int,
    isActive: bool,
    images: Raw,
    attributes: Raw,
    categoryId: Option<int>)

  function Coerce(raw: map<string, Raw>, oracles: Oracles): (a: Arguments)
    ensures a.isActive == ToBool(Get(raw, "is_active", RNone))
    ensures a.categoryId == ToIntOrNone(Get(raw, "category_id", RNone))
    ensures a.title == Render(Get(raw, "title", RStr("")))
  {
    Arguments(
      title := Render(Get(raw, "title", RStr(""))),
      slug := OrNone(Get(raw, "slug", RNone)),
      description := OrNone(Get(raw, "description", RNone)),
      price := ToFloat(Get(raw, "price", RInt(0)), oracles),
      currency := Upper(Render(Get(raw, "currency", RStr("RUB")))),
      stock := ToIntOrNone(Get(raw, "stock", RNone)).GetOr(0),
      isActive := ToBool(Get(raw, "is_active", RNone)),
      images := Decoded(Get(raw, "images", RNone), oracles),
      attributes := Decoded(Get(raw, "attributes", RNone), oracles),
      categoryId := ToIntOrNone(Get(raw, "category_id", RNone)))
  }

  /** The text inside an `Optional[str]` value, if it is text. */
  function TextOf(v: Raw): (r: Option<string>)
    ensures r.Some? <==> v.RStr?
  {
    if v.RStr? then Some(v.s) else None
  }

  /** The arguments pydantic accepts, stated on the arguments themselves:
      a non-blank title of at most 255 characters, an optional text slug
      of at most 255 characters, an optional text description, a price
      that converted and is not negative, a currency of exactly three
      characters with no whitespace at either end (the validator strips
      before it counts), no negative stock, images None or a list of text,
      attributes None or a dict. */
  predicate Acceptable(a: Arguments) {
    && |a.title| <= 255 && !IsBlank(a.title)
    && (a.slug.RNone? || (a.slug.RStr? && |a.slug.s| <= 255))
    && (a.description.RNone? || a.description.RStr?)
    && a.price.Some? && a.price.value >= 0.0
    && |a.currency| == 3 && IsTrimmed(a.currency)
    && a.stock >= 0
    && (a.images.RNone? || (a.images.RList? && AllText(a.images.items)))
    && (a.attributes.RNone? || a.attributes.RMap?)
  }

  /** A three-character currency survives the validator's strip exactly
      when it has no whitespace at either end. */
  lemma ThreeLettersTrimmed(c: string)
    ensures |c| == 3 ==> (|Trim(c)| == 3 <==> IsTrimmed(c))
    ensures IsTrimmed(c) ==> Trim(c) == c
  {
    TrimTrimmed(c);
    var i, j := TrimSlice(c);
  }

  /** The declared types and the `Field` limits, which pydantic checks
      before any field validator runs. */
  predicate FieldsPass(a: Arguments) {
    && |a.title| <= 255
    && AsOptionalText(a.slug).Some? && (a.slug.RStr? ==> |a.slug.s| <= 255)
    && AsOptionalText(a.description).Some?
    && a.price.Some? && a.price.value >= 0.0
    && |a.currency| == 3
    && a.stock >= 0
    && AsOptionalTextList(a.images).Some?
    && AsOptionalObject(a.attributes).Some?
  }

  /** The two stages together accept exactly the acceptable arguments. */
  lemma FieldsThenValidators(a: Arguments)
    ensures Acceptable(a) <==>
      FieldsPass(a) && ValidateTitle(a.title).Some? && ValidateCurrency(a.currency).Some?
  {
    ThreeLettersTrimmed(a.currency);
  }

  /** The model instance once every check has passed. */
  function Assemble(a: Arguments, title: string, currency: string): (r: ProductIn)
    requires FieldsPass(a)
    requires ValidateTitle(a.title) == Some(title) && ValidateCurrency(a.currency) == Some(currency)
    ensures Clean(r)
    ensures && r.title == Trim(a.title)
            && r.slug == StripOrNone(TextOf(a.slug))
            && r.description == StripOrNone(TextOf(a.description))
            && r.price == a.price.value
            && r.currency == Upper(a.currency)
            && r.stock == a.stock
            && r.isActive == a.isActive
            && r.categoryId == a.categoryId
    ensures && (a.images.RNone? ==> r.images.None?)
            && (a.images.RList? && AllText(a.images.items) ==> r.images == Some(CleanEntries(Texts(a.images.items))))
            && (a.attributes.RNone? ==> r.attributes.None?)
            && (a.attributes.RMap? ==> r.attributes == Some(a.attributes.entries))
  {
    ThreeLettersTrimmed(a.currency);
    var images := AsOptionalTextList(a.images).value;
    ProductIn(
      title := title,
      slug := StripOrNone(AsOptionalText(a.slug).value),
      description := StripOrNone(AsOptionalText(a.description).value),
      price := a.price.value,
      currency := currency,
      stock := a.stock,
      isActive := a.isActive,
      images := if images.None? then None else Some(CleanEntries(images.value)),
      attributes := AsOptionalObject(a.attributes).value,
      categoryId := a.categoryId)
  }

  /** pydantic's validation of the arguments: the declared types and the
      `Field` limits first, then the field validators. */
  function Validate(a: Arguments): (r: Result<ProductIn, Failure>)
    ensures r.Success? <==> Acceptable(a)
    ensures r.Failure? ==> r.error == Internal
    ensures r.Success? ==> Clean(r.value)
    ensures r.Success? ==>
      && r.value.title == Trim(a.title)
      && r.value.slug == StripOrNone(TextOf(a.slug))
      && r.value.description == StripOrNone(TextOf(a.description))
      && r.value.price == a.price.value
      && r.value.currency == Upper(a.currency)
      && r.value.stock == a.stock
      && r.value.isActive == a.isActive
      && r.value.categoryId == a.categoryId
    ensures r.Success? ==>
      && (a.images.RNone? ==> r.value.images.None?)
      && (a.images.RList? && AllText(a.images.items) ==> r.value.images == Some(CleanEntries(Texts(a.images.items))))
      && (a.attributes.RNone? ==> r.value.attributes.None?)
      && (a.attributes.RMap? ==> r.value.attributes == Some(a.attributes.entries))
  {
    FieldsThenValidators(a);
    if !FieldsPass(a) then Failure(Internal)
    else
      var t := ValidateTitle(a.title);
      var c := ValidateCurrency(a.currency);
      if t.None? || c.None? then Failure(Internal)
      else Success(Assemble(a, t.value, c.value))
  }

  /** `ProductIn(...)` as `create_product` calls it. Every rejection, be it
      from a coercion that raises or from pydantic, escapes the handler as
      a 500. The `_price`, `_stock` and `_cat` validators receive a float,
      an int and an optional int here and return them unchanged, and
      `_images` and `_attrs` only ever see None or a checked list or dict. */
  function BuildProductIn(raw: map<string, Raw>, oracles: Oracles): (r: Result<ProductIn, Failure>)
    ensures r.Success? <==> Acceptable(Coerce(raw, oracles))
    ensures r.Failure? ==> r.error == Internal
    ensures r.Success? ==> Clean(r.value)
    ensures r.Success? ==> r.value.isActive == ToBool(Get(raw, "is_active", RNone))
    ensures r.Success? ==> r.value.categoryId == ToIntOrNone(Get(raw, "category_id", RNone))
    ensures IsBlank(Render(Get(raw, "title", RStr("")))) ==> r.Failure?
  {
    Validate(Coerce(raw, oracles))
  }

  /** The value of every field of an accepted body: the title stripped,
      slug and description stripped with blank text read as absent, the
      price `to_float` gives, the currency upper-cased (it has no
      surrounding whitespace once accepted), the stock `to_int_or_none`
      gives or 0, the flag `to_bool` gives, the entries of a list of
      images stripped with blank ones dropped. */
  lemma BuildProductInValues(raw: map<string, Raw>, oracles: Oracles)
    requires BuildProductIn(raw, oracles).Success?
    ensures var r := BuildProductIn(raw, oracles).value;
      && r.title == Trim(Render(Get(raw, "title", RStr(""))))
      && r.slug == StripOrNone(TextOf(OrNone(Get(raw, "slug", RNone))))
      && r.description == StripOrNone(TextOf(OrNone(Get(raw, "description", RNone))))
      && Some(r.price) == ToFloat(Get(raw, "price", RInt(0)), oracles)
      && r.currency == Upper(Render(Get(raw, "currency", RStr("RUB"))))
      && r.stock == ToIntOrNone(Get(raw, "stock", RNone)).GetOr(0)
      && r.isActive == ToBool(Get(raw, "is_active", RNone))
      && r.categoryId == ToIntOrNone(Get(raw, "category_id", RNone))
    ensures var r := BuildProductIn(raw, oracles).value;
      var images := Decoded(Get(raw, "images", RNone), oracles);
      && (images.RNone? ==> r.images.None?)
      && (images.RList? && AllText(images.items) ==> r.images == Some(CleanEntries(Texts(images.items))))
    ensures var r := BuildProductIn(raw, oracles).value;
      var attributes := Decoded(Get(raw, "attributes", RNone), oracles);
      && (attributes.RNone? ==> r.attributes.None?)
      && (attributes.RMap? ==> r.attributes == Some(attributes.entries))
  {
    UpperIdempotent(Render(Get(raw, "currency", RStr("RUB"))));
  }

  /** A body carrying only a title, a whole-number price and a category:
      every other field takes the handler's default. */
  function MinimalBody(title: string, price: int, category: int): map<string, Raw> {
    map["title" := RStr(title), "price" := RInt(price), "category_id" := RInt(category)]
  }

  lemma CoerceMinimal(title: string, price: int, category: int, oracles: Oracles)
    ensures Coerce(MinimalBody(title, price, category), oracles)
         == Arguments(title, RNone, RNone, Some(price as real), "RUB", 0, false, RNone, RNone, Some(category))
  {
    var raw := MinimalBody(title, price, category);
    MinimalBodyMisses(title, price, category);
    assert Upper("RUB") == "RUB" by {
      UpperKeeps("RUB");
    }
  }

  lemma MinimalBodyMisses(title: string, price: int, category: int)
    ensures var raw := MinimalBody(title, price, category);
      && "slug" !in raw && "description" !in raw && "currency" !in raw && "stock" !in raw
      && "is_active" !in raw && "images" !in raw && "attributes" !in raw
  {
  }

  /** Such a body is accepted exactly when its title is not blank and fits
      and its price is not negative; the product then has the stripped
      title, no slug, no description, the currency RUB, no stock, no images
      and no attributes, and is inactive. */
  lemma BuildMinimal(title: string, price: int, category: int, oracles: Oracles)
    ensures BuildProductIn(MinimalBody(title, price, category), oracles).Success? <==>
      !IsBlank(title) && |title| <= 255 && price >= 0
    ensures !IsBlank(title) && |title| <= 255 && price >= 0 ==>
      BuildProductIn(MinimalBody(title, price, category), oracles)
        == Success(ProductIn(Trim(title), None, None, price as real, "RUB", 0, false, None, None, Some(category)))
  {
    CoerceMinimal(title, price, category, oracles);
    ValidateMinimal(title, price, category);
  }

  lemma ValidateMinimal(title: string, price: int, category: int)
    ensures var a := Arguments(title, RNone, RNone, Some(price as real), "RUB", 0, false, RNone, RNone, Some(category));
      && (Validate(a).Success? <==> !IsBlank(title) && |title| <= 255 && price >= 0)
      && (Validate(a).Success? ==>
            Validate(a) == Success(ProductIn(Trim(title), None, None, price as real, "RUB", 0, false, None, None, Some(category))))
  {
    var a := Arguments(title, RNone, RNone, Some(price as real), "RUB", 0, false, RNone, RNone, Some(category));
    MinimalAcceptable(a, title, price);
    if Validate(a).Success? {
      RubUpper();
    }
  }

  lemma MinimalAcceptable(a: Arguments, title: string, price: int)
    requires a.title == title && a.slug == RNone && a.description == RNone && a.price == Some(price as real)
    requires a.currency == "RUB" && a.stock == 0 && a.images == RNone && a.attributes == RNone
    ensures Acceptable(a) <==> !IsBlank(title) && |title| <= 255 && price >= 0
  {
    assert IsTrimmed("RUB");
  }

  lemma RubUpper()
    ensures Upper("RUB") == "RUB"
  {
    UpperKeeps("RUB");
  }

  /** Unlike the model's default of True, a body without `is_active`
      creates an inactive product: `to_bool(None)` is False. */
  lemma MissingActiveFlagMeansInactive(raw: map<string, Raw>, oracles: Oracles)
    requires "is_active" !in raw
    ensures BuildProductIn(raw, oracles).Success? ==> !BuildProductIn(raw, oracles).value.isActive
  {
  }

  /** The values `BuildProductIn` produces: clean text, a three-letter
      upper-case currency, no negative stock or price, a category. */
  predicate Clean(p: ProductIn) {
    && !IsBlank(p.title) && IsTrimmed(p.title) && |p.title| <= 255
    && (p.slug.Some? ==> !IsBlank(p.slug.value) && IsTrimmed(p.slug.value) && |p.slug.value| <= 255)
    && (p.description.Some? ==> !IsBlank(p.description.value) && IsTrimmed(p.description.value))
    && p.price >= 0.0
    && |p.currency| == 3 && Upper(p.currency) == p.currency && IsTrimmed(p.currency)
    && p.stock >= 0
    && (p.images.Some? ==> forall i :: 0 <= i < |p.images.value| ==>
          !IsBlank(p.images.value[i]) && IsTrimmed(p.images.value[i]))
  }

  predicate Normalised(p: ProductIn) {
    Clean(p) && p.categoryId.Some?
  }

  function TextItems(texts: seq<string>): (r: seq<Raw>)
    ensures AllText(r) && Texts(r) == texts
  {
    if texts == [] then [] else [RStr(texts[0])] + TextItems(texts[1..])
  }

  function OptionalField(v: Option<string>): Raw {
    if v.None? then RNone else RStr(v.value)
  }

  /** A JSON body a client would send for `p`, its price written as a
      whole number. */
  function Encode(p: ProductIn, wholePrice: int): map<string, Raw> {
    map[
      "title" := RStr(p.title),
      "slug" := OptionalField(p.slug),
      "description" := OptionalField(p.description),
      "price" := RInt(wholePrice),
      "currency" := RStr(p.currency),
      "stock" := RInt(p.stock),
      "is_active" := RBool(p.isActive),
      "images" := if p.images.None? then RNone else RList(TextItems(p.images.value)),
      "attributes" := if p.attributes.None? then RNone else RMap(p.attributes.value),
      "category_id" := if p.categoryId.None? then RNone else RInt(p.categoryId.value)]
  }

  lemma ValidateCurrencyKeeps(c: string)
    requires |c| == 3 && Upper(c) == c && IsTrimmed(c)
    ensures ValidateCurrency(c) == Some(c)
  {
    TrimTrimmed(c);
  }

  lemma StripOrNoneKeeps(v: Option<string>)
    requires v.Some? ==> !IsBlank(v.value) && IsTrimmed(v.value)
    ensures StripOrNone(v) == v
  {
    if v.Some? {
      TrimTrimmed(v.value);
    }
  }

  /** The arguments `Encode(p)` is coerced into. */
  function ArgumentsOf(p: ProductIn, wholePrice: int): Arguments {
    Arguments(
      title := p.title,
      slug := OptionalField(p.slug),
      description := OptionalField(p.description),
      price := Some(wholePrice as real),
      currency := p.currency,
      stock := p.stock,
      isActive := p.isActive,
      images := if p.images.None? then RNone else RList(TextItems(p.images.value)),
      attributes := if p.attributes.None? then RNone else RMap(p.attributes.value),
      categoryId := p.categoryId)
  }

  lemma CoerceEncoded(p: ProductIn, wholePrice: int, oracles: Oracles)
    requires Normalised(p)
    ensures Coerce(Encode(p, wholePrice), oracles) == ArgumentsOf(p, wholePrice)
  {
    CoerceEncodedText(p, wholePrice, oracles);
    CoerceEncodedNumbers(p, wholePrice, oracles);
    CoerceEncodedJson(p, wholePrice, oracles);
  }

  lemma CoerceEncodedText(p: ProductIn, wholePrice: int, oracles: Oracles)
    requires Normalised(p)
    ensures var a, e := Coerce(Encode(p, wholePrice), oracles), ArgumentsOf(p, wholePrice);
      a.title == e.title && a.slug == e.slug && a.description == e.description && a.currency == e.currency
  {
    var raw := Encode(p, wholePrice);
    assert Get(raw, "title", RStr("")) == RStr(p.title);
    assert Get(raw, "slug", RNone) == OptionalField(p.slug);
    OptionalFieldTruthy(p.slug);
    assert Get(raw, "description", RNone) == OptionalField(p.description);
    OptionalFieldTruthy(p.description);
    assert Get(raw, "currency", RStr("RUB")) == RStr(p.currency);
    UpperIdempotent(p.currency);
  }

  lemma CoerceEncodedNumbers(p: ProductIn, wholePrice: int, oracles: Oracles)
    requires Normalised(p)
    ensures var a, e := Coerce(Encode(p, wholePrice), oracles), ArgumentsOf(p, wholePrice);
      a.price == e.price && a.stock == e.stock && a.isActive == e.isActive && a.categoryId == e.categoryId
  {
    var raw := Encode(p, wholePrice);
    assert Get(raw, "price", RInt(0)) == RInt(wholePrice);
    assert Get(raw, "stock", RNone) == RInt(p.stock);
    IntTextIsNotBlank(p.stock);
    assert Get(raw, "is_active", RNone) == RBool(p.isActive);
    assert Get(raw, "category_id", RNone) == RInt(p.categoryId.value);
    IntTextIsNotBlank(p.categoryId.value);
  }

  lemma CoerceEncodedJson(p: ProductIn, wholePrice: int, oracles: Oracles)
    requires Normalised(p)
    ensures var a, e := Coerce(Encode(p, wholePrice), oracles), ArgumentsOf(p, wholePrice);
      a.images == e.images && a.attributes == e.attributes
  {
    var raw := Encode(p, wholePrice);
    var e := ArgumentsOf(p, wholePrice);
    assert Get(raw, "images", RNone) == e.images;
    assert Get(raw, "attributes", RNone) == e.attributes;
  }

  lemma OptionalFieldTruthy(v: Option<string>)
    requires v.Some? ==> !IsBlank(v.value)
    ensures OrNone(OptionalField(v)) == OptionalField(v)
  {
  }

  lemma ValidateArgumentsOf(p: ProductIn, wholePrice: int)
    requires Normalised(p) && p.price == wholePrice as real
    ensures Validate(ArgumentsOf(p, wholePrice)) == Success(p)
  {
    var a := ArgumentsOf(p, wholePrice);
    var slug, description := AsOptionalText(a.slug), AsOptionalText(a.description);
    var images, attributes := AsOptionalTextList(a.images), AsOptionalObject(a.attributes);
    assert slug == Some(p.slug) && description == Some(p.description);
    assert images == Some(p.images) && attributes == Some(p.attributes);
    assert !(|a.title| > 255 || |a.currency| != 3 || a.stock < 0 || a.price.None? || a.price.value < 0.0);
    assert ValidateTitle(a.title) == Some(p.title) by {
      TrimTrimmed(p.title);
    }
    assert ValidateCurrency(a.currency) == Some(p.currency) by {
      ValidateCurrencyKeeps(p.currency);
    }
    assert StripOrNone(slug.value) == p.slug by {
      StripOrNoneKeeps(p.slug);
    }
    assert StripOrNone(description.value) == p.description by {
      StripOrNoneKeeps(p.description);
    }
    assert (if images.value.None? then None else Some(CleanEntries(images.value.value))) == p.images by {
      if p.images.Some? {
        CleanEntriesKeeps(p.images.value);
      }
    }
  }

  /** Every normalised product survives being sent as a JSON body:
      `ProductIn` rebuilds exactly it. */
  lemma BuildProductInRoundTrip(p: ProductIn, wholePrice: int, oracles: Oracles)
    requires Normalised(p) && p.price == wholePrice as real
    ensures BuildProductIn(Encode(p, wholePrice), oracles) == Success(p)
  {
    CoerceEncoded(p, wholePrice, oracles);
    ValidateArgumentsOf(p, wholePrice);
  }

  lemma IntTextIsNotBlank(i: int)
    ensures !IsBlank(Render(RInt(i)))
  {
  }
}
