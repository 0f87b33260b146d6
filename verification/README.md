# Catalog back end of the Telegram shop web app

This project models the request-handling core of the shop's FastAPI back end, `backend/api.py`. The model covers:

- the moderator allow-list and the admin gate (`_parse_moder_ids`, `get_tg_id`, `require_admin`);
- `slugify`;
- the body parser `parse_json_or_form`;
- the lenient coercions (`to_bool`, `to_int_or_none`, `to_float`, `parse_json_field`);
- the `ProductIn` schema with its field validators;
- the user, category and product endpoints.

It also models the older variant in `WebAppTG/backend/api.py`:

- Its gate, `ensure_user`, category endpoints, `list_products`, `get_product` and `delete_product` are the same code as in `backend/api.py`, line for line. They are modelled once.
- Its strictly typed `ProductIn` and its full-overwrite `create_product` and `update_product` differ. They are modelled in the `Legacy` module.

Each endpoint is a pure function. It takes:

- the database state (`Store.Db`: the three tables as maps from primary key to row, plus the next value of each id sequence);
- the caller's Telegram id;
- the decoded request.

It returns an `Outcome`: the state left behind and either the reply or an HTTP failure. `session.commit()` is `Store.Commit`. It checks the constraints that `TG Shop/backend/models.py` declares: foreign keys, unique slugs and Telegram ids, varchar widths, 32-bit integers and the `Numeric(12, 2)` range. A state that breaks any of them is rejected with a 500 and the old state is kept. Request validation failures (422) are ordered after the admin gate (401/403), as FastAPI resolves the gate first.

Where the design description and the code differ, the model follows the code:

- A product created without `is_active` is inactive, because `to_bool(None)` is False, despite the schema default of True (`Schema.MissingActiveFlagMeansInactive`).
- `update_category` does not reject a category that is its own parent (`Catalog.CategoryMayBeItsOwnParent`).
- `delete_category` is a bulk `DELETE` with no cascade. Deleting a category that a product or another category refers to violates a foreign key and is answered 500 (`Catalog.DeleteReferencedCategoryFails`).
- Slug and Telegram-id conflicts are not answered 409. They are constraint violations at commit, so the answer is 500.
- The legacy `update_product` overwrites every field. The legacy `ProductIn` accepts a blank title (`Legacy.LegacyAcceptsBlankTitle`).
- A JSON `null` title or description in a `PATCH` is stored as the text "None", because the handler applies `str()` before stripping.

## Model

| member | source | states |
|---|---|---|
| Admin.IdsOfParts | backend/api.py:30-40 | at most one id per part; an integer is produced exactly when some part, trimmed, parses to it |
| Admin.IdsOfPartsAppend | backend/api.py:34-39 | the parts are read in order: the ids of two runs of parts are the ids of the first run followed by those of the second |
| Admin.IdsOfPartsOne | backend/api.py:35-39 | one part contributes its trimmed text's integer when it parses and nothing otherwise (the `ValueError` is swallowed) |
| Admin.ModeratorIdsMembership | backend/api.py:30-40 | an integer is on the parsed moderator list if and only if some comma-separated part of the setting, trimmed, parses to it |
| Admin.ModeratorIdsRoundTrip | backend/api.py:30-40 | a non-empty list of integers written comma-separated parses back to exactly that list, in order |
| Admin.EmptyModeratorSetting | backend/api.py:30-42 | an unset MODERATOR_IDS gives an empty list, so every caller fails the admin gate |
| Admin.GetTgId | backend/api.py:58-63 | a non-zero header id wins; a missing or zero header falls back to the query parameter |
| Admin.RequireAdmin | backend/api.py:66-71 | 401 exactly when no id is supplied, 403 exactly when the id is not a moderator's, otherwise the id itself |
| Admin.AuthorizeOutcomes | backend/api.py:58-71 | in terms of header and query: 401 exactly when neither gives an id; with a non-zero header, success exactly for a moderator; a granted id is a moderator's and came from the header or the query |
| Body.Allowed | backend/api.py:107-108 | the result holds exactly the entries whose key is on the allow-list, with their values |
| Body.EncodingOf | backend/api.py:91-106 | JSON exactly when the lower-cased Content-Type contains application/json; unsupported exactly when it contains none of the three media types |
| Body.ParseJsonOrForm | backend/api.py:86-108 | every key of the result is allowed; 415 exactly for an unsupported type; 422 exactly for a JSON body that is not an object; an object or form yields its allowed entries |
| Body.AllowedIdempotent | backend/api.py:99-108 | restricting an already restricted map changes nothing |
| Body.JsonObjectParses | backend/api.py:91-108 | a JSON body that is an object of allowed fields is parsed to exactly that object |
| Body.EncodingsAgree | backend/api.py:93-108 | a JSON object and a multipart form with the same fields normalise to the same map |
| Text.StripBySlice | backend/api.py:83 | stripping a character set leaves a contiguous piece of the input, and every character cut away before or after it belongs to the set |
| Text.TrimSlice | backend/api.py:33 | `strip()` keeps a contiguous piece of the input, cuts away only whitespace, and the piece, when non-empty, starts and ends with a non-whitespace character |
| Text.StripByIdempotent | backend/api.py:83 | stripping twice strips nothing more |
| Text.LowerIdempotent | backend/api.py:80 | lower-casing twice is lower-casing once |
| Text.SplitJoin | backend/api.py:32 | splitting comma-joined parts that contain no comma gives back the parts |
| Numbers.ParseInt | backend/api.py:37 | `int()` on text: a result only for non-blank text |
| Numbers.IntTextRoundTrip | backend/api.py:37 | `int(str(i)) == i` for every integer |
| Numbers.IntTextInjective | backend/api.py:37 | distinct integers render as distinct text |
| Numbers.ParseIntNeedsDigit | backend/api.py:36-39 | text without a digit never parses, so such a part is skipped |
| Slug.Collapse | backend/api.py:81-83 | the result holds only hyphens and input characters outside the replaced class |
| Slug.CollapseOneSeparator | backend/api.py:81-83 | one replaced character between two pieces free of the class becomes exactly one hyphen |
| Slug.CollapseKeepsClean | backend/api.py:81-83 | text free of the replaced class is left unchanged |
| Slug.CollapseKeepsWords | backend/api.py:81-83 | replacing a class of non-alphanumeric characters keeps the letters and digits, in order |
| Slug.SlugifyShape | backend/api.py:79-84 | the slug is non-empty, uses only `[a-z0-9-]`, has no hyphen at either end and no doubled hyphen |
| Slug.SlugifyKeepsWords | backend/api.py:79-84 | the ASCII letters and digits of the lower-cased input survive in order; with none, the slug is "item" |
| Slug.SlugifyFixesSlugs | backend/api.py:79-84 | a string already in slug shape is its own slug |
| Slug.SlugifyIdempotent | backend/api.py:79-84 | slugifying a slug changes nothing |
| Slug.SlugifyTwoWords | backend/api.py:79-84 | two alphanumeric words separated by a space become the lower-cased words joined by one hyphen |
| Slug.SlugOfNiceShoes | backend/api.py:79-84 | "Nice Shoes" becomes "nice-shoes" |
| Slug.CollapseHyphensNoDouble | backend/api.py:83 | collapsing hyphen runs leaves no doubled hyphen |
| Values.Render | backend/api.py:116 | `str(v)` is the text itself for text and never blank for anything else |
| Values.OrNone | backend/api.py:457-458 | `x or None` keeps a truthy value and replaces a falsy one by None |
| Values.ToBoolTruth | backend/api.py:111-117 | `to_bool` is true exactly for True, the integer 1, or text whose trimmed lower-cased form is 1, true, on or yes |
| Values.IntTextIsOne | backend/api.py:116-117 | among integers only 1 reads as true |
| Values.MarkerIsNotTrue | backend/api.py:116-117 | a list or dict never reads as true |
| Values.ToIntOrNone | backend/api.py:119-125 | None for None, lists and dicts; `int()` of the text for text; the integer itself for an integer |
| Values.ToIntOrNoneRoundTrip | backend/api.py:119-125 | the text `str(i)` coerces back to `i` |
| Values.CommaToDot | backend/api.py:130 | every comma becomes a dot, every other character is kept |
| Values.ParseJsonField | backend/api.py:133-141 | None and "" give None; a list or dict passes through; other text is decoded, a decode error giving None |
| Values.ParseJsonFieldSettles | backend/api.py:133-141 | feeding a decoded list or dict back in changes nothing |
| Schema.ValidateTitle | backend/api.py:184-190 | a title exactly when the input is not blank, and then it is the input with its surrounding whitespace removed |
| Schema.StripOrNone | backend/api.py:192-203 | None exactly for None or blank text; otherwise the text with its surrounding whitespace removed |
| Schema.ValidateCurrency | backend/api.py:221-227 | empty text is replaced by "RUB"; the result is accepted exactly when that text, trimmed, has three characters, and is then the trimmed text upper-cased; so empty text yields "RUB" |
| Schema.CleanEntries | backend/api.py:246-251 | every kept image entry is trimmed and not blank |
| Schema.CleanEntriesAppend | backend/api.py:246-251 | entries are cleaned in order: cleaning two runs is cleaning each and joining them |
| Schema.CleanEntriesOne | backend/api.py:246-251 | one entry is dropped when blank and kept trimmed otherwise |
| Schema.CleanEntriesMembers | backend/api.py:246-251 | every non-blank entry survives, trimmed, and every kept entry is a trimmed non-blank input entry |
| Schema.CleanEntriesIdempotent | backend/api.py:246-251 | cleaning clean entries changes nothing |
| Schema.AsOptionalText | backend/api.py:174-175 | the `Optional[str]` type gate accepts exactly None and text |
| Schema.AsOptionalTextList | backend/api.py:180 | the `Optional[List[str]]` gate accepts exactly None and lists of text |
| Schema.AsOptionalObject | backend/api.py:181 | the `Optional[Dict]` gate accepts exactly None and objects |
| Schema.Validate | backend/api.py:172-270 | succeeds exactly when the field limits hold (title and slug at most 255, a price at least 0, a three-character trimmed currency, stock at least 0, typed images and attributes) and the title is not blank; every rejection is a 500; an accepted product holds the title trimmed, the slug and description stripped or None, the price and stock as given, the currency upper-cased and the image entries cleaned |
| Schema.BuildProductIn | backend/api.py:455-466 | the `ProductIn` built in `create_product` succeeds exactly when the coerced arguments meet the schema, is clean, keeps the coerced flag and category, and rejects a blank title |
| Schema.BuildProductInValues | backend/api.py:455-466 | each field of a built `ProductIn` in terms of the raw body: the title `str()`-ed and trimmed, slug and description stripped or None, the price from `to_float`, the currency `str()`-ed and upper-cased, the stock from `to_int_or_none` with 0 for None, images and attributes from `parse_json_field` on text |
| Schema.BuildMinimal | backend/api.py:455-466 | a body with only a title, a whole-number price and a category builds exactly when the title is not blank and fits 255 characters and the price is not negative, and then carries the trimmed title, no slug, description, images or attributes, currency "RUB", stock 0 and an inactive flag |
| Schema.BuildProductInRoundTrip | backend/api.py:455-466 | every clean product with a category, sent as a JSON body with a whole-number price, is rebuilt exactly |
| Schema.MissingActiveFlagMeansInactive | backend/api.py:462 | a body without `is_active` creates an inactive product |
| Store.Commit | backend/api.py:299 | the commit succeeds exactly when the new state meets every constraint; otherwise the answer is 500 and the old state stays |
| Catalog.UsersWith | backend/api.py:293-295 | exactly the users registered with the Telegram id |
| Catalog.EnsureUser | backend/api.py:290-306 | a non-positive id is answered 422 with nothing changed; a successful answer carries the id and is the stored user |
| Catalog.EnsureUserRegisters | backend/api.py:296-300 | a first visit adds exactly one active user, who is an admin exactly when the gate would admit the id, and nothing else changes |
| Catalog.EnsureUserFindsExisting | backend/api.py:293-306 | a registered user is answered as stored, whatever the moderator list says now, and nothing changes |
| Catalog.EnsureUserIdempotent | backend/api.py:290-306 | calling again answers the same and leaves the database as it is |
| Catalog.ListCategories | backend/api.py:312-316 | every row is a stored category as stored, in strictly ascending id order |
| Catalog.ListCategoriesComplete | backend/api.py:312-316 | every stored category is listed |
| Catalog.CreateCategory | backend/api.py:319-329 | the gate first, then 422 for over-long names; success stores the payload under the next id and leaves the other tables alone; failure changes nothing |
| Catalog.UpdateCategory | backend/api.py:332-350 | the gate, 422, then 404 for a missing id; success overwrites name, slug and parent of that row only |
| Catalog.DeleteCategory | backend/api.py:353-361 | the gate first; success removes exactly that id; failure changes nothing |
| Catalog.DeleteReferencedCategoryFails | backend/api.py:359-360 | deleting a category a product or another category points at is a 500 and changes nothing |
| Catalog.DeleteFreeCategorySucceeds | backend/api.py:359-360 | an admin deletes an unreferenced category; the database stays valid and the id is gone |
| Catalog.CategoryMayBeItsOwnParent | backend/api.py:345-348 | an update that makes a category its own parent succeeds |
| Catalog.CategoryEndpointsPreserveValid | backend/api.py:319-361 | every category endpoint leaves a valid database |
| Keys.Descending | backend/api.py:393 | every key once, in strictly descending order |
| Keys.Ascending | backend/api.py:314 | every key once, in strictly ascending order |
| Search.LikeLiteralPrefix | backend/api.py:388 | a pattern of literal text followed by `%` matches exactly the strings that start with that text, ignoring case |
| Search.LikeLeadingPercent | backend/api.py:388 | a leading `%` matches exactly when the rest matches some suffix |
| Search.IlikeIsSearchHit | backend/api.py:387-388 | for search text without `%`, `_` or a backslash, `ilike('%q%')` is exactly the case-insensitive substring test |
| Search.UnderscoreMatchesAnyText | backend/api.py:387-388 | the search text "_" matches every non-empty text, even one with no underscore |
| Listing.Select | backend/api.py:378-392 | the selected ids are exactly the given ids whose product meets every filter |
| Listing.SelectDescending | backend/api.py:390-393 | selection keeps the descending order |
| Listing.Matching | backend/api.py:378-393 | exactly the stored products that meet every filter, newest first |
| Listing.Window | backend/api.py:394-395 | `LIMIT`/`OFFSET` is the slice starting at the offset, at most `limit` long |
| Listing.WindowContiguous | backend/api.py:393-395 | no element of the sequence falls between two members of a window without being in it |
| Listing.WindowNextOlder | backend/api.py:393-395 | everything in the following window is smaller than everything in this one |
| Listing.Page | backend/api.py:390-398 | the page holds only matching stored products, strictly newest first |
| Listing.PageRows | backend/api.py:390-416 | the rows of exactly the page of matching products, each as stored: at most `limit`, ids strictly descending |
| Listing.ListProducts | backend/api.py:367-416 | 422 exactly for a limit outside 1..200, a negative offset or a negative price bound; for a valid query it succeeds exactly when every row of the page can be presented, and then answers exactly those rows |
| Listing.FirstPageIsComplete | backend/api.py:374-395 | with offset 0 and no more matches than the limit, every matching product is on the page |
| Listing.PageIsContiguous | backend/api.py:393-395 | no matching product falls between two products of one page |
| Listing.NextPageIsOlder | backend/api.py:393-395 | the page at `offset + limit` holds only older products |
| Products.GetProduct | backend/api.py:419-438 | 404 exactly for a missing id; success returns the stored row, whose JSON columns `ProductOut` accepts; any other failure is a 500 |
| Products.CommitRow | backend/api.py:486-501 | success exactly when the commit is accepted and the row can be presented; an unpresentable row is committed and then answered 500 |
| Products.ProductOfFields | backend/api.py:471-485 | the stored row carries every validated value; its slug is the payload's when there is one and the slug of the title otherwise |
| Products.CreateProduct | backend/api.py:441-501 | the gate first; success means the body parsed and built a `ProductIn` with a category, and the reply and the new state are that payload's row inserted under the next id; the state meets every constraint; failure changes nothing |
| Products.CreateProductSucceeds | backend/api.py:441-501 | an admin's body that builds, names an existing category and gets a fresh slug that fits its column is stored under the next id and returned |
| Products.NiceShoes | backend/api.py:455-501 | a JSON body with title "Nice Shoes", price 10 and an existing category is stored with slug "nice-shoes", price 10.0 and currency "RUB" |
| Products.PayloadPresentable | backend/api.py:474-501 | a validated body always yields a row `ProductOut` accepts |
| Products.CreateNeedsCategory | backend/api.py:468-469 | an otherwise valid body without `category_id` is answered 422 |
| Products.ApplyPatch | backend/api.py:522-548 | a successful patch is `Patched` with the coerced price and category; it fails exactly for an unparsable price (500) or category (422); fields absent from the body keep their values; a present title is its text trimmed; a present price, category, stock or active flag takes its coerced value; a blank slug becomes the slug of the title; a blank currency keeps the old one; the description is None exactly when blank |
| Products.Patched | backend/api.py:523-543 | fields absent from the body keep their values; a present title is trimmed; a present slug is trimmed, or the slug of the new title when blank; a present currency is trimmed and upper-cased, or the old one when blank; a present description is trimmed, or None when blank; present images and attributes go through `parse_json_field` on text; stock and active flag take their coerced values |
| Products.PatchedSlug | backend/api.py:525-527 | never empty; blank text gives the slug of the title, other text is trimmed |
| Products.PatchedCurrency | backend/api.py:533-534 | blank text keeps the current currency; other text is stored trimmed and upper-cased |
| Products.EmptyPatchKeeps | backend/api.py:522-548 | a body with no fields changes nothing |
| Products.ApplyPatchIdempotent | backend/api.py:522-548 | applying the same patch twice is applying it once |
| Products.UpdateProduct | backend/api.py:504-564 | the gate, then 404 before the body is read; success means the body parsed and `ApplyPatch` of the stored row gave the returned row; success replaces only that row; the set of product ids never changes |
| Products.UpdateProductSucceeds | backend/api.py:504-564 | an admin's patch of a stored product that applies, keeps every constraint and can be presented is stored over the old row and returned |
| Products.DeleteProduct | backend/api.py:567-575 | the gate first; success removes exactly that id |
| Products.DeleteProductSucceeds | backend/api.py:567-575 | on a valid database an admin's delete always succeeds and removes only that row |
| Products.CreateProductPreservesValid | backend/api.py:441-501 | creating a product leaves a valid database |
| Products.UpdateProductPreservesValid | backend/api.py:504-564 | updating a product leaves a valid database |
| Products.DeleteProductPreservesValid | backend/api.py:567-575 | deleting a product leaves a valid database |
| Legacy.KeepNonBlank | WebAppTG/backend/api.py:104-109 | exactly the non-blank entries survive, untrimmed |
| Legacy.KeepNonBlankAppend | WebAppTG/backend/api.py:104-109 | entries are filtered in order: filtering two runs is filtering each and joining them |
| Legacy.KeepNonBlankOne | WebAppTG/backend/api.py:104-109 | one entry is dropped when blank and kept as it is otherwise |
| Legacy.KeepNonBlankKeeps | WebAppTG/backend/api.py:104-109 | entries that are all non-blank pass unchanged |
| Legacy.KeepNonBlankIdempotent | WebAppTG/backend/api.py:104-109 | filtering twice is filtering once |
| Legacy.LegacyProductOf | WebAppTG/backend/api.py:286-297 | the stored row has every payload value as given except the currency, which is upper-cased; images are absent exactly when the payload has none and are otherwise its non-blank entries; the row can be presented |
| Legacy.LegacyCreateProduct | WebAppTG/backend/api.py:280-313 | the gate, then 422; success inserts the payload's row under the next id; failure changes nothing |
| Legacy.LegacyUpdateProduct | WebAppTG/backend/api.py:316-353 | the gate, 422, then 404; success overwrites that row with the payload's |
| Legacy.LegacyUpdateForgetsOldRow | WebAppTG/backend/api.py:328-337 | the stored row after an update does not depend on the row before |
| Legacy.LegacyUpdateIdempotent | WebAppTG/backend/api.py:316-353 | repeating an update changes nothing more |
| Legacy.LegacyAcceptsBlankTitle | WebAppTG/backend/api.py:92-102 | a blank title, which `backend/api.py` rejects, is stored |

## Left out

- Values.ToFloat: `float()` on text is a parameter, with None for its ValueError. NaN, infinities and binary rounding are not modelled. Prices are exact reals.
- Store.Product: `Decimal(str(price))` and the `Numeric(12, 2)` rounding to cents are not modelled. A price is stored as given, and only its range is checked.
- Values.ParseJsonField: `json.loads` is a parameter that returns the decoded value or None. JSON numbers with a fraction are not represented in `Raw`.
- Values.Render: the `str()` of a list or dict is a fixed marker that starts with a bracket, not Python's full repr.
- Text.Lower: case mapping, `strip()` and `\s` are ASCII only, because Unicode case folding is out of scope.
- Schema.Validate: the `_price`, `_stock` and `_cat` validators are identities on the values `create_product` passes them. pydantic's lax coercion of `CategoryIn`, `EnsureUserIn` and the legacy `ProductIn` bodies (numeric text to numbers and the like) is not modelled. Those bodies are taken already typed.
- Listing.ListProducts: the search filter is the literal case-insensitive substring test, not the unescaped `ILIKE` of the code, in which `%`, `_` and backslash in the search text act as wildcards and escapes (see Findings).
- Listing.ListProducts: the price bounds are compared as exact reals. The `Decimal(str(float))` conversion is not modelled.
- Body.ParseJsonOrForm: a body that is not JSON at all raises inside `request.json()`. It is modelled as a 500. A form field that repeats is not modelled.
- Store.Commit: the id sequence values consumed by failed inserts are not modelled. A failed commit keeps the old `next` values.
- 32-bit range checks on path and query parameters are not modelled. Ids in lookups are unbounded integers, and only stored columns are checked at commit.
- The async session, `get_session`, `refresh` and the FastAPI routing and response serialisation are plumbing with no decision in them.
- `backend/main.py`, `backend/alembic/env.py` and `bot/main.py` are not part of this model.

## Findings

| source | as written | input that shows it | evidently intended | confidence | as-written member | corrected member |
|---|---|---|---|---|---|---|
| backend/api.py:387-388 | the search text is pasted into `ilike(f"%{q}%")` without escaping, so `%`, `_` and backslash in it act as LIKE wildcards and escapes | `q = "_"` matches every product with a non-empty title, none of which needs to contain an underscore | a case-insensitive substring search for the literal text | medium, not executed | Search.UnderscoreMatchesAnyText | Search.IlikeIsSearchHit |

The listing filter uses the literal substring test `Search.SearchHit`, through `Listing.Matches`. `Search.IlikeAsWritten` is the filter as written. The two agree on every search text free of `%`, `_` and backslash (`Search.IlikeIsSearchHit`).
