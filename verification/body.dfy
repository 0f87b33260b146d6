/** `parse_json_or_form` of backend/api.py: the request body, whatever its
    encoding, becomes one field map restricted to an allow-list. */
module Body {
  import opened Wrappers
  import opened Text
  import opened Values
  import opened Http

  /** A request as the handler sees it, already decoded by the framework:
      the Content-Type header, the JSON document (None when it does not
      decode) and the form fields. Only the part the header selects is read. */
  datatype Request = Request(contentType: Option<string>, json: Option<Raw>, form: map<string, Raw>)

  /** The entries of `m` whose key is on the allow-list. */
  function Allowed(m: map<string, Raw>, allowed: seq<string>): (r: map<string, Raw>)
    ensures forall k :: k in r <==> k in m && k in allowed
    ensures forall k :: k in r ==> r[k] == m[k]
  {
    map k | k in m && k in allowed :: m[k]
  }

  /** The three encodings the parser tells apart, by substring of the
      lower-cased Content-Type, in the order `parse_json_or_form` tests them. */
  datatype Encoding = Json | Multipart | UrlEncoded | Unsupported

  function EncodingOf(contentType: Option<string>): (e: Encoding)
    ensures e == Json <==> Contains(Lower(contentType.GetOr("")), "application/json")
    ensures e == Unsupported <==>
      && !Contains(Lower(contentType.GetOr("")), "application/json")
      && !Contains(Lower(contentType.GetOr("")), "multipart/form-data")
      && !Contains(Lower(contentType.GetOr("")), "application/x-www-form-urlencoded")
  {
    var ctype := Lower(contentType.GetOr(""));
    if Contains(ctype, "application/json") then Json
    else if Contains(ctype, "multipart/form-data") then Multipart
    else if Contains(ctype, "application/x-www-form-urlencoded") then UrlEncoded
    else Unsupported
  }

  /** `parse_json_or_form(request, allowed_fields)`. A body that is not JSON
      raises inside `request.json()`, which nothing catches. */
  function ParseJsonOrForm(req: Request, allowed: seq<string>): (r: Result<map<string, Raw>, Failure>)
    ensures r.Success? ==> forall k :: k in r.value ==> k in allowed
    ensures r == Failure(UnsupportedMediaType) <==> EncodingOf(req.contentType) == Unsupported
    ensures r == Failure(Unprocessable) <==>
      EncodingOf(req.contentType) == Json && req.json.Some? && !req.json.value.RMap?
    ensures r == Failure(Internal) <==> EncodingOf(req.contentType) == Json && req.json.None?
    ensures EncodingOf(req.contentType) == Json && req.json.Some? && req.json.value.RMap? ==>
      r == Success(Allowed(req.json.value.entries, allowed))
    ensures EncodingOf(req.contentType) in {Multipart, UrlEncoded} ==>
      r == Success(Allowed(req.form, allowed))
  {
    match EncodingOf(req.contentType)
    case Json =>
      (match req.json
       case None => Failure(Internal)
       case Some(RMap(entries)) => Success(Allowed(entries, allowed))
       case Some(_) => Failure(Unprocessable))
    case Multipart => FormFields(req.form, allowed)
    case UrlEncoded => FormFields(req.form, allowed)
    case Unsupported => Failure(UnsupportedMediaType)
  }

  /** The form branch: the comprehension over the allow-list, then the
      final filter every branch goes through. */
  function FormFields(form: map<string, Raw>, allowed: seq<string>): (r: Result<map<string, Raw>, Failure>)
    ensures r == Success(Allowed(form, allowed))
  {
    AllowedIdempotent(form, allowed);
    Success(Allowed(Allowed(form, allowed), allowed))
  }

  /** Normalising an already normalised map changes nothing: the filter is
      a projection. */
  lemma AllowedIdempotent(m: map<string, Raw>, allowed: seq<string>)
    ensures Allowed(Allowed(m, allowed), allowed) == Allowed(m, allowed)
  {
  }

  /** A JSON object and a form carrying the same fields normalise to the
      same map: the handlers cannot tell the encodings apart. */
  lemma EncodingsAgree(fields: map<string, Raw>, allowed: seq<string>, json: string, form: string)
    requires Contains(Lower(json), "application/json")
    requires !Contains(Lower(form), "application/json") && Contains(Lower(form), "multipart/form-data")
    ensures ParseJsonOrForm(Request(Some(json), Some(RMap(fields)), map[]), allowed)
         == ParseJsonOrForm(Request(Some(form), None, fields), allowed)
  {
  }

  /** A JSON request whose object carries only allowed fields is parsed to
      exactly that object. */
  lemma JsonObjectParses(fields: map<string, Raw>, allowed: seq<string>)
    requires forall k :: k in fields ==> k in allowed
    ensures ParseJsonOrForm(Request(Some("application/json"), Some(RMap(fields)), map[]), allowed) == Success(fields)
  {
    JsonContentType();
    AllowedKeepsAllowed(fields, allowed);
  }

  lemma AllowedKeepsAllowed(fields: map<string, Raw>, allowed: seq<string>)
    requires forall k :: k in fields ==> k in allowed
    ensures Allowed(fields, allowed) == fields
  {
  }

  lemma JsonContentType()
    ensures EncodingOf(Some("application/json")) == Json
  {
    JsonIsLowerCase();
    ContainsItself("application/json");
  }

  lemma JsonIsLowerCase()
    ensures Lower("application/json") == "application/json"
  {
    LowerKeeps("application/json");
  }
}
