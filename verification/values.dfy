/** Loosely typed request values and the lenient coercions of backend/api.py:
    `to_bool`, `to_int_or_none`, `to_float` and `parse_json_field`. */
module Values {
  import opened Wrappers
  import opened Text
  import opened Numbers

  /** A value decoded from a JSON body or a form field. JSON numbers with a
      fraction are not represented (see README). */
  datatype Raw =
    | RNone
    | RBool(b: bool)
    | RInt(i: int)
    | RStr(s: string)
    | RList(items: seq<Raw>)
    | RMap(entries: map<string, Raw>)

  /** The collaborators the coercions call but that are not modelled:
      `json.loads` (None for a decode error) and `float()` on text
      (None for a ValueError). */
  datatype Oracles = Oracles(json: string -> Option<Raw>, decimal: string -> Option<real>)

  /** `str(v)`. Lists and dicts are rendered by a fixed marker that, like
      Python's repr, is never blank and starts with a bracket. */
  function Render(v: Raw): (r: string)
    ensures v.RStr? ==> r == v.s
    ensures !v.RStr? ==> !IsBlank(r)
  {
    match v
    case RNone => assert !IsSpace("None"[0]); "None"
    case RBool(b) => assert !IsSpace("True"[0]) && !IsSpace("False"[0]); if b then "True" else "False"
    case RInt(i) => IntText(i)
    case RStr(s) => s
    case RList(_) => assert !IsSpace("[...]"[0]); "[...]"
    case RMap(_) => assert !IsSpace("{...}"[0]); "{...}"
  }

  /** A list of text only. */
  predicate AllText(items: seq<Raw>) {
    forall i :: 0 <= i < |items| ==> items[i].RStr?
  }

  /** Python truthiness: what `x or default` tests. */
  predicate Truthy(v: Raw) {
    match v
    case RNone => false
    case RBool(b) => b
    case RInt(i) => i != 0
    case RStr(s) => s != []
    case RList(items) => items != []
    case RMap(entries) => entries != map[]
  }

  /** `raw.get(key, default)` */
  function Get(raw: map<string, Raw>, key: string, default: Raw): (r: Raw)
    ensures key !in raw ==> r == default
    ensures key in raw ==> r == raw[key]
  {
    if key in raw then raw[key] else default
  }

  /** `x or None` */
  function OrNone(v: Raw): (r: Raw)
    ensures Truthy(v) ==> r == v
    ensures !Truthy(v) ==> r == RNone
  {
    if Truthy(v) then v else RNone
  }

  const TrueWords: set<string> := {"1", "true", "on", "yes"}

  /** `to_bool(v)` */
  function ToBool(v: Raw): bool {
    match v
    case RBool(b) => b
    case RNone => false
    case _ => Lower(Trim(Render(v))) in TrueWords
  }

  lemma IntTextIsOne(i: int)
    ensures Lower(Trim(IntText(i))) in TrueWords <==> i == 1
  {
    var t := IntText(i);
    assert Lower(Trim(t)) == t by {
      TrimIntText(i);
    }
    assert t !in {"true", "on", "yes"} by {
      assert IsDigit(t[0]) || t[0] == '-';
    }
    assert IntText(1) == "1";
    if t == "1" {
      IntTextInjective(i, 1);
    }
  }

  /** `to_bool` is true exactly for `True`, the integer 1, and text whose
      trimmed lower-cased form is one of "1", "true", "on", "yes". */
  lemma ToBoolTruth(v: Raw)
    ensures ToBool(v) <==>
      || v == RBool(true)
      || v == RInt(1)
      || (v.RStr? && Lower(Trim(v.s)) in TrueWords)
  {
    match v
    case RNone =>
    case RBool(_) =>
    case RStr(_) =>
    case RInt(i) => IntTextIsOne(i);
    case RList(_) => MarkerIsNotTrue(Render(v));
    case RMap(_) => MarkerIsNotTrue(Render(v));
  }

  lemma MarkerIsNotTrue(m: string)
    requires |m| > 0 && (m[0] == '[' || m[0] == '{') && (m[|m| - 1] == ']' || m[|m| - 1] == '}')
    ensures Lower(Trim(m)) !in TrueWords
  {
    assert Trim(m) == m by {
      assert IsTrimmed(m);
      TrimTrimmed(m);
    }
    var l := Lower(m);
    assert l[0] == m[0];
    BracketIsNotTrue(l);
  }

  lemma BracketIsNotTrue(l: string)
    requires |l| > 0 && (l[0] == '[' || l[0] == '{')
    ensures l !in TrueWords
  {
    assert "1"[0] == '1' && "true"[0] == 't' && "on"[0] == 'o' && "yes"[0] == 'y';
  }


  /** `to_int_or_none(v)`: None for None, blank text and anything `int()`
      rejects; never raises. */
  function ToIntOrNone(v: Raw): (r: Option<int>)
    ensures v == RNone ==> r == None
    ensures v.RStr? ==> r == ParseInt(v.s)
    ensures v.RInt? ==> r == Some(v.i)
    ensures v.RList? || v.RMap? ==> r == None
  {
    if v == RNone || IsBlank(Render(v)) then None
    else
      match v
      case RBool(b) => Some(if b then 1 else 0)
      case RInt(i) => Some(i)
      case RStr(s) => ParseInt(s)
      case _ => None
  }

  /** Text produced by `str(i)` coerces back to `i`. */
  lemma ToIntOrNoneRoundTrip(i: int)
    ensures ToIntOrNone(RStr(IntText(i))) == Some(i)
  {
    IntTextRoundTrip(i);
  }

  /** `x.replace(",", ".")` */
  function CommaToDot(s: string): (r: string)
    ensures |r| == |s|
    ensures forall k :: 0 <= k < |s| ==> r[k] == (if s[k] == ',' then '.' else s[k])
  {
    if s == [] then [] else [if s[0] == ',' then '.' else s[0]] + CommaToDot(s[1..])
  }

  /** `to_float(v)`: numbers (booleans included) convert exactly; anything
      else is rendered, trimmed, has commas turned into dots and is handed
      to `float()`. None is the ValueError nobody catches. */
  function ToFloat(v: Raw, oracles: Oracles): (r: Option<real>)
    ensures v.RInt? ==> r == Some(v.i as real)
    ensures v.RStr? ==> r == oracles.decimal(CommaToDot(Trim(v.s)))
  {
    match v
    case RInt(i) => Some(i as real)
    case RBool(b) => Some(if b then 1.0 else 0.0)
    case _ => oracles.decimal(CommaToDot(Trim(Render(v))))
  }

  /** `parse_json_field(v)`; RNone stands for Python's None. */
  function ParseJsonField(v: Raw, oracles: Oracles): (r: Raw)
    ensures v == RNone || v == RStr([]) ==> r == RNone
    ensures v.RList? || v.RMap? ==> r == v
    ensures v.RStr? && v.s != [] ==> r == oracles.json(v.s).GetOr(RNone)
  {
    if v == RNone || v == RStr([]) then RNone
    else if v.RList? || v.RMap? then v
    else oracles.json(Render(v)).GetOr(RNone)
  }

  /** Once `parse_json_field` has produced a list or dict, feeding it back
      changes nothing. */
  lemma ParseJsonFieldSettles(v: Raw, oracles: Oracles)
    requires ParseJsonField(v, oracles).RList? || ParseJsonField(v, oracles).RMap?
    ensures ParseJsonField(ParseJsonField(v, oracles), oracles) == ParseJsonField(v, oracles)
  {
  }
}
