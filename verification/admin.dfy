/** The admin gate of backend/api.py: `_parse_moder_ids`, `get_tg_id` and
    `require_admin`. WebAppTG/backend/api.py holds the same three
    functions, line for line. */
module Admin {
  import opened Wrappers
  import opened Text
  import opened Numbers
  import opened Http

  /** A part of the comma-separated list contributes the integer it parses to. */
  predicate Contributes(part: string, n: int) {
    ParseInt(Trim(part)) == Some(n)
  }

  /** The integers of the parts that are non-blank and parse, in order. */
  function IdsOfParts(parts: seq<string>): (ids: seq<int>)
    ensures |ids| <= |parts|
    ensures forall n :: n in ids <==> exists k :: 0 <= k < |parts| && Contributes(parts[k], n)
  {
    if parts == [] then []
    else
      var p := Trim(parts[0]);
      var rest := IdsOfParts(parts[1..]);
      assert forall k :: 0 < k < |parts| ==> parts[k] == parts[1..][k - 1];
      if p == [] then
        rest
      else
        match ParseInt(p)
        case None => rest
        case Some(n) => [n] + rest
  }

  /** The parts are read one after the other: the ids of a concatenation
      are the ids of the first piece followed by those of the second, so
      the parsed ids keep the order of the setting, duplicates included. */
  lemma {:induction false} IdsOfPartsAppend(a: seq<string>, b: seq<string>)
    ensures IdsOfParts(a + b) == IdsOfParts(a) + IdsOfParts(b)
  {
    if a == [] {
      assert a + b == b;
    } else {
      assert (a + b)[0] == a[0] && (a + b)[1..] == a[1..] + b;
      IdsOfPartsAppend(a[1..], b);
    }
  }

  /** One part yields its integer when, trimmed, it parses, and nothing
      otherwise. */
  lemma IdsOfPartsOne(part: string)
    ensures IdsOfParts([part]) == if ParseInt(Trim(part)).Some? then [ParseInt(Trim(part)).value] else []
  {
    if Trim(part) == [] {
      ParseIntNeedsDigit([]);
    }
  }

  /** `_parse_moder_ids(raw)`: split on commas, skip blank and non-integer
      parts, never raise. */
  function ParseModeratorIds(raw: string): seq<int> {
    IdsOfParts(Split(raw, ','))
  }

  /** An integer is on the parsed list exactly when some comma-separated
      part of the setting, trimmed, parses to it. */
  lemma ModeratorIdsMembership(raw: string, n: int)
    ensures n in ParseModeratorIds(raw) ==>
      exists k :: 0 <= k < |Split(raw, ',')| && Contributes(Split(raw, ',')[k], n)
    ensures (exists k :: 0 <= k < |Split(raw, ',')| && Contributes(Split(raw, ',')[k], n)) ==>
      n in ParseModeratorIds(raw)
  {
  }

  /** `get_tg_id`: `x_telegram_id or tg_id_q`; a zero header counts as absent. */
  function GetTgId(header: Option<int>, query: Option<int>): (r: Option<int>)
    ensures header.Some? && header.value != 0 ==> r == header
    ensures header == None || header == Some(0) ==> r == query
  {
    if header.Some? && header.value != 0 then header else query
  }

  /** `require_admin`: 401 without an id, 403 for an id off the list,
      otherwise the id itself. */
  function RequireAdmin(tgId: Option<int>, moderators: seq<int>): (r: Result<int, Failure>)
    ensures r == Failure(Unauthorized) <==> tgId == None
    ensures r == Failure(Forbidden) <==> tgId.Some? && tgId.value !in moderators
    ensures r.Success? <==> tgId.Some? && tgId.value in moderators
    ensures r.Success? ==> r.value == tgId.value
  {
    match tgId
    case None => Failure(Unauthorized)
    case Some(id) => if id in moderators then Success(id) else Failure(Forbidden)
  }

  /** The dependency chain every admin-only handler starts with. */
  function Authorize(header: Option<int>, query: Option<int>, moderators: seq<int>): Result<int, Failure> {
    RequireAdmin(GetTgId(header, query), moderators)
  }

  /** The three outcomes of the gate, in terms of what the caller sent. */
  lemma AuthorizeOutcomes(header: Option<int>, query: Option<int>, moderators: seq<int>)
    ensures Authorize(header, query, moderators) == Failure(Unauthorized) <==>
      (header == None || header == Some(0)) && query == None
    ensures header.Some? && header.value != 0 ==>
      (Authorize(header, query, moderators).Success? <==> header.value in moderators)
    ensures Authorize(header, query, moderators).Success? ==>
      Authorize(header, query, moderators).value in moderators &&
      (Authorize(header, query, moderators).value == header.GetOr(0) ||
       Some(Authorize(header, query, moderators).value) == query)
    ensures Authorize(header, query, moderators).Failure? ==>
      Authorize(header, query, moderators).error in {Unauthorized, Forbidden}
  {
  }

  function IdTexts(ids: seq<int>): (texts: seq<string>)
    ensures |texts| == |ids|
    ensures forall k :: 0 <= k < |ids| ==> texts[k] == IntText(ids[k])
  {
    if ids == [] then [] else [IntText(ids[0])] + IdTexts(ids[1..])
  }

  lemma {:induction false} IdsOfTexts(ids: seq<int>)
    ensures IdsOfParts(IdTexts(ids)) == ids
  {
    if ids != [] {
      var texts := IdTexts(ids);
      assert texts[0] == IntText(ids[0]) && texts[1..] == IdTexts(ids[1..]);
      assert Trim(texts[0]) == texts[0] && ParseInt(texts[0]) == Some(ids[0]) by {
        TrimIntText(ids[0]);
        IntTextRoundTrip(ids[0]);
      }
      HeadContributes(texts, ids[0]);
      IdsOfTexts(ids[1..]);
      assert ids == [ids[0]] + ids[1..];
    }
  }

  lemma HeadContributes(parts: seq<string>, n: int)
    requires parts != [] && Trim(parts[0]) != [] && ParseInt(Trim(parts[0])) == Some(n)
    ensures IdsOfParts(parts) == [n] + IdsOfParts(parts[1..])
  {
  }

  /** A moderator list written as comma-joined integers parses back to
      exactly those integers, in order. */
  lemma ModeratorIdsRoundTrip(ids: seq<int>)
    requires |ids| >= 1
    ensures ParseModeratorIds(Join(IdTexts(ids), ',')) == ids
  {
    var texts := IdTexts(ids);
    forall k | 0 <= k < |texts|
      ensures ',' !in texts[k]
    {
      assert forall j :: 0 <= j < |texts[k]| ==> IsDigit(texts[k][j]) || texts[k][j] == '-';
    }
    SplitJoin(texts, ',');
    IdsOfTexts(ids);
  }

  /** An empty setting yields an empty list, so nobody is an admin. */
  lemma EmptyModeratorSetting(header: Option<int>, query: Option<int>)
    ensures ParseModeratorIds("") == []
    ensures Authorize(header, query, ParseModeratorIds("")).Failure?
  {
    assert Split("", ',') == [[]];
    assert Trim([]) == [];
  }
}
