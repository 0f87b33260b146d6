/** The text search of `list_products`: `ilike(f"%{q}%")` as written, and
    the literal case-insensitive substring test it was meant to be. */
module Search {
  import opened Text

  predicate FoldEq(a: char, b: char) {
    LowerChar(a) == LowerChar(b)
  }

  /** PostgreSQL's ILIKE: `%` matches any run, `_` any one character, a
      backslash makes the next pattern character literal, and letters
      compare without regard to ASCII case. */
  predicate LikeMatch(s: string, pat: string)
    decreases |s| + |pat|
  {
    if pat == [] then s == []
    else if pat[0] == '%' then LikeMatch(s, pat[1..]) || (s != [] && LikeMatch(s[1..], pat))
    else if s == [] then false
    else if pat[0] == '_' then LikeMatch(s[1..], pat[1..])
    else if pat[0] == '\\' && |pat| >= 2 then FoldEq(s[0], pat[1]) && LikeMatch(s[1..], pat[2..])
    else FoldEq(s[0], pat[0]) && LikeMatch(s[1..], pat[1..])
  }

  /** The filter as written: the search text is pasted into the pattern
      without escaping. */
  predicate IlikeAsWritten(text: string, q: string) {
    LikeMatch(text, "%" + q + "%")
  }

  /** The intended filter: `q` occurs in `text`, ignoring ASCII case. */
  predicate SearchHit(text: string, q: string) {
    ContainsFolded(text, q)
  }

  predicate IsLikeSpecial(c: char) {
    c == '%' || c == '_' || c == '\\'
  }

  /** Text in which LIKE sees no wildcard and no escape. */
  predicate IsLiteral(q: string) {
    forall i :: 0 <= i < |q| ==> !IsLikeSpecial(q[i])
  }

  lemma {:induction false} LikeAnything(s: string)
    ensures LikeMatch(s, "%")
    decreases |s|
  {
    if s != [] {
      LikeAnything(s[1..]);
    }
  }

  lemma {:induction false} LikeLiteralPrefix(s: string, q: string)
    requires IsLiteral(q)
    ensures LikeMatch(s, q + "%") <==> |q| <= |s| && Lower(s[..|q|]) == Lower(q)
    decreases |q|
  {
    if q == [] {
      assert q + "%" == "%";
      LikeAnything(s);
      assert s[..0] == [];
    } else {
      var pat := q + "%";
      assert pat[0] == q[0] && pat[1..] == q[1..] + "%";
      if s != [] {
        LikeLiteralPrefix(s[1..], q[1..]);
        if |q| <= |s| {
          assert Lower(s[..|q|]) == [LowerChar(s[0])] + Lower(s[1..][..|q| - 1]) by {
            assert s[..|q|] == [s[0]] + s[1..][..|q| - 1];
            LowerAppend([s[0]], s[1..][..|q| - 1]);
          }
          assert Lower(q) == [LowerChar(q[0])] + Lower(q[1..]) by {
            assert q == [q[0]] + q[1..];
            LowerAppend([q[0]], q[1..]);
          }
        }
      }
    }
  }

  lemma {:induction false} LikeLeadingPercent(s: string, r: string)
    ensures LikeMatch(s, "%" + r) <==> exists i :: 0 <= i <= |s| && LikeMatch(s[i..], r)
    decreases |s|
  {
    var pat := "%" + r;
    assert pat[1..] == r;
    if s == [] {
      if LikeMatch(s, r) {
        assert s[0..] == s;
      }
    } else {
      LikeLeadingPercent(s[1..], r);
      if LikeMatch(s, pat) {
        if LikeMatch(s, r) {
          assert s[0..] == s;
        } else {
          var i :| 0 <= i <= |s| - 1 && LikeMatch(s[1..][i..], r);
          assert s[1..][i..] == s[i + 1..];
        }
      }
      if exists i :: 0 <= i <= |s| && LikeMatch(s[i..], r) {
        var i :| 0 <= i <= |s| && LikeMatch(s[i..], r);
        if i > 0 {
          assert s[1..][i - 1..] == s[i..];
        } else {
          assert s[0..] == s;
        }
      }
    }
  }

  /** Both filters agree whenever the search text has no `%`, `_` or
      backslash. */
  lemma IlikeIsSearchHit(text: string, q: string)
    requires IsLiteral(q)
    ensures IlikeAsWritten(text, q) <==> SearchHit(text, q)
  {
    assert "%" + q + "%" == "%" + (q + "%");
    LikeLeadingPercent(text, q + "%");
    if IlikeAsWritten(text, q) {
      var i :| 0 <= i <= |text| && LikeMatch(text[i..], q + "%");
      MatchAtIsHit(text, q, i);
    }
    if SearchHit(text, q) {
      var i :| 0 <= i && i + |Lower(q)| <= |Lower(text)| && OccursAt(Lower(text), Lower(q), i);
      HitIsMatchAt(text, q, i);
    }
  }

  lemma LowerWindow(text: string, i: int, n: int)
    requires 0 <= i && 0 <= n && i + n <= |text|
    ensures Lower(text)[i..i + n] == Lower(text[i..][..n])
  {
  }

  lemma MatchAtIsHit(text: string, q: string, i: int)
    requires IsLiteral(q) && 0 <= i <= |text|
    requires LikeMatch(text[i..], q + "%")
    ensures SearchHit(text, q)
  {
    LikeLiteralPrefix(text[i..], q);
    LowerWindow(text, i, |q|);
    assert OccursAt(Lower(text), Lower(q), i);
  }

  lemma HitIsMatchAt(text: string, q: string, i: int)
    requires IsLiteral(q) && 0 <= i && i + |q| <= |text|
    requires OccursAt(Lower(text), Lower(q), i)
    ensures LikeMatch(text[i..], q + "%")
  {
    LikeLiteralPrefix(text[i..], q);
    LowerWindow(text, i, |q|);
  }

  /** The discrepancy: searching for "_" selects every row whose text is
      non-empty, though no such text contains an underscore. */
  lemma UnderscoreMatchesAnyText(text: string)
    requires |text| >= 1 && '_' !in text
    ensures IlikeAsWritten(text, "_")
    ensures !SearchHit(text, "_")
  {
    var pat := "%" + "_" + "%";
    assert pat[1..] == "_%";
    assert "_%"[1..] == "%";
    LikeAnything(text[1..]);
    assert LikeMatch(text, "_%");
  }
}
