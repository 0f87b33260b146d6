/** `slugify` of backend/api.py: a URL-safe identifier derived from free text. */
module Slug {
  import opened Text

  /** Characters a slug keeps as content. */
  predicate IsWordChar(c: char) {
    'a' <= c <= 'z' || '0' <= c <= '9'
  }

  /** The class `[a-z0-9\-]` of the slug pattern. */
  predicate IsSlugChar(c: char) {
    IsWordChar(c) || c == '-'
  }

  predicate IsHyphen(c: char) {
    c == '-'
  }

  /** The argument of `strip("-")`. */
  const Hyphens := Chars({'-'})

  predicate NotSlugChar(c: char) {
    !IsSlugChar(c)
  }

  predicate NoDoubleHyphen(s: string) {
    forall i, j :: 0 <= i < |s| && 0 <= j < |s| && j == i + 1 ==> !(s[i] == '-' && s[j] == '-')
  }

  /** The output shape: non-empty, only `[a-z0-9-]`, no hyphen at either
      end and no two hyphens in a row. */
  predicate IsSlug(s: string) {
    && |s| > 0
    && (forall i :: 0 <= i < |s| ==> IsSlugChar(s[i]))
    && s[0] != '-'
    && s[|s| - 1] != '-'
    && NoDoubleHyphen(s)
  }

  /** The length of the input's leading run of `p`-characters. */
  function RunEnd(s: string, p: char -> bool): (n: nat)
    ensures n <= |s|
    ensures forall i :: 0 <= i < n ==> p(s[i])
    ensures n < |s| ==> !p(s[n])
    decreases |s|
  {
    if s != [] && p(s[0]) then 1 + RunEnd(s[1..], p) else 0
  }

  /** `re.sub(P + "+", "-", s)` where `P` is the class `p` describes: every
      maximal run of `p`-characters becomes one hyphen. */
  function Collapse(s: string, p: char -> bool): (r: string)
    ensures forall i :: 0 <= i < |r| ==> r[i] == '-' || (!p(r[i]) && r[i] in s)
    decreases |s|
  {
    if s == [] then []
    else if p(s[0]) then "-" + Collapse(s[RunEnd(s, p)..], p)
    else [s[0]] + Collapse(s[1..], p)
  }

  /** `slugify(value)`: trim, lower-case, whitespace runs to a hyphen, runs
      of characters outside `[a-z0-9-]` to a hyphen, runs of hyphens to
      one, hyphens stripped from both ends, and "item" when nothing is left.
      The source writes the third rewrite as `-{2,}` to `-`; replacing
      every run of one or more hyphens by one hyphen gives the same text. */
  function Slugify(value: string): string {
    var v1 := Lower(Trim(value));
    var v2 := Collapse(v1, IsSpace);
    var v3 := Collapse(v2, NotSlugChar);
    var v4 := StripBy(Collapse(v3, IsHyphen), Hyphens);
    if v4 == [] then "item" else v4
  }

  // ---------------------------------------------------------------------------
  // Shape

  lemma {:induction false} CollapseHyphensNoDouble(s: string)
    ensures NoDoubleHyphen(Collapse(s, IsHyphen))
    decreases |s|
  {
    if s == [] {
    } else if s[0] == '-' {
      var t := s[RunEnd(s, IsHyphen)..];
      CollapseHyphensNoDouble(t);
      if t != [] {
        assert Collapse(t, IsHyphen)[0] == t[0];
      }
    } else {
      CollapseHyphensNoDouble(s[1..]);
    }
  }

  lemma NoDoubleHyphenSlice(s: string, i: int, j: int)
    requires 0 <= i <= j <= |s|
    requires NoDoubleHyphen(s)
    ensures NoDoubleHyphen(s[i..j])
  {
    var t := s[i..j];
    forall a, b | 0 <= a < b < |t| && b == a + 1
      ensures !(t[a] == '-' && t[b] == '-')
    {
      assert t[a] == s[i + a] && t[b] == s[i + b];
    }
  }

  /** Stripping the hyphens off a hyphen-collapsed string over `[a-z0-9-]`
      leaves either nothing or a slug. */
  lemma StrippedShape(v: string)
    requires forall i :: 0 <= i < |v| ==> IsSlugChar(v[i])
    requires NoDoubleHyphen(v)
    ensures StripBy(v, Hyphens) == [] || IsSlug(StripBy(v, Hyphens))
  {
    var r := StripBy(v, Hyphens);
    var i, j := StripBySlice(v, Hyphens);
    NoDoubleHyphenSlice(v, i, j);
  }

  /** `slugify` always returns a non-empty string over `[a-z0-9-]` with no
      leading, trailing or doubled hyphen. */
  lemma SlugifyShape(value: string)
    ensures IsSlug(Slugify(value))
  {
    var v2 := Collapse(Lower(Trim(value)), IsSpace);
    var v3 := Collapse(v2, NotSlugChar);
    var v5 := Collapse(v3, IsHyphen);
    SlugCharsAfterCollapse(v2);
    CollapseHyphensNoDouble(v3);
    StrippedShape(v5);
    ItemIsSlug();
  }

  /** After the second rewrite only `[a-z0-9-]` is left, and collapsing the
      hyphens keeps it so. */
  lemma SlugCharsAfterCollapse(v2: string)
    ensures var v5 := Collapse(Collapse(v2, NotSlugChar), IsHyphen);
      forall i :: 0 <= i < |v5| ==> IsSlugChar(v5[i])
  {
    var v3 := Collapse(v2, NotSlugChar);
    assert forall i :: 0 <= i < |v3| ==> IsSlugChar(v3[i]);
    var v5 := Collapse(v3, IsHyphen);
    forall i | 0 <= i < |v5|
      ensures IsSlugChar(v5[i])
    {
      assert v5[i] == '-' || v5[i] in v3;
    }
  }

  lemma ItemIsSlug()
    ensures IsSlug("item")
  {
  }

  // ---------------------------------------------------------------------------
  // Content: the letters and digits survive, in order

  lemma {:induction false} FilterNone<T>(q: T -> bool, s: seq<T>)
    requires forall i :: 0 <= i < |s| ==> !q(s[i])
    ensures Filter(q, s) == []
  {
    if s != [] {
      FilterNone(q, s[1..]);
    }
  }

  lemma {:induction false} CollapseKeepsWords(s: string, p: char -> bool)
    requires forall c :: p(c) ==> !IsWordChar(c)
    ensures Filter(IsWordChar, Collapse(s, p)) == Filter(IsWordChar, s)
    decreases |s|
  {
    if s == [] {
    } else if p(s[0]) {
      var k := RunEnd(s, p);
      var t := s[k..];
      CollapseKeepsWords(t, p);
      assert s == s[..k] + t;
      FilterAppend(IsWordChar, s[..k], t);
      FilterNone(IsWordChar, s[..k]);
      assert ("-" + Collapse(t, p))[1..] == Collapse(t, p);
    } else {
      CollapseKeepsWords(s[1..], p);
      assert ([s[0]] + Collapse(s[1..], p))[1..] == Collapse(s[1..], p);
    }
  }

  lemma {:induction false} StripKeepsFilter(s: string, k: StripSet, q: char -> bool)
    requires forall c :: Strips(k, c) ==> !q(c)
    ensures Filter(q, StripBy(s, k)) == Filter(q, s)
    decreases |s|
  {
    if s == [] {
    } else if Strips(k, s[0]) {
      StripKeepsFilter(s[1..], k, q);
    } else if Strips(k, s[|s| - 1]) {
      var init := s[..|s| - 1];
      StripKeepsFilter(init, k, q);
      assert s == init + [s[|s| - 1]];
      FilterAppend(q, init, [s[|s| - 1]]);
      assert Filter(q, [s[|s| - 1]]) == [];
    }
  }

  lemma {:induction false} LowerTrimCommute(s: string)
    ensures Lower(Trim(s)) == Trim(Lower(s))
    decreases |s|
  {
    var l := Lower(s);
    if s == [] {
    } else if IsSpace(s[0]) {
      assert l[1..] == Lower(s[1..]);
      LowerTrimCommute(s[1..]);
    } else if IsSpace(s[|s| - 1]) {
      assert l[..|l| - 1] == Lower(s[..|s| - 1]);
      LowerTrimCommute(s[..|s| - 1]);
    }
  }

  /** The letters and digits of the lower-cased input survive in order; when
      there are none, the result is the fallback "item". */
  lemma SlugifyKeepsWords(value: string)
    ensures var w := Filter(IsWordChar, Lower(value));
      && (w == [] ==> Slugify(value) == "item")
      && (w != [] ==> Filter(IsWordChar, Slugify(value)) == w)
  {
    var v1 := Lower(Trim(value));
    var v4 := StripBy(Collapse(Collapse(Collapse(v1, IsSpace), NotSlugChar), IsHyphen), Hyphens);
    TrimKeepsWords(value);
    CollapsesKeepWords(v1);
    if v4 != [] {
      assert IsWordChar(v4[0]) by {
        SlugifyShape(value);
      }
      assert Filter(IsWordChar, v4) != [];
    }
  }

  lemma TrimKeepsWords(value: string)
    ensures Filter(IsWordChar, Lower(Trim(value))) == Filter(IsWordChar, Lower(value))
  {
    LowerTrimCommute(value);
    TrimIsStrip(Lower(value));
    StripKeepsFilter(Lower(value), Whitespace, IsWordChar);
  }

  lemma CollapsesKeepWords(v1: string)
    ensures var v4 := StripBy(Collapse(Collapse(Collapse(v1, IsSpace), NotSlugChar), IsHyphen), Hyphens);
      Filter(IsWordChar, v4) == Filter(IsWordChar, v1)
  {
    var v2 := Collapse(v1, IsSpace);
    var v3 := Collapse(v2, NotSlugChar);
    CollapseKeepsWords(v1, IsSpace);
    CollapseKeepsWords(v2, NotSlugChar);
    CollapseKeepsWords(v3, IsHyphen);
    StripKeepsFilter(Collapse(v3, IsHyphen), Hyphens, IsWordChar);
  }


  // ---------------------------------------------------------------------------
  // Idempotence

  lemma {:induction false} CollapseKeepsClean(s: string, p: char -> bool)
    requires forall i :: 0 <= i < |s| ==> !p(s[i])
    ensures Collapse(s, p) == s
    decreases |s|
  {
    if s != [] {
      CollapseKeepsClean(s[1..], p);
    }
  }

  lemma {:induction false} CollapseHyphensKeeps(s: string)
    requires NoDoubleHyphen(s)
    ensures Collapse(s, IsHyphen) == s
    decreases |s|
  {
    if s != [] {
      var t := s[1..];
      assert NoDoubleHyphen(t) by {
        NoDoubleHyphenSlice(s, 1, |s|);
      }
      CollapseHyphensKeeps(t);
      if s[0] == '-' {
        assert RunEnd(s, IsHyphen) == 1 by {
          assert t == [] || t[0] != '-';
        }
        assert Collapse(s, IsHyphen) == "-" + t;
      } else {
        assert Collapse(s, IsHyphen) == [s[0]] + t;
      }
      assert s == [s[0]] + t;
    }
  }

  /** A string already in slug shape is its own slug. */
  lemma SlugifyFixesSlugs(s: string)
    requires IsSlug(s)
    ensures Slugify(s) == s
  {
    assert forall i :: 0 <= i < |s| ==> !IsSpace(s[i]);
    assert Trim(s) == s by {
      TrimTrimmed(s);
    }
    assert Lower(s) == s by {
      LowerSlugChars(s);
    }
    CollapseKeepsClean(s, IsSpace);
    SlugifyAfterSpaces(s, s);
  }

  lemma LowerSlugChars(s: string)
    requires forall i :: 0 <= i < |s| ==> IsSlugChar(s[i])
    ensures Lower(s) == s
  {
    assert forall i :: 0 <= i < |s| ==> !IsUpper(s[i]);
  }

  /** `slugify(slugify(x)) == slugify(x)` */
  lemma SlugifyIdempotent(value: string)
    ensures Slugify(Slugify(value)) == Slugify(value)
  {
    SlugifyShape(value);
    SlugifyFixesSlugs(Slugify(value));
  }

  // ---------------------------------------------------------------------------
  // Two words

  predicate IsAlnum(c: char) {
    'a' <= c <= 'z' || 'A' <= c <= 'Z' || '0' <= c <= '9'
  }

  lemma {:induction false} CollapseOneSeparator(a: string, c: char, b: string, p: char -> bool)
    requires forall i :: 0 <= i < |a| ==> !p(a[i])
    requires forall i :: 0 <= i < |b| ==> !p(b[i])
    requires p(c)
    ensures Collapse(a + [c] + b, p) == a + "-" + b
    decreases |a|
  {
    if a == [] {
      assert a + [c] + b == [c] + b;
      CollapseSeparatorFirst(c, b, p);
      assert a + "-" + b == "-" + b;
    } else {
      var t := a[1..] + [c] + b;
      assert a + [c] + b == [a[0]] + t;
      CollapseKeptHead(a[0], t, p);
      CollapseOneSeparator(a[1..], c, b, p);
      assert [a[0]] + (a[1..] + "-" + b) == a + "-" + b;
    }
  }

  lemma CollapseSeparatorFirst(c: char, b: string, p: char -> bool)
    requires forall i :: 0 <= i < |b| ==> !p(b[i])
    requires p(c)
    ensures Collapse([c] + b, p) == "-" + b
  {
    var s := [c] + b;
    assert RunEnd(s, p) == 1 by {
      assert s[1..] == b;
      assert b == [] || !p(b[0]);
    }
    assert s[1..] == b;
    CollapseKeepsClean(b, p);
  }

  lemma CollapseKeptHead(x: char, t: string, p: char -> bool)
    requires !p(x)
    ensures Collapse([x] + t, p) == [x] + Collapse(t, p)
  {
    assert ([x] + t)[1..] == t;
  }

  lemma LowerAlnum(a: string)
    requires forall i :: 0 <= i < |a| ==> IsAlnum(a[i])
    ensures forall i :: 0 <= i < |a| ==> IsWordChar(Lower(a)[i]) && !IsSpace(Lower(a)[i])
  {
    forall i | 0 <= i < |a|
      ensures IsWordChar(Lower(a)[i]) && !IsSpace(Lower(a)[i])
    {
      var c := a[i];
      if IsUpper(c) {
        assert LowerChar(c) as int == c as int + 32;
      }
    }
  }

  /** Once the whitespace rewrite has produced a slug, the later rewrites keep it. */
  lemma SlugifyAfterSpaces(value: string, t: string)
    requires Collapse(Lower(Trim(value)), IsSpace) == t
    requires IsSlug(t)
    ensures Slugify(value) == t
  {
    CollapseKeepsClean(t, NotSlugChar);
    CollapseHyphensKeeps(t);
    StripByKeeps(t, Hyphens);
  }

  lemma LowerTwoWords(a: string, b: string)
    ensures Lower(a + " " + b) == Lower(a) + [' '] + Lower(b)
  {
    LowerAppend(a, " ");
    LowerAppend(a + " ", b);
    assert Lower(" ") == " ";
  }

  lemma HyphenJoinIsSlug(la: string, lb: string)
    requires |la| > 0 && |lb| > 0
    requires forall i :: 0 <= i < |la| ==> IsWordChar(la[i])
    requires forall i :: 0 <= i < |lb| ==> IsWordChar(lb[i])
    ensures IsSlug(la + "-" + lb)
  {
    var t := la + "-" + lb;
    assert forall i :: 0 <= i < |t| ==> (i == |la| || IsWordChar(t[i]));
  }

  lemma TwoWordsLowered(a: string, b: string)
    requires |a| > 0 && |b| > 0
    requires forall i :: 0 <= i < |a| ==> IsAlnum(a[i])
    requires forall i :: 0 <= i < |b| ==> IsAlnum(b[i])
    ensures Lower(Trim(a + " " + b)) == Lower(a) + [' '] + Lower(b)
  {
    var s := a + " " + b;
    assert Trim(s) == s by {
      assert s[0] == a[0] && s[|s| - 1] == b[|b| - 1];
      TrimTrimmed(s);
    }
    LowerTwoWords(a, b);
  }

  lemma TwoWordsSpaces(a: string, b: string)
    requires |a| > 0 && |b| > 0
    requires forall i :: 0 <= i < |a| ==> IsAlnum(a[i])
    requires forall i :: 0 <= i < |b| ==> IsAlnum(b[i])
    ensures Collapse(Lower(Trim(a + " " + b)), IsSpace) == Lower(a) + "-" + Lower(b)
    ensures IsSlug(Lower(a) + "-" + Lower(b))
  {
    TwoWordsLowered(a, b);
    LowerAlnum(a);
    LowerAlnum(b);
    CollapseOneSeparator(Lower(a), ' ', Lower(b), IsSpace);
    HyphenJoinIsSlug(Lower(a), Lower(b));
  }

  /** Two words of ASCII letters and digits separated by one space become
      the two lower-cased words joined by a hyphen: "Nice Shoes" gives
      "nice-shoes". */
  lemma SlugifyTwoWords(a: string, b: string)
    requires |a| > 0 && |b| > 0
    requires forall i :: 0 <= i < |a| ==> IsAlnum(a[i])
    requires forall i :: 0 <= i < |b| ==> IsAlnum(b[i])
    ensures Slugify(a + " " + b) == Lower(a) + "-" + Lower(b)
  {
    TwoWordsSpaces(a, b);
    SlugifyAfterSpaces(a + " " + b, Lower(a) + "-" + Lower(b));
  }

  /** `slugify("Nice Shoes")` is "nice-shoes". */
  lemma SlugOfNiceShoes()
    ensures Slugify("Nice Shoes") == "nice-shoes"
  {
    NiceShoesWords();
    SlugifyTwoWords("Nice", "Shoes");
    NiceShoesSpelled();
  }

  lemma NiceShoesWords()
    ensures forall i :: 0 <= i < |"Nice"| ==> IsAlnum("Nice"[i])
    ensures forall i :: 0 <= i < |"Shoes"| ==> IsAlnum("Shoes"[i])
  {
  }

  lemma NiceShoesSpelled()
    ensures "Nice" + " " + "Shoes" == "Nice Shoes"
    ensures Lower("Nice") + "-" + Lower("Shoes") == "nice-shoes"
  {
    LowerOf("Nice", "nice");
    LowerOf("Shoes", "shoes");
  }
}
