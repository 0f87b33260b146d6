/** ASCII text primitives: Python's `str.strip`, `str.lower`, `str.upper`,
    `str.split(",")` and substring search, restricted to ASCII. */
module Text {

  /** `str.isspace()` on ASCII: tab, line feed, vertical tab, form feed,
      carriage return, the four information separators and space. The
      regular-expression class `\s` matches the same characters. */
  predicate IsSpace(c: char) {
    (9 <= c as int <= 13) || (28 <= c as int <= 32)
  }

  predicate IsUpper(c: char) {
    'A' <= c <= 'Z'
  }

  predicate IsLowerLetter(c: char) {
    'a' <= c <= 'z'
  }

  function LowerChar(c: char): (r: char)
    ensures !IsUpper(r)
    ensures IsUpper(c) <==> r != c
    ensures IsSpace(c) <==> IsSpace(r)
  {
    if IsUpper(c) then (c as int + 32) as char else c
  }

  function UpperChar(c: char): (r: char)
    ensures !IsLowerLetter(r)
    ensures IsLowerLetter(c) <==> r != c
    ensures IsSpace(c) <==> IsSpace(r)
  {
    if IsLowerLetter(c) then (c as int - 32) as char else c
  }

  /** `s.lower()`: ASCII letters only; every other character is kept. */
  function Lower(s: string): (r: string)
    ensures |r| == |s|
    ensures forall i :: 0 <= i < |s| ==> r[i] == LowerChar(s[i])
  {
    if s == [] then [] else [LowerChar(s[0])] + Lower(s[1..])
  }

  /** `s.upper()`: ASCII letters only. */
  function Upper(s: string): (r: string)
    ensures |r| == |s|
    ensures forall i :: 0 <= i < |s| ==> r[i] == UpperChar(s[i])
  {
    if s == [] then [] else [UpperChar(s[0])] + Upper(s[1..])
  }

  lemma LowerAppend(a: string, b: string)
    ensures Lower(a + b) == Lower(a) + Lower(b)
  {
  }

  lemma LowerIdempotent(s: string)
    ensures Lower(Lower(s)) == Lower(s)
  {
  }

  lemma UpperIdempotent(s: string)
    ensures Upper(Upper(s)) == Upper(s)
  {
  }

  /** What a strip removes: `strip()` removes whitespace, `strip(chars)`
      the given characters. */
  datatype StripSet = Whitespace | Chars(chars: set<char>)

  predicate Strips(k: StripSet, c: char) {
    match k
    case Whitespace => IsSpace(c)
    case Chars(cs) => c in cs
  }

  /** `s.strip()` or `s.strip(chars)`: drops every leading and trailing
      character of the set. */
  function StripBy(s: string, k: StripSet): (r: string)
    ensures |r| <= |s|
    ensures r != [] ==> !Strips(k, r[0]) && !Strips(k, r[|r| - 1])
    ensures r == [] <==> forall i :: 0 <= i < |s| ==> Strips(k, s[i])
    decreases |s|
  {
    if s == [] then []
    else if Strips(k, s[0]) then StripBy(s[1..], k)
    else if Strips(k, s[|s| - 1]) then StripBy(s[..|s| - 1], k)
    else s
  }

  /** What `StripBy` returns is the piece of its input from index `i` up
      to `j`, and everything outside that piece is in the set. With the
      result's own ends outside the set, this pins the piece down: it runs
      from the first to the last character the set does not hold. */
  lemma {:induction false} StripBySlice(s: string, k: StripSet) returns (i: int, j: int)
    ensures 0 <= i <= j <= |s| && s[i..j] == StripBy(s, k)
    ensures forall m :: 0 <= m < i ==> Strips(k, s[m])
    ensures forall m :: j <= m < |s| ==> Strips(k, s[m])
    decreases |s|
  {
    if s == [] {
      i, j := 0, 0;
    } else if Strips(k, s[0]) {
      var a, b := StripBySlice(s[1..], k);
      StripFront(s, s[1..], k, a, b);
      i, j := a + 1, b + 1;
    } else if Strips(k, s[|s| - 1]) {
      i, j := StripBySlice(s[..|s| - 1], k);
      StripBack(s, s[..|s| - 1], k, i, j);
    } else {
      i, j := 0, |s|;
    }
  }

  lemma StripFront(s: string, t: string, k: StripSet, a: int, b: int)
    requires s != [] && Strips(k, s[0])
    requires t == s[1..]
    requires 0 <= a <= b <= |t| && t[a..b] == StripBy(t, k)
    requires forall m :: 0 <= m < a ==> Strips(k, t[m])
    requires forall m :: b <= m < |t| ==> Strips(k, t[m])
    ensures s[a + 1..b + 1] == StripBy(s, k)
    ensures forall m :: 0 <= m < a + 1 ==> Strips(k, s[m])
    ensures forall m :: b + 1 <= m < |s| ==> Strips(k, s[m])
  {
    SuffixSlice(s, 1, a, b);
    forall m | 1 <= m < |s|
      ensures s[m] == t[m - 1]
    {
    }
  }

  lemma SuffixSlice(s: string, n: int, a: int, b: int)
    requires 0 <= n <= |s| && 0 <= a <= b <= |s| - n
    ensures s[n..][a..b] == s[a + n..b + n]
  {
  }

  lemma StripBack(s: string, t: string, k: StripSet, i: int, j: int)
    requires s != [] && !Strips(k, s[0]) && Strips(k, s[|s| - 1])
    requires t == s[..|s| - 1]
    requires 0 <= i <= j <= |t| && t[i..j] == StripBy(t, k)
    requires forall m :: 0 <= m < i ==> Strips(k, t[m])
    requires forall m :: j <= m < |t| ==> Strips(k, t[m])
    ensures s[i..j] == StripBy(s, k)
    ensures forall m :: 0 <= m < i ==> Strips(k, s[m])
    ensures forall m :: j <= m < |s| ==> Strips(k, s[m])
  {
    PrefixSlice(s, |s| - 1, i, j);
    forall m | 0 <= m < |s| - 1
      ensures s[m] == t[m]
    {
    }
  }

  lemma PrefixSlice(s: string, n: int, i: int, j: int)
    requires 0 <= i <= j <= n <= |s|
    ensures s[..n][i..j] == s[i..j]
  {
  }

  /** Stripping twice strips nothing more. */
  lemma {:induction false} StripByIdempotent(s: string, k: StripSet)
    ensures StripBy(StripBy(s, k), k) == StripBy(s, k)
  {
    var r := StripBy(s, k);
    if r != [] {
      assert !Strips(k, r[0]) && !Strips(k, r[|r| - 1]);
    }
  }

  /** A string whose ends are outside the set is left as it is. */
  lemma StripByKeeps(s: string, k: StripSet)
    requires s != [] ==> !Strips(k, s[0]) && !Strips(k, s[|s| - 1])
    ensures StripBy(s, k) == s
  {
  }

  /** `s.strip()`: `StripBy` with the whitespace set, written out on
      `IsSpace` directly (`TrimIsStrip` shows the two agree). */
  function Trim(s: string): (r: string)
    ensures |r| <= |s|
    ensures r != [] ==> !IsSpace(r[0]) && !IsSpace(r[|r| - 1])
    ensures r == [] <==> forall i :: 0 <= i < |s| ==> IsSpace(s[i])
    decreases |s|
  {
    if s == [] then []
    else if IsSpace(s[0]) then Trim(s[1..])
    else if IsSpace(s[|s| - 1]) then Trim(s[..|s| - 1])
    else s
  }

  lemma {:induction false} TrimIsStrip(s: string)
    ensures Trim(s) == StripBy(s, Whitespace)
    decreases |s|
  {
    if s != [] {
      if IsSpace(s[0]) {
        TrimIsStrip(s[1..]);
      } else if IsSpace(s[|s| - 1]) {
        TrimIsStrip(s[..|s| - 1]);
      }
    }
  }

  /** `s.strip()` removes exactly the whitespace at both ends: the result
      is the piece of `s` between its first and its last non-whitespace
      character, and empty when there is none. */
  lemma TrimSlice(s: string) returns (i: int, j: int)
    ensures 0 <= i <= j <= |s| && Trim(s) == s[i..j]
    ensures forall m :: 0 <= m < i ==> IsSpace(s[m])
    ensures forall m :: j <= m < |s| ==> IsSpace(s[m])
    ensures i < j ==> !IsSpace(s[i]) && !IsSpace(s[j - 1])
  {
    TrimIsStrip(s);
    i, j := StripBySlice(s, Whitespace);
    assert Trim(s) == s[i..j];
    if i < j {
      assert s[i] == Trim(s)[0] && s[j - 1] == Trim(s)[|Trim(s)| - 1];
    }
  }

  /** Python's "not s.strip()": blank means empty or whitespace only. */
  predicate IsBlank(s: string) {
    forall i :: 0 <= i < |s| ==> IsSpace(s[i])
  }

  /** No whitespace at either end: what `s.strip()` leaves. */
  predicate IsTrimmed(s: string) {
    s != [] ==> !IsSpace(s[0]) && !IsSpace(s[|s| - 1])
  }

  lemma TrimTrimmed(s: string)
    ensures IsTrimmed(Trim(s))
    ensures IsTrimmed(s) ==> Trim(s) == s
  {
  }

  /** Text without upper-case letters is its own lower case. */
  lemma LowerKeeps(s: string)
    requires forall i :: 0 <= i < |s| ==> !IsUpper(s[i])
    ensures Lower(s) == s
  {
  }

  /** `t` is the lower case of `s` when it is so character by character. */
  lemma LowerOf(s: string, t: string)
    requires |s| == |t| && forall i :: 0 <= i < |s| ==> LowerChar(s[i]) == t[i]
    ensures Lower(s) == t
  {
  }

  /** Every string contains itself. */
  lemma ContainsItself(s: string)
    ensures Contains(s, s)
  {
    assert OccursAt(s, s, 0);
  }

  /** Text without lower-case letters is its own upper case. */
  lemma UpperKeeps(s: string)
    requires forall i :: 0 <= i < |s| ==> !IsLowerLetter(s[i])
    ensures Upper(s) == s
  {
  }

  /** Upper-casing leaves the ends' whitespace as it is, so it commutes
      with stripping. */
  lemma UpperTrimmed(s: string)
    requires IsTrimmed(s)
    ensures IsTrimmed(Upper(s))
  {
  }

  lemma TrimBlank(s: string)
    ensures Trim(s) == [] <==> IsBlank(s)
    ensures !IsBlank(Trim(s)) <==> !IsBlank(s)
  {
  }

  /** The elements of `s` that `p` holds of, in order. */
  function Filter<T>(p: T -> bool, s: seq<T>): (r: seq<T>)
    ensures |r| <= |s|
    ensures forall i :: 0 <= i < |r| ==> p(r[i]) && r[i] in s
  {
    if s == [] then []
    else if p(s[0]) then [s[0]] + Filter(p, s[1..])
    else Filter(p, s[1..])
  }

  lemma {:induction false} FilterAppend<T>(p: T -> bool, a: seq<T>, b: seq<T>)
    ensures Filter(p, a + b) == Filter(p, a) + Filter(p, b)
  {
    if a == [] {
      assert a + b == b;
    } else {
      assert (a + b)[1..] == a[1..] + b;
      FilterAppend(p, a[1..], b);
    }
  }

  /** Filtering keeps every element the predicate holds of. */
  lemma {:induction false} FilterKeeps<T>(p: T -> bool, s: seq<T>, x: T)
    requires x in s && p(x)
    ensures x in Filter(p, s)
  {
    if s[0] != x {
      FilterKeeps(p, s[1..], x);
    }
  }

  predicate OccursAt(s: string, t: string, i: int)
    requires 0 <= i && i + |t| <= |s|
  {
    s[i..i + |t|] == t
  }

  /** Python's `t in s` on strings. */
  predicate Contains(s: string, t: string) {
    exists i :: 0 <= i && i + |t| <= |s| && OccursAt(s, t, i)
  }

  /** Case-insensitive substring test, ASCII case folding. */
  predicate ContainsFolded(s: string, t: string) {
    Contains(Lower(s), Lower(t))
  }

  /** `s.split(sep)`: always at least one part; parts never contain `sep`. */
  function Split(s: string, sep: char): (parts: seq<string>)
    ensures |parts| >= 1
    ensures forall k :: 0 <= k < |parts| ==> sep !in parts[k]
    decreases |s|
  {
    if s == [] then [[]]
    else
      var rest := Split(s[1..], sep);
      if s[0] == sep then [[]] + rest
      else [[s[0]] + rest[0]] + rest[1..]
  }

  /** `sep.join(parts)` */
  function Join(parts: seq<string>, sep: char): string
    requires |parts| >= 1
  {
    if |parts| == 1 then parts[0]
    else parts[0] + [sep] + Join(parts[1..], sep)
  }

  /** Splitting a string undoes joining parts that do not contain the separator. */
  lemma {:induction false} SplitJoin(parts: seq<string>, sep: char)
    requires |parts| >= 1
    requires forall k :: 0 <= k < |parts| ==> sep !in parts[k]
    ensures Split(Join(parts, sep), sep) == parts
    decreases |parts|, |parts[0]|
  {
    if |parts| == 1 {
      SplitNoSep(parts[0], sep);
    } else if parts[0] == [] {
      var s := Join(parts, sep);
      assert s == [sep] + Join(parts[1..], sep);
      assert s[1..] == Join(parts[1..], sep);
      SplitJoin(parts[1..], sep);
      assert Split(s, sep) == [[]] + parts[1..];
    } else {
      var s := Join(parts, sep);
      var tail := [parts[0][1..]] + parts[1..];
      assert tail[1..] == parts[1..];
      assert Join(tail, sep) == parts[0][1..] + [sep] + Join(parts[1..], sep);
      assert s == [parts[0][0]] + Join(tail, sep);
      assert s[1..] == Join(tail, sep);
      assert parts[0][0] != sep by { assert parts[0][0] in parts[0]; }
      SplitJoin(tail, sep);
      assert [parts[0][0]] + parts[0][1..] == parts[0];
    }
  }

  lemma {:induction false} SplitNoSep(s: string, sep: char)
    requires sep !in s
    ensures Split(s, sep) == [s]
    decreases |s|
  {
    if s != [] {
      SplitNoSep(s[1..], sep);
      assert [s[0]] + s[1..] == s;
    }
  }
}
