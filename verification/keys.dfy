/** Primary keys in the orders the handlers ask the database for:
    `ORDER BY id` and `ORDER BY id DESC`. */
module Keys {

  predicate StrictlyDescending(s: seq<int>) {
    forall i, j :: 0 <= i < j < |s| ==> s[i] > s[j]
  }

  predicate StrictlyAscending(s: seq<int>) {
    forall i, j :: 0 <= i < j < |s| ==> s[i] < s[j]
  }

  lemma MaxExists(ks: set<int>)
    requires ks != {}
    ensures exists m :: m in ks && forall k :: k in ks ==> k <= m
  {
    var m := MaxOf(ks);
  }

  lemma {:induction false} MaxOf(ks: set<int>) returns (m: int)
    requires ks != {}
    ensures m in ks && forall k :: k in ks ==> k <= m
    decreases |ks|
  {
    HasKey(ks);
    var x :| x in ks;
    if ks == {x} {
      m := x;
    } else {
      var rest := ks - {x};
      var r := MaxOf(rest);
      m := if x > r then x else r;
      forall k | k in ks
        ensures k <= m
      {
        if k != x {
          assert k in rest;
        }
      }
    }
  }

  lemma HasKey(ks: set<int>)
    requires ks != {}
    ensures exists x :: x in ks
  {
    if forall x :: x !in ks {
      assert false;
    }
  }

  /** The largest key of a non-empty set. */
  function MaxKey(ks: set<int>): (m: int)
    requires ks != {}
    ensures m in ks && forall k :: k in ks ==> k <= m
  {
    MaxExists(ks);
    var m :| m in ks && forall k :: k in ks ==> k <= m;
    m
  }

  /** Every key once, largest first. */
  function Descending(ks: set<int>): (r: seq<int>)
    ensures |r| == |ks|
    ensures forall k :: k in r <==> k in ks
    ensures StrictlyDescending(r)
    decreases |ks|
  {
    if ks == {} then []
    else
      var m := MaxKey(ks);
      var rest := Descending(ks - {m});
      PrependMax(m, rest, ks);
      [m] + rest
  }

  lemma PrependMax(m: int, rest: seq<int>, ks: set<int>)
    requires m in ks && forall k :: k in ks ==> k <= m
    requires forall k :: k in rest <==> k in ks - {m}
    requires StrictlyDescending(rest)
    ensures forall k :: k in [m] + rest <==> k in ks
    ensures StrictlyDescending([m] + rest)
  {
    var r := [m] + rest;
    forall i, j | 0 <= i < j < |r|
      ensures r[i] > r[j]
    {
      assert r[j] == rest[j - 1];
      assert rest[j - 1] in rest;
      if i > 0 {
        assert r[i] == rest[i - 1];
      }
    }
  }

  function Reverse(s: seq<int>): (r: seq<int>)
    ensures |r| == |s|
    ensures forall i :: 0 <= i < |s| ==> r[i] == s[|s| - 1 - i]
  {
    if s == [] then [] else Reverse(s[1..]) + [s[0]]
  }

  lemma ReverseMembers(s: seq<int>)
    ensures forall k :: k in Reverse(s) <==> k in s
  {
    var r := Reverse(s);
    forall k | k in s
      ensures k in r
    {
      var i :| 0 <= i < |s| && s[i] == k;
      assert r[|s| - 1 - i] == k;
    }
  }

  lemma ReverseAscends(s: seq<int>)
    requires StrictlyDescending(s)
    ensures StrictlyAscending(Reverse(s))
  {
    var r := Reverse(s);
    forall i, j | 0 <= i < j < |r|
      ensures r[i] < r[j]
    {
      assert r[i] == s[|s| - 1 - i] && r[j] == s[|s| - 1 - j];
    }
  }

  /** Every key once, smallest first. */
  function Ascending(ks: set<int>): (r: seq<int>)
    ensures |r| == |ks|
    ensures forall k :: k in r <==> k in ks
    ensures StrictlyAscending(r)
  {
    ReverseMembers(Descending(ks));
    ReverseAscends(Descending(ks));
    Reverse(Descending(ks))
  }
}
