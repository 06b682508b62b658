/** Strings compared the way Rust compares `str`, and sorting by that order. */
module Text {

  predicate TextLess(a: string, b: string) {
    if b == [] then false
    else if a == [] then true
    else a[0] < b[0] || (a[0] == b[0] && TextLess(a[1..], b[1..]))
  }

  predicate TextAtMost(a: string, b: string) {
    a == b || TextLess(a, b)
  }

  lemma {:induction false} TextLessIsTransitive(a: string, b: string, c: string)
    requires TextLess(a, b) && TextLess(b, c)
    ensures TextLess(a, c)
  {
    if a != [] && a[0] == b[0] && b[0] == c[0] {
      TextLessIsTransitive(a[1..], b[1..], c[1..]);
    }
  }

  lemma {:induction false} TextLessIsTotal(a: string, b: string)
    ensures TextLess(a, b) || TextLess(b, a) || a == b
    ensures !(TextLess(a, b) && TextLess(b, a))
    ensures !TextLess(a, a)
  {
    if a != [] && b != [] && a[0] == b[0] {
      TextLessIsTotal(a[1..], b[1..]);
      assert a == [a[0]] + a[1..] && b == [b[0]] + b[1..];
    }
    if a != [] { TextLessIsTotal(a[1..], a[1..]); }
  }

  /** Dictionary order: at the first difference `a` ends or has the smaller character. */
  ghost predicate ComesBefore(a: string, b: string) {
    exists k :: DiffersAt(a, b, k)
  }

  predicate DiffersAt(a: string, b: string, k: int) {
    0 <= k <= |a| && k < |b| && a[..k] == b[..k] && (k == |a| || a[k] < b[k])
  }

  lemma StartsAgree(a: string, b: string, k: int)
    requires DiffersAt(a, b, k)
    ensures k > 0 ==> a != [] && b != [] && a[0] == b[0]
  {
    if k > 0 { assert a[..k][0] == a[0] && b[..k][0] == b[0]; }
  }

  lemma {:induction false} TextLessIsDictionaryOrder(a: string, b: string)
    ensures TextLess(a, b) <==> ComesBefore(a, b)
  {
    if a == [] || b == [] || a[0] != b[0] {
      assert (a == [] && b != []) || (a != [] && b != [] && a[0] < b[0]) ==> DiffersAt(a, b, 0);
      if k :| DiffersAt(a, b, k) { StartsAgree(a, b, k); }
    } else {
      TextLessIsDictionaryOrder(a[1..], b[1..]);
      if k :| DiffersAt(a[1..], b[1..], k) {
        assert a[..k + 1] == [a[0]] + a[1..][..k] && b[..k + 1] == [b[0]] + b[1..][..k];
        assert DiffersAt(a, b, k + 1);
      }
      if k :| DiffersAt(a, b, k) {
        assert k > 0;
        assert a[..k][1..] == a[1..][..k - 1] && b[..k][1..] == b[1..][..k - 1];
        assert DiffersAt(a[1..], b[1..], k - 1);
      }
    }
  }

  predicate Distinct(s: seq<string>) {
    forall i, j :: 0 <= i < j < |s| ==> s[i] != s[j]
  }

  function SetOf(s: seq<string>): set<string> {
    set x | x in s
  }

  predicate Ascending(s: seq<string>) {
    forall i, j :: 0 <= i < j < |s| ==> TextLess(s[i], s[j])
  }

  ghost predicate IsLeast(m: string, s: set<string>) {
    m in s && forall x :: x in s && x != m ==> TextLess(m, x)
  }

  lemma {:induction false} LeastComesFirst(m: string, rest: seq<string>, s: set<string>)
    requires IsLeast(m, s) && Ascending(rest) && forall x :: x in rest <==> x in s - {m}
    ensures Ascending([m] + rest)
    ensures forall x :: x in [m] + rest <==> x in s
  {
    forall i | 0 <= i < |rest| ensures TextLess(m, rest[i]) {
      assert rest[i] in rest;
      assert rest[i] in s - {m};
    }
    forall x ensures x in [m] + rest <==> x in s {
      assert x in [m] + rest <==> x == m || x in rest;
    }
  }

  /** The set's members, smallest first. */
  ghost function InOrder(s: set<string>): (r: seq<string>)
    ensures Ascending(r)
    ensures forall x :: x in r <==> x in s
    decreases |s|
  {
    if s == {} then []
    else
      var m := Least(s);
      var rest := InOrder(s - {m});
      LeastComesFirst(m, rest, s);
      [m] + rest
  }

  ghost function Least(s: set<string>): (m: string)
    requires s != {}
    ensures IsLeast(m, s)
  {
    LeastExists(s);
    var m :| IsLeast(m, s);
    m
  }

  lemma {:induction false} SmallerIsLeast(y: string, n: string, s: set<string>)
    requires y in s && IsLeast(n, s - {y})
    ensures IsLeast(if TextLess(y, n) then y else n, s)
  {
    TextLessIsTotal(y, n);
    if TextLess(y, n) {
      forall x | x in s && x != y ensures TextLess(y, x) {
        if x != n { TextLessIsTransitive(y, n, x); }
      }
    }
  }

  lemma {:induction false} LeastExists(s: set<string>)
    requires s != {}
    ensures exists m :: IsLeast(m, s)
    decreases |s|
  {
    var y :| y in s;
    if s == {y} {
      assert IsLeast(y, s);
    } else {
      LeastExists(s - {y});
      var n :| IsLeast(n, s - {y});
      SmallerIsLeast(y, n, s);
    }
  }

  lemma FirstIsLeast(s: seq<string>, x: string)
    requires Ascending(s) && x in s
    ensures TextAtMost(s[0], x)
  {
    var k :| 0 <= k < |s| && s[k] == x;
  }

  /** There is only one ascending arrangement of a set. */
  lemma {:induction false} AscendingIsUnique(s: seq<string>, t: seq<string>)
    requires Ascending(s) && Ascending(t)
    requires forall x :: x in s <==> x in t
    ensures s == t
    decreases |s|
  {
    if s != [] || t != [] {
      var first := if s != [] then s[0] else t[0];
      assert first in s && first in t;
      assert s[0] in s && t[0] in t;
      FirstIsLeast(t, s[0]);
      FirstIsLeast(s, t[0]);
      TextLessIsTotal(s[0], t[0]);
      assert s[0] == t[0];
      forall x ensures x in s[1..] <==> x in t[1..] {
        TextLessIsTotal(x, x);
        assert x in s <==> x == s[0] || x in s[1..];
        assert x in t <==> x == t[0] || x in t[1..];
      }
      AscendingIsUnique(s[1..], t[1..]);
    }
  }

  /** Insertion into an ascending sequence. */
  method InsertSorted(s: seq<string>, x: string) returns (r: seq<string>)
    requires Ascending(s) && x !in s
    ensures Ascending(r)
    ensures forall y :: y in r <==> y == x || y in s
  {
    var i := 0;
    while i < |s| && TextLess(s[i], x)
      invariant i <= |s|
      invariant forall k :: 0 <= k < i ==> TextLess(s[k], x)
    {
      i := i + 1;
    }
    r := s[..i] + [x] + s[i..];
    if i < |s| {
      TextLessIsTotal(s[i], x);
      forall k | i <= k < |s| ensures TextLess(x, s[k]) {
        if k > i { TextLessIsTransitive(x, s[i], s[k]); }
      }
    }
    forall y ensures y in r <==> y == x || y in s {
      assert s == s[..i] + s[i..];
    }
  }

  /** Sorts a set, whatever order its members are drawn in. */
  method Sort(s: set<string>) returns (r: seq<string>)
    ensures r == InOrder(s)
  {
    r := [];
    var rest := s;
    while rest != {}
      invariant rest <= s && Ascending(r)
      invariant forall x :: x in r <==> x in s - rest
      decreases rest
    {
      var x :| x in rest;
      r := InsertSorted(r, x);
      rest := rest - {x};
    }
    AscendingIsUnique(r, InOrder(s));
  }
}
