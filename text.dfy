/**
 * The string operations the app borrows from Python: `str.lower`,
 * `str.capitalize`, `", ".join`, `str(int)`, and `sorted` on a set of
 * strings, which orders strings by comparing code points one at a time.
 * Case mapping is modelled for ASCII letters only.
 */
module Text {

  function LowerChar(c: char): char {
    if 'A' <= c <= 'Z' then (c as int + 32) as char else c
  }

  function UpperChar(c: char): char {
    if 'a' <= c <= 'z' then (c as int - 32) as char else c
  }

  /** Python `s.lower()`: each upper-case letter becomes its lower-case letter, nothing else changes. */
  function Lower(s: string): (r: string)
    ensures |r| == |s|
    ensures forall i :: 0 <= i < |s| ==> !('A' <= r[i] <= 'Z')
    ensures forall i :: 0 <= i < |s| && !('A' <= s[i] <= 'Z') ==> r[i] == s[i]
    ensures forall i :: 0 <= i < |s| && 'A' <= s[i] <= 'Z' ==> r[i] as int == s[i] as int + 32
  {
    seq(|s|, i requires 0 <= i < |s| => LowerChar(s[i]))
  }

  /** Python `s.capitalize()`: the first character upper-cased, the rest lower-cased. */
  function Capitalize(s: string): (r: string)
    ensures |r| == |s|
    ensures s != [] ==> r[0] == UpperChar(s[0]) && r[1..] == Lower(s[1..])
  {
    if s == [] then [] else [UpperChar(s[0])] + Lower(s[1..])
  }

  /** Python `sep.join(xs)` */
  function Join(xs: seq<string>, sep: string): (r: string)
    ensures xs == [] ==> r == ""
    ensures xs != [] ==> xs[0] <= r
    ensures |xs| > 1 ==> xs[0] + sep <= r
    ensures xs != [] ==> |xs[|xs| - 1]| <= |r| && r[|r| - |xs[|xs| - 1]|..] == xs[|xs| - 1]
  {
    if xs == [] then ""
    else if |xs| == 1 then xs[0]
    else xs[0] + sep + Join(xs[1..], sep)
  }

  function Digit(d: nat): (c: char)
    requires d < 10
    ensures c as int == '0' as int + d
  {
    "0123456789"[d]
  }

  /** The number a string of decimal digits denotes (reading `int(s)` for digit strings). */
  function DecimalValue(s: string): nat
    requires forall i :: 0 <= i < |s| ==> '0' <= s[i] <= '9'
  {
    if s == [] then 0 else DecimalValue(s[..|s| - 1]) * 10 + (s[|s| - 1] as int - '0' as int)
  }

  /** Python `str(n)` for a non-negative integer */
  function NatToDecimal(n: nat): (r: string)
    ensures |r| > 0
    ensures forall i :: 0 <= i < |r| ==> '0' <= r[i] <= '9'
  {
    if n < 10 then [Digit(n)] else NatToDecimal(n / 10) + [Digit(n % 10)]
  }

  /** Printing a number in decimal and reading the digits back gives the number. */
  lemma {:induction false} NatToDecimalRoundTrip(n: nat)
    ensures DecimalValue(NatToDecimal(n)) == n
  {
    var r := NatToDecimal(n);
    if n < 10 {
      assert r[..0] == [];
    } else {
      NatToDecimalRoundTrip(n / 10);
      assert r[..|r| - 1] == NatToDecimal(n / 10);
    }
  }

  /** Python `str(n)` */
  function IntToDecimal(n: int): (r: string)
    ensures |r| > 0
    ensures n < 0 ==> r[0] == '-' && forall i :: 1 <= i < |r| ==> '0' <= r[i] <= '9'
    ensures n >= 0 ==> forall i :: 0 <= i < |r| ==> '0' <= r[i] <= '9'
    ensures n < 0 ==> DecimalValue(r[1..]) == -n
    ensures n >= 0 ==> DecimalValue(r) == n
  {
    NatToDecimalRoundTrip(if n < 0 then -n else n);
    assert n < 0 ==> ("-" + NatToDecimal(-n))[1..] == NatToDecimal(-n);
    if n < 0 then "-" + NatToDecimal(-n) else NatToDecimal(n)
  }

  /** Python's `a < b` on strings: lexicographic by code point, a proper prefix first. */
  predicate Less(a: string, b: string) {
    if a == [] then b != []
    else if b == [] then false
    else a[0] < b[0] || (a[0] == b[0] && Less(a[1..], b[1..]))
  }

  lemma {:induction false} LessIrreflexive(a: string)
    ensures !Less(a, a)
  {
    if a != [] {
      LessIrreflexive(a[1..]);
    }
  }

  lemma {:induction false} LessTransitive(a: string, b: string, c: string)
    requires Less(a, b) && Less(b, c)
    ensures Less(a, c)
  {
    if a != [] && a[0] == b[0] && b[0] == c[0] {
      LessTransitive(a[1..], b[1..], c[1..]);
    }
  }

  lemma {:induction false} LessTotal(a: string, b: string)
    ensures Less(a, b) || a == b || Less(b, a)
  {
    if a != [] && b != [] && a[0] == b[0] {
      LessTotal(a[1..], b[1..]);
      if a[1..] == b[1..] {
        assert a == [a[0]] + a[1..] && b == [b[0]] + b[1..];
      }
    }
  }

  lemma LessAsymmetric(a: string, b: string)
    requires Less(a, b)
    ensures !Less(b, a)
  {
    if Less(b, a) {
      LessTransitive(a, b, a);
      LessIrreflexive(a);
    }
  }

  /** `a <= b` and `b <= c` give `a <= c`, written with `Less` alone. */
  lemma NotLessTransitive(a: string, b: string, c: string)
    requires !Less(b, a) && !Less(c, b)
    ensures !Less(c, a)
  {
    LessTotal(a, b);
    LessTotal(b, c);
    if Less(c, a) {
      if Less(a, b) {
        LessTransitive(c, a, b);
      }
      LessAsymmetric(c, b);
    }
  }

  predicate StrictlyAscending(xs: seq<string>) {
    forall i, j :: 0 <= i < j < |xs| ==> Less(xs[i], xs[j])
  }

  /** `xs` is `sorted(list(s))`: every member of `s` once, in ascending order. */
  ghost predicate SortedListing(xs: seq<string>, s: set<string>) {
    StrictlyAscending(xs) && forall x :: x in xs <==> x in s
  }

  /** Places `x` into an ascending sequence that lacks it. */
  function Insert(x: string, xs: seq<string>): (r: seq<string>)
    requires StrictlyAscending(xs) && x !in xs
    ensures StrictlyAscending(r)
    ensures forall y :: y in r <==> y == x || y in xs
  {
    if xs == [] then [x]
    else if Less(x, xs[0]) then
      assert forall j :: 0 < j < |xs| ==> Less(x, xs[j]) by {
        forall j | 0 < j < |xs| { LessTransitive(x, xs[0], xs[j]); }
      }
      [x] + xs
    else
      LessTotal(x, xs[0]);
      var rest := Insert(x, xs[1..]);
      assert forall y :: y in rest ==> Less(xs[0], y);
      [xs[0]] + rest
  }

  /** A set has a least element under the string order. */
  lemma {:induction false} LeastExists(s: set<string>)
    requires s != {}
    ensures exists m :: m in s && forall y :: y in s && y != m ==> Less(m, y)
    decreases |s|
  {
    var x :| x in s;
    if s == {x} {
      assert forall y :: y in s && y != x ==> Less(x, y);
    } else {
      LeastExists(s - {x});
      var m :| m in s - {x} && forall y :: y in s - {x} && y != m ==> Less(m, y);
      LessTotal(m, x);
      if Less(m, x) {
        assert m in s && forall y :: y in s && y != m ==> Less(m, y);
      } else {
        forall y | y in s && y != x
          ensures Less(x, y)
        {
          if y != m { LessTransitive(x, m, y); }
        }
        assert x in s && forall y :: y in s && y != x ==> Less(x, y);
      }
    }
  }

  /** The least member of a non-empty set. */
  ghost function Least(s: set<string>): (m: string)
    requires s != {}
    ensures m in s && forall y :: y in s && y != m ==> Less(m, y)
  {
    LeastExists(s);
    var m :| m in s && forall y :: y in s && y != m ==> Less(m, y);
    m
  }

  /** `sorted(list(s))`, defined by taking the least member first. */
  ghost function SortedOf(s: set<string>): seq<string>
    decreases |s|
  {
    if s == {} then [] else [Least(s)] + SortedOf(s - {Least(s)})
  }

  lemma {:induction false} SortedOfIsListing(s: set<string>)
    ensures SortedListing(SortedOf(s), s)
    decreases |s|
  {
    if s != {} {
      var m := Least(s);
      var rest := SortedOf(s - {m});
      SortedOfIsListing(s - {m});
      assert SortedOf(s) == [m] + rest;
      forall j | 0 <= j < |rest|
        ensures Less(m, rest[j])
      {
        assert rest[j] in s - {m};
      }
    }
  }

  /** At most one sequence lists a set in ascending order. */
  lemma {:induction false} ListingUnique(xs: seq<string>, ys: seq<string>, s: set<string>)
    requires SortedListing(xs, s) && SortedListing(ys, s)
    ensures xs == ys
    decreases |xs|
  {
    assert xs != [] ==> xs[0] in s;
    assert ys != [] ==> ys[0] in s;
    if xs != [] {
      if xs[0] != ys[0] {
        assert xs[0] in ys && ys[0] in xs;
        var k :| 0 <= k < |ys| && ys[k] == xs[0];
        var m :| 0 <= m < |xs| && xs[m] == ys[0];
        assert Less(ys[0], xs[0]) && Less(xs[0], ys[0]);
        LessAsymmetric(ys[0], xs[0]);
      }
      var t := s - {xs[0]};
      forall x ensures x in xs[1..] <==> x in t {
        if x in xs[1..] {
          var i :| 1 <= i < |xs| && xs[i] == x;
          LessIrreflexive(x);
        }
      }
      forall x ensures x in ys[1..] <==> x in t {
        if x in ys[1..] {
          var i :| 1 <= i < |ys| && ys[i] == x;
          LessIrreflexive(x);
        }
      }
      ListingUnique(xs[1..], ys[1..], t);
    }
  }

  /** `sorted(list(s))` computed by inserting the members one by one. */
  method SortSet(s: set<string>) returns (r: seq<string>)
    ensures SortedListing(r, s)
    ensures r == SortedOf(s)
  {
    r := [];
    var rest := s;
    while rest != {}
      invariant rest <= s
      invariant StrictlyAscending(r)
      invariant forall x :: x in r <==> x in s && x !in rest
      decreases |rest|
    {
      var x :| x in rest;
      r := Insert(x, r);
      rest := rest - {x};
    }
    SortedOfIsListing(s);
    ListingUnique(r, SortedOf(s), s);
  }
}
