/** Separator-joined names, decimal numerals and the code-point order of Python strings. */
module Text {
  import opened Sorting

  // ---------------------------------------------------------------- order

  /** Lexicographic order by code point. */
  predicate StringLe(a: string, b: string) {
    if a == [] then true
    else if b == [] then false
    else if a[0] != b[0] then a[0] < b[0]
    else StringLe(a[1..], b[1..])
  }

  lemma {:induction false} StringLeTotal(a: string, b: string)
    ensures StringLe(a, b) || StringLe(b, a)
    ensures StringLe(a, b) && StringLe(b, a) ==> a == b
  {
    if a != [] && b != [] && a[0] == b[0] {
      StringLeTotal(a[1..], b[1..]);
      assert a == [a[0]] + a[1..] && b == [b[0]] + b[1..];
    }
  }

  lemma {:induction false} StringLeTransitive(a: string, b: string, c: string)
    requires StringLe(a, b) && StringLe(b, c)
    ensures StringLe(a, c)
  {
    if a != [] && b != [] && c != [] && a[0] == b[0] == c[0] {
      StringLeTransitive(a[1..], b[1..], c[1..]);
    }
  }

  lemma StringOrder()
    ensures Total(StringLe)
    ensures forall s: seq<string> :: Separates(s, StringLe)
  {
    forall x: string, y: string
      ensures StringLe(x, y) || StringLe(y, x)
      ensures StringLe(x, y) && StringLe(y, x) ==> x == y
    {
      StringLeTotal(x, y);
    }
    forall x: string, y: string, z: string | StringLe(x, y) && StringLe(y, z)
      ensures StringLe(x, z)
    {
      StringLeTransitive(x, y, z);
    }
  }

  function SortStrings(s: seq<string>): (r: seq<string>)
    ensures Sorted(r, StringLe) && multiset(r) == multiset(s)
    ensures |r| == |s| && forall x :: x in r <==> x in s
  {
    StringOrder();
    Sort(s, StringLe)
  }

  /** `sorted(a) == sorted(b)` exactly when the two listings hold the same strings, as often. */
  lemma SortStringsCanonical(a: seq<string>, b: seq<string>)
    ensures SortStrings(a) == SortStrings(b) <==> multiset(a) == multiset(b)
  {
    var s, t := SortStrings(a), SortStrings(b);
    if multiset(a) == multiset(b) {
      assert Separates(s, StringLe) by { StringOrder(); }
      SortedUnique(s, t, StringLe);
    }
  }

  // ---------------------------------------------------------------- joined names

  predicate Free(s: string, sep: char) {
    sep !in s
  }

  function Join(parts: seq<string>, sep: char): string {
    if parts == [] then ""
    else if |parts| == 1 then parts[0]
    else parts[0] + [sep] + Join(parts[1..], sep)
  }

  lemma {:induction false} Peel(a: string, r: string, b: string, s: string, sep: char)
    requires Free(a, sep) && Free(b, sep)
    requires a + [sep] + r == b + [sep] + s
    ensures a == b && r == s
  {
    var t := a + [sep] + r;
    assert t[|a|] == sep && t[|b|] == sep;
    assert forall i :: 0 <= i < |a| ==> t[i] == a[i] && a[i] in a;
    assert forall i :: 0 <= i < |b| ==> t[i] == b[i] && b[i] in b;
    assert |a| == |b|;
    assert a == t[..|a|] && b == t[..|b|];
    assert r == t[|a| + 1..] && s == t[|b| + 1..];
  }

  /** Joining is injective on non-empty lists of separator-free parts, whatever their lengths. */
  lemma {:induction false} JoinInjective(p: seq<string>, q: seq<string>, sep: char)
    requires p != [] && q != []
    requires forall x :: x in p ==> Free(x, sep)
    requires forall x :: x in q ==> Free(x, sep)
    requires Join(p, sep) == Join(q, sep)
    ensures p == q
    decreases |p|
  {
    assert |p| > 1 ==> Join(p, sep)[|p[0]|] == sep;
    assert |q| > 1 ==> Join(q, sep)[|q[0]|] == sep;
    assert |p| == 1 ==> Join(p, sep) == p[0] && Free(p[0], sep);
    assert |q| == 1 ==> Join(q, sep) == q[0] && Free(q[0], sep);
    assert |p| == 1 <==> |q| == 1;
    if |p| > 1 {
      Peel(p[0], Join(p[1..], sep), q[0], Join(q[1..], sep), sep);
      JoinInjective(p[1..], q[1..], sep);
      assert p == [p[0]] + p[1..] && q == [q[0]] + q[1..];
    }
  }

  lemma {:induction false} JoinCommonPrefix(prefix: seq<string>, p: seq<string>, q: seq<string>, sep: char)
    requires p != [] && q != []
    ensures Join(prefix + p, sep) == Join(prefix + q, sep) <==> Join(p, sep) == Join(q, sep)
  {
    if prefix == [] {
      assert prefix + p == p && prefix + q == q;
    } else {
      var rest := prefix[1..];
      JoinCommonPrefix(rest, p, q, sep);
      assert (prefix + p)[1..] == rest + p && (prefix + q)[1..] == rest + q;
      var head := prefix[0] + [sep];
      assert Join(prefix + p, sep) == head + Join(rest + p, sep);
      assert Join(prefix + q, sep) == head + Join(rest + q, sep);
      assert (head + Join(rest + p, sep))[|head|..] == Join(rest + p, sep);
      assert (head + Join(rest + q, sep))[|head|..] == Join(rest + q, sep);
    }
  }

  lemma {:induction false} JoinFree(parts: seq<string>, sep: char, other: char)
    requires sep != other
    requires forall x :: x in parts ==> Free(x, other)
    ensures Free(Join(parts, sep), other)
  {
    if |parts| > 1 {
      JoinFree(parts[1..], sep, other);
      assert Join(parts, sep) == parts[0] + [sep] + Join(parts[1..], sep);
      assert parts[0] in parts;
    } else if |parts| == 1 {
      assert parts[0] in parts;
    }
  }

  lemma JoinNonEmpty(parts: seq<string>, sep: char)
    requires parts != [] && forall x :: x in parts ==> x != ""
    ensures Join(parts, sep) != ""
  {
    assert parts[0] in parts;
  }

  // ---------------------------------------------------------------- numerals

  const DIGITS := "0123456789"

  function NatText(n: nat): (t: string)
    ensures t != "" && forall c :: c in t ==> '0' <= c <= '9'
  {
    if n < 10 then [DIGITS[n]] else NatText(n / 10) + [DIGITS[n % 10]]
  }

  lemma {:induction false} NatTextInjective(m: nat, n: nat)
    requires NatText(m) == NatText(n)
    ensures m == n
  {
    var s, t := NatText(m), NatText(n);
    assert s[|s| - 1] == DIGITS[m % 10] && t[|t| - 1] == DIGITS[n % 10];
    assert m % 10 == n % 10;
    assert (m >= 10 <==> |s| > 1) && (n >= 10 <==> |t| > 1);
    if m >= 10 {
      assert s[..|s| - 1] == NatText(m / 10) && t[..|t| - 1] == NatText(n / 10);
      NatTextInjective(m / 10, n / 10);
    }
  }

  function IntText(n: int): (t: string)
    ensures forall c :: c in t ==> c == '-' || '0' <= c <= '9'
  {
    if n < 0 then "-" + NatText(-n) else NatText(n)
  }

  lemma IntTextInjective(m: int, n: int)
    requires IntText(m) == IntText(n)
    ensures m == n
  {
    assert m < 0 <==> IntText(m)[0] == '-' by { assert m >= 0 ==> IntText(m)[0] in NatText(m); }
    assert n < 0 <==> IntText(n)[0] == '-' by { assert n >= 0 ==> IntText(n)[0] in NatText(n); }
    if m < 0 {
      assert IntText(m)[1..] == NatText(-m) && IntText(n)[1..] == NatText(-n);
      NatTextInjective(-m, -n);
    } else {
      NatTextInjective(m, n);
    }
  }
}
