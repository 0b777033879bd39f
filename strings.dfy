/** Text helpers with Python's meaning: str(int), ASCII str.upper and os.path.join (POSIX). */
module Strings {

  predicate IsDigit(c: char) {
    '0' <= c <= '9'
  }

  predicate AllDigits(s: string) {
    forall i :: 0 <= i < |s| ==> IsDigit(s[i])
  }

  function Digit(d: nat): (c: char)
    requires d < 10
    ensures IsDigit(c) && c as int - '0' as int == d
  {
    ('0' as int + d) as char
  }

  /** Decimal digits of n, most significant first, without leading zeros. */
  function NatToString(n: nat): (s: string)
    ensures |s| > 0 && AllDigits(s)
  {
    if n < 10 then [Digit(n)] else NatToString(n / 10) + [Digit(n % 10)]
  }

  /** The number a string of decimal digits denotes. */
  function DigitsValue(s: string): nat
    requires AllDigits(s)
  {
    if s == [] then 0 else DigitsValue(s[..|s| - 1]) * 10 + (s[|s| - 1] as int - '0' as int)
  }

  lemma {:induction false} DigitsRoundTrip(n: nat)
    ensures DigitsValue(NatToString(n)) == n
  {
    if n >= 10 {
      var s := NatToString(n);
      assert s[..|s| - 1] == NatToString(n / 10);
      DigitsRoundTrip(n / 10);
    }
  }

  /** Different numbers print differently. */
  lemma NatToStringInjective(m: nat, n: nat)
    requires NatToString(m) == NatToString(n)
    ensures m == n
  {
    DigitsRoundTrip(m);
    DigitsRoundTrip(n);
  }

  /** Python's str(z) for an int. */
  function IntToString(z: int): (s: string)
    ensures |s| > 0
  {
    if z < 0 then "-" + NatToString(-z) else NatToString(z)
  }

  function UpperChar(c: char): char {
    if 'a' <= c <= 'z' then (c as int - 32) as char else c
  }

  /** str.upper restricted to ASCII letters. */
  function Upper(s: string): (r: string)
    ensures |r| == |s|
  {
    seq(|s|, i requires 0 <= i < |s| => UpperChar(s[i]))
  }

  /** posixpath.join(a, b): b replaces a when absolute, otherwise one '/' separates them. */
  function JoinPath(a: string, b: string): (p: string)
    ensures |p| >= |b| && p[|p| - |b|..] == b
  {
    if |b| > 0 && b[0] == '/' then b
    else if a == [] || a[|a| - 1] == '/' then a + b
    else a + "/" + b
  }

  /** Joining onto the same directory keeps names that start alike apart. */
  lemma JoinPathInjective(a: string, b1: string, b2: string)
    requires |b1| > 0 && |b2| > 0 && b1[0] == b2[0]
    requires JoinPath(a, b1) == JoinPath(a, b2)
    ensures b1 == b2
  {
    var p := JoinPath(a, b1);
    assert p[|p| - |b1|..] == b1 && p[|p| - |b2|..] == b2;
    if b1[0] != '/' {
      var pre := if a == [] || a[|a| - 1] == '/' then a else a + "/";
      assert p == pre + b1 && p == pre + b2;
    }
  }

  /** str(z) starts with '-' exactly for negative z. */
  lemma IntToStringSign(z: int)
    ensures IntToString(z)[0] == '-' <==> z < 0
  {
    if z >= 0 {
      assert IsDigit(NatToString(z)[0]);
    }
  }

  /** Different integers print differently. */
  lemma IntToStringInjective(a: int, b: int)
    requires IntToString(a) == IntToString(b)
    ensures a == b
  {
    IntToStringSign(a);
    IntToStringSign(b);
    if a < 0 {
      var s := IntToString(a);
      assert s[1..] == NatToString(-a) && s[1..] == NatToString(-b);
      NatToStringInjective(-a, -b);
    } else {
      NatToStringInjective(a, b);
    }
  }

  /** The characters of s that satisfy keep, in order: re.sub of a negated character class with "". */
  function Keep(s: string, keep: char -> bool): (r: string)
    ensures |r| <= |s|
    ensures forall i :: 0 <= i < |r| ==> keep(r[i])
  {
    if s == [] then [] else (if keep(s[0]) then [s[0]] else []) + Keep(s[1..], keep)
  }

  /** Keep works character by character: it distributes over concatenation. */
  lemma {:induction false} KeepConcat(a: string, b: string, keep: char -> bool)
    ensures Keep(a + b, keep) == Keep(a, keep) + Keep(b, keep)
  {
    if a != [] {
      assert (a + b)[0] == a[0] && (a + b)[1..] == a[1..] + b;
      KeepConcat(a[1..], b, keep);
      var h := if keep(a[0]) then [a[0]] else [];
      assert Keep(a + b, keep) == h + Keep(a[1..] + b, keep);
      assert Keep(a, keep) == h + Keep(a[1..], keep);
      assert h + (Keep(a[1..], keep) + Keep(b, keep)) == (h + Keep(a[1..], keep)) + Keep(b, keep);
    } else {
      assert a + b == b;
    }
  }

  /** Keep returns its input exactly when every character is kept. */
  lemma {:induction false} KeepUnchanged(s: string, keep: char -> bool)
    ensures Keep(s, keep) == s <==> forall i :: 0 <= i < |s| ==> keep(s[i])
  {
    if s != [] {
      KeepUnchanged(s[1..], keep);
      if !keep(s[0]) {
        assert |Keep(s[1..], keep)| <= |s| - 1;
      }
      if forall i :: 0 <= i < |s| ==> keep(s[i]) {
        assert forall i :: 0 <= i < |s[1..]| ==> keep(s[1..][i]);
      }
      if keep(s[0]) && Keep(s, keep) == s {
        assert Keep(s[1..], keep) == s[1..];
      }
    }
  }

  lemma KeepIdempotent(s: string, keep: char -> bool)
    ensures Keep(Keep(s, keep), keep) == Keep(s, keep)
  {
    KeepUnchanged(Keep(s, keep), keep);
  }
}
