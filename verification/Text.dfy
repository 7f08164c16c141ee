/** Outcomes that the Python code signals with exceptions or with None. */
module Outcomes {
  datatype Option<+T> = None | Some(value: T)

  datatype Result<+T, +E> = Success(value: T) | Failure(error: E)
}

/** The few string operations the program relies on: decimal numerals, `split`, `join`,
    `strip` and the code-point order used by `sort`. */
module Text {

  // ----- decimal numerals -----

  predicate IsDigit(c: char) {
    '0' <= c <= '9'
  }

  /** The regular expression \d+ over ASCII digits. */
  predicate IsNumeral(s: string) {
    |s| > 0 && forall i :: 0 <= i < |s| ==> IsDigit(s[i])
  }

  function DigitChar(d: nat): (c: char)
    requires d < 10
    ensures IsDigit(c) && c as int - '0' as int == d
  {
    ('0' as int + d) as char
  }

  /** The decimal numeral of a natural number. */
  function NatToString(n: nat): (s: string)
    ensures IsNumeral(s)
  {
    if n < 10 then [DigitChar(n)] else NatToString(n / 10) + [DigitChar(n % 10)]
  }

  /** The value of a string of ASCII digits; leading zeros are accepted. */
  function StringToNat(s: string): nat
    requires forall i :: 0 <= i < |s| ==> IsDigit(s[i])
  {
    if s == "" then 0
    else
      assert IsDigit(s[|s| - 1]);
      10 * StringToNat(s[..|s| - 1]) + (s[|s| - 1] as int - '0' as int)
  }

  lemma {:induction false} DecimalRoundTrip(n: nat)
    ensures StringToNat(NatToString(n)) == n
  {
    if n < 10 {
      assert NatToString(n)[..0] == "";
    } else {
      var front := NatToString(n / 10);
      assert NatToString(n)[..|front|] == front;
      DecimalRoundTrip(n / 10);
    }
  }

  lemma NatToStringInjective(m: nat, n: nat)
    requires NatToString(m) == NatToString(n)
    ensures m == n
  {
    DecimalRoundTrip(m);
    DecimalRoundTrip(n);
  }

  /** The decimal numeral of a number: its value is the number, and it has no zero in front. */
  predicate IsPlainNumeral(s: string, n: nat) {
    IsNumeral(s) && StringToNat(s) == n && (s[0] == '0' ==> s == "0")
  }

  lemma {:induction false} PlainNumeral(n: nat)
    ensures IsPlainNumeral(NatToString(n), n)
  {
    DecimalRoundTrip(n);
    if n >= 10 {
      var front := NatToString(n / 10);
      PlainNumeral(n / 10);
      assert NatToString(n)[0] == front[0];
      if front == "0" {
        assert front[..0] == "";
      }
    }
  }

  // ----- split and join -----

  predicate Without(s: string, c: char) {
    forall i :: 0 <= i < |s| ==> s[i] != c
  }

  /** The pieces between separators: always at least one. */
  function Split(s: string, sep: char): (pieces: seq<string>)
    ensures |pieces| >= 1
  {
    if s == "" then [""]
    else if s[0] == sep then [""] + Split(s[1..], sep)
    else
      var rest := Split(s[1..], sep);
      [[s[0]] + rest[0]] + rest[1..]
  }

  /** The pieces with separators between them. */
  function Join(pieces: seq<string>, sep: char): string
    requires |pieces| >= 1
  {
    if |pieces| == 1 then pieces[0] else pieces[0] + [sep] + Join(pieces[1..], sep)
  }

  lemma {:induction false} SplitWithout(s: string, sep: char)
    requires Without(s, sep)
    ensures Split(s, sep) == [s]
  {
    if s != "" {
      SplitWithout(s[1..], sep);
      assert [s[0]] + s[1..] == s;
    }
  }

  lemma {:induction false} SplitHead(s: string, sep: char, rest: string)
    requires Without(s, sep)
    ensures Split(s + [sep] + rest, sep) == [s] + Split(rest, sep)
  {
    var t := s + [sep] + rest;
    if s == "" {
      assert t[1..] == rest;
    } else {
      assert t[1..] == s[1..] + [sep] + rest;
      SplitHead(s[1..], sep, rest);
      assert [s[0]] + s[1..] == s;
    }
  }

  /** Splitting undoes joining when no piece contains the separator. */
  lemma {:induction false} SplitJoin(pieces: seq<string>, sep: char)
    requires |pieces| >= 1
    requires forall i :: 0 <= i < |pieces| ==> Without(pieces[i], sep)
    ensures Split(Join(pieces, sep), sep) == pieces
  {
    if |pieces| == 1 {
      SplitWithout(pieces[0], sep);
    } else {
      SplitJoin(pieces[1..], sep);
      SplitHead(pieces[0], sep, Join(pieces[1..], sep));
    }
  }

  /** Joining undoes splitting, and no piece contains the separator. */
  lemma {:induction false} JoinSplit(s: string, sep: char)
    ensures Join(Split(s, sep), sep) == s
    ensures forall i :: 0 <= i < |Split(s, sep)| ==> Without(Split(s, sep)[i], sep)
  {
    if s != "" {
      JoinSplit(s[1..], sep);
      var rest := Split(s[1..], sep);
      if s[0] == sep {
        assert Split(s, sep)[1..] == rest;
      } else {
        assert Split(s, sep)[1..] == rest[1..];
        assert s == [s[0]] + s[1..];
      }
    }
  }

  // ----- strip -----

  /** The characters removed by `str.strip()`. */
  predicate IsSpace(c: char) {
    || '\U{0009}' <= c <= '\U{000D}' || '\U{001C}' <= c <= '\U{0020}'
    || c == '\U{0085}' || c == '\U{00A0}' || c == '\U{1680}'
    || '\U{2000}' <= c <= '\U{200A}' || c == '\U{2028}' || c == '\U{2029}'
    || c == '\U{202F}' || c == '\U{205F}' || c == '\U{3000}'
  }

  function StripLeft(s: string): string {
    if s != "" && IsSpace(s[0]) then StripLeft(s[1..]) else s
  }

  function StripRight(s: string): string {
    if s != "" && IsSpace(s[|s| - 1]) then StripRight(s[..|s| - 1]) else s
  }

  function Strip(s: string): string {
    StripRight(StripLeft(s))
  }

  predicate AllSpace(s: string) {
    forall i :: 0 <= i < |s| ==> IsSpace(s[i])
  }

  /** Stripping removes white space at both ends, and all of it. */
  ghost predicate IsStripped(s: string, r: string) {
    && (exists a, b :: s == a + r + b && AllSpace(a) && AllSpace(b))
    && (r != "" ==> !IsSpace(r[0]) && !IsSpace(r[|r| - 1]))
  }

  lemma StripMeans(s: string)
    ensures IsStripped(s, Strip(s))
  {
    var left := StripLeft(s);
    var a := LeftSpace(s);
    var b := RightSpace(left);
    assert s == a + Strip(s) + b;
  }

  /** There is no other way to strip, unless nothing is left. */
  lemma StripUnique(s: string, r: string)
    requires IsStripped(s, r) && r != ""
    ensures r == Strip(s)
  {
    var a, b :| s == a + r + b && AllSpace(a) && AllSpace(b);
    StripLeftOf(a, r + b);
    assert s == a + (r + b);
    StripRightOf(r, b);
  }

  lemma {:induction false} StripLeftOf(a: string, r: string)
    requires AllSpace(a) && r != "" && !IsSpace(r[0])
    ensures StripLeft(a + r) == r
  {
    if a == "" {
      assert a + r == r;
    } else {
      assert (a + r)[1..] == a[1..] + r;
      StripLeftOf(a[1..], r);
    }
  }

  lemma {:induction false} StripRightOf(r: string, b: string)
    requires AllSpace(b) && r != "" && !IsSpace(r[|r| - 1])
    ensures StripRight(r + b) == r
  {
    if b == "" {
      assert r + b == r;
    } else {
      assert (r + b)[..|r + b| - 1] == r + b[..|b| - 1];
      StripRightOf(r, b[..|b| - 1]);
    }
  }

  lemma {:induction false} LeftSpace(s: string) returns (a: string)
    ensures s == a + StripLeft(s) && AllSpace(a)
    ensures StripLeft(s) != "" ==> !IsSpace(StripLeft(s)[0])
  {
    a := "";
    if s != "" && IsSpace(s[0]) {
      a := LeftSpace(s[1..]);
      a := [s[0]] + a;
    }
  }

  lemma {:induction false} RightSpace(s: string) returns (b: string)
    ensures s == StripRight(s) + b && AllSpace(b)
    ensures StripRight(s) != "" ==> StripRight(s)[0] == s[0] && !IsSpace(StripRight(s)[|StripRight(s)| - 1])
  {
    b := "";
    if s != "" && IsSpace(s[|s| - 1]) {
      b := RightSpace(s[..|s| - 1]);
      b := b + [s[|s| - 1]];
    }
  }

  // ----- the order of strings by code point -----

  predicate StringLe(s: string, t: string) {
    s == "" || (t != "" && (s[0] < t[0] || (s[0] == t[0] && StringLe(s[1..], t[1..]))))
  }

  /** The texts agree before position i, where s has the smaller character. */
  predicate SmallerAt(s: string, t: string, i: nat) {
    i < |s| && i < |t| && s[..i] == t[..i] && s[i] < t[i]
  }

  /** s is a prefix of t, or has the smaller character at the first position at which they differ. */
  ghost predicate NotAbove(s: string, t: string) {
    s <= t || exists i: nat :: SmallerAt(s, t, i)
  }

  lemma SameHead(s: string, t: string, i: nat)
    requires SmallerAt(s, t, i) && i > 0
    ensures s[0] == t[0]
  {
    assert s[..i][0] == s[0] && t[..i][0] == t[0];
  }

  /** StringLe is the order by code points. */
  lemma {:induction false} StringLeMeans(s: string, t: string)
    ensures StringLe(s, t) <==> NotAbove(s, t)
  {
    if s != "" && t != "" && s[0] == t[0] {
      StringLeMeans(s[1..], t[1..]);
      assert s == [s[0]] + s[1..] && t == [t[0]] + t[1..];
      assert s <= t <==> s[1..] <= t[1..];
      if i: nat :| SmallerAt(s, t, i) {
        assert s[..i] == [s[0]] + s[1..][..i - 1] && t[..i] == [t[0]] + t[1..][..i - 1];
        assert SmallerAt(s[1..], t[1..], i - 1);
      }
      if i: nat :| SmallerAt(s[1..], t[1..], i) {
        assert s[..i + 1] == [s[0]] + s[1..][..i] && t[..i + 1] == [t[0]] + t[1..][..i];
        assert SmallerAt(s, t, i + 1);
      }
    } else if s != "" && t != "" {
      if s[0] < t[0] {
        assert SmallerAt(s, t, 0);
      }
      if i: nat :| SmallerAt(s, t, i) {
        if i > 0 {
          SameHead(s, t, i);
        }
      }
    }
  }

  lemma {:induction false} StringLeTotal(s: string, t: string)
    ensures StringLe(s, t) || StringLe(t, s)
  {
    if s != "" && t != "" {
      StringLeTotal(s[1..], t[1..]);
    }
  }

  lemma {:induction false} StringLeAntisymmetric(s: string, t: string)
    requires StringLe(s, t) && StringLe(t, s)
    ensures s == t
  {
    if s != "" {
      StringLeAntisymmetric(s[1..], t[1..]);
      assert s == [s[0]] + s[1..] && t == [t[0]] + t[1..];
    }
  }

  lemma {:induction false} StringLeTransitive(s: string, t: string, u: string)
    requires StringLe(s, t) && StringLe(t, u)
    ensures StringLe(s, u)
  {
    if s != "" && s[0] == t[0] == u[0] {
      StringLeTransitive(s[1..], t[1..], u[1..]);
    }
  }
}
