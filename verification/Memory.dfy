/** Memory sizes as text, e.g. "8G" (oss_crs/src/memory.py). The program converts the number with
    `float`; here it is the exact decimal fraction. */
module Memory {
  import opened Outcomes
  import opened Text

  datatype MemoryError = BadMemoryFormat | UnknownUnit | NotPositive | DivisionByZero

  function UpperChar(c: char): char {
    if 'a' <= c <= 'z' then (c as int - 'a' as int + 'A' as int) as char else c
  }

  function Upper(s: string): string {
    if s == "" then "" else [UpperChar(s[0])] + Upper(s[1..])
  }

  /** The table of units. */
  function UnitOf(name: string): Option<nat> {
    if name == "B" then Some(1)
    else if name == "K" || name == "KB" then Some(1024)
    else if name == "M" || name == "MB" then Some(1048576)
    else if name == "G" || name == "GB" then Some(1073741824)
    else if name == "T" || name == "TB" then Some(1099511627776)
    else None
  }

  predicate IsLetter(c: char) {
    'a' <= c <= 'z' || 'A' <= c <= 'Z'
  }

  predicate IsWord(s: string) {
    s != "" && forall i :: 0 <= i < |s| ==> IsLetter(s[i])
  }

  predicate AllDigits(s: string) {
    forall i :: 0 <= i < |s| ==> IsDigit(s[i])
  }

  /** The length of the longest prefix of digits. */
  function DigitCount(s: string): (k: nat)
    ensures k <= |s| && AllDigits(s[..k])
    ensures k < |s| ==> !IsDigit(s[k])
  {
    if s == "" || !IsDigit(s[0]) then 0 else 1 + DigitCount(s[1..])
  }

  function Pow10(k: nat): (p: nat)
    ensures p > 0
  {
    if k == 0 then 1 else 10 * Pow10(k - 1)
  }

  /** The three parts of a size: the digits before and after the decimal point, and the unit. */
  datatype SizeParts = SizeParts(whole: string, fraction: string, unit: string)

  /** The fraction digits after a decimal point, if the text goes on with one. */
  function Fraction(s: string): (f: string)
    ensures AllDigits(f)
    ensures f != "" ==> |f| < |s|
  {
    if s != "" && s[0] == '.' then s[1..][..DigitCount(s[1..])] else ""
  }

  /** The point and the fraction digits, if any. */
  function FractionText(s: string): string {
    if Fraction(s) == "" then "" else s[..1 + |Fraction(s)|]
  }

  function AfterFraction(s: string): string {
    if Fraction(s) == "" then s else s[1 + |Fraction(s)|..]
  }

  function Parts(s: string): (p: SizeParts)
    ensures AllDigits(p.whole) && AllDigits(p.fraction)
  {
    var rest := s[DigitCount(s)..];
    SizeParts(s[..DigitCount(s)], Fraction(rest), StripLeft(AfterFraction(rest)))
  }

  /** The digits of a decimal number without its point: the number times a power of ten. */
  function Unpointed(p: SizeParts): (digits: string)
    requires AllDigits(p.whole) && AllDigits(p.fraction)
    ensures AllDigits(digits)
  {
    p.whole + p.fraction
  }

  /** n / scale units in bytes, rounded down. */
  function Bytes(n: nat, scale: nat, unit: nat): nat
    requires scale > 0
  {
    n * unit / scale
  }

  function PartsMeaning(p: SizeParts): Result<nat, MemoryError>
    requires AllDigits(p.whole) && AllDigits(p.fraction)
  {
    if p.whole == "" || !IsWord(p.unit) then Failure(BadMemoryFormat)
    else if UnitOf(Upper(p.unit)).None? then Failure(UnknownUnit)
    else Success(Bytes(StringToNat(Unpointed(p)), Pow10(|p.fraction|), UnitOf(Upper(p.unit)).value))
  }

  /** What `parse_memory` yields. */
  function MemoryMeaning(text: string): Result<nat, MemoryError> {
    PartsMeaning(Parts(Strip(text)))
  }

  // ----- which texts are sizes, and what they mean -----

  predicate IsFraction(f: string) {
    f == "" || (f[0] == '.' && IsNumeral(f[1..]))
  }

  predicate Blank(s: string) {
    forall i :: 0 <= i < |s| ==> IsSpace(s[i])
  }

  /** The pattern of `parse_memory`: digits, an optional fraction, blanks and a word. */
  predicate Reads(s: string, whole: string, fraction: string, blanks: string, unit: string) {
    s == whole + fraction + blanks + unit && IsNumeral(whole) && IsFraction(fraction) && Blank(blanks) && IsWord(unit)
  }

  ghost predicate MatchesSize(s: string) {
    exists whole, fraction, blanks, unit :: Reads(s, whole, fraction, blanks, unit)
  }

  function FractionDigits(fraction: string): (digits: string)
    requires IsFraction(fraction)
    ensures AllDigits(digits)
  {
    if fraction == "" then "" else fraction[1..]
  }

  lemma {:induction false} StripLeftBlank(blanks: string, rest: string)
    requires Blank(blanks) && (rest == "" || !IsSpace(rest[0]))
    ensures StripLeft(blanks + rest) == rest
  {
    if blanks == "" {
      assert blanks + rest == rest;
    } else {
      assert (blanks + rest)[1..] == blanks[1..] + rest;
      StripLeftBlank(blanks[1..], rest);
    }
  }

  lemma {:induction false} StripLeftPrefix(s: string) returns (blanks: string)
    ensures Blank(blanks) && s == blanks + StripLeft(s)
  {
    blanks := "";
    if s != "" && IsSpace(s[0]) {
      var more := StripLeftPrefix(s[1..]);
      blanks := [s[0]] + more;
    }
  }

  lemma {:induction false} DigitCountOfNumeral(s: string, rest: string)
    requires IsNumeral(s) && (rest == "" || !IsDigit(rest[0]))
    ensures DigitCount(s + rest) == |s|
  {
    if |s| == 1 {
      assert (s + rest)[1..] == rest;
    } else {
      assert (s + rest)[1..] == s[1..] + rest;
      DigitCountOfNumeral(s[1..], rest);
    }
  }

  lemma RestHasNoDigit(fraction: string, blanks: string, unit: string)
    requires IsFraction(fraction) && Blank(blanks) && IsWord(unit)
    ensures var rest := fraction + (blanks + unit);
            rest != "" && !IsDigit(rest[0]) && (fraction == "" ==> rest[0] != '.')
    ensures !IsDigit((blanks + unit)[0])
  {
    var first := (blanks + unit)[0];
    assert IsSpace(first) || IsLetter(first);
  }

  lemma FractionOf(fraction: string, blanks: string, unit: string)
    requires IsFraction(fraction) && Blank(blanks) && IsWord(unit)
    ensures Fraction(fraction + (blanks + unit)) == FractionDigits(fraction)
  {
    RestHasNoDigit(fraction, blanks, unit);
    if fraction != "" {
      var rest := fraction + (blanks + unit);
      assert rest[1..] == fraction[1..] + (blanks + unit);
      DigitCountOfNumeral(fraction[1..], blanks + unit);
    }
  }

  lemma AfterFractionOf(fraction: string, blanks: string, unit: string)
    requires IsFraction(fraction) && Blank(blanks) && IsWord(unit)
    ensures AfterFraction(fraction + (blanks + unit)) == blanks + unit
  {
    FractionOf(fraction, blanks, unit);
    var rest := fraction + (blanks + unit);
    if fraction == "" {
      assert rest == blanks + unit;
    } else {
      assert rest[|fraction|..] == blanks + unit;
    }
  }

  lemma PartsAfterWhole(whole: string, rest: string)
    requires IsNumeral(whole) && rest != "" && !IsDigit(rest[0])
    ensures Parts(whole + rest) == SizeParts(whole, Fraction(rest), StripLeft(AfterFraction(rest)))
  {
    DigitCountOfNumeral(whole, rest);
    var s := whole + rest;
    assert s[..|whole|] == whole && s[|whole|..] == rest;
  }

  lemma FlatConcat(a: string, b: string, c: string, d: string)
    ensures a + (b + (c + d)) == a + b + c + d
  {
  }

  lemma WordNotBlank(blanks: string, unit: string)
    requires Blank(blanks) && IsWord(unit)
    ensures StripLeft(blanks + unit) == unit
  {
    assert IsLetter(unit[0]);
    StripLeftBlank(blanks, unit);
  }

  /** The greedy split finds the parts of the pattern. */
  lemma PartsOf(whole: string, fraction: string, blanks: string, unit: string)
    requires IsNumeral(whole) && IsFraction(fraction) && Blank(blanks) && IsWord(unit)
    ensures Parts(whole + fraction + blanks + unit) == SizeParts(whole, FractionDigits(fraction), unit)
  {
    FlatConcat(whole, fraction, blanks, unit);
    RestHasNoDigit(fraction, blanks, unit);
    PartsAfterWhole(whole, fraction + (blanks + unit));
    FractionOf(fraction, blanks, unit);
    AfterFractionOf(fraction, blanks, unit);
    WordNotBlank(blanks, unit);
  }

  /** A text is rejected for its format exactly when it does not match the pattern. */
  lemma FormatAccepted(text: string)
    ensures MemoryMeaning(text) == Failure(BadMemoryFormat) <==> !MatchesSize(Strip(text))
  {
    var s := Strip(text);
    if MatchesSize(s) {
      var whole, fraction, blanks, unit :| Reads(s, whole, fraction, blanks, unit);
      PartsOf(whole, fraction, blanks, unit);
    }
    if Parts(s).whole != "" && IsWord(Parts(s).unit) {
      PartsMatch(s);
    }
  }

  lemma FractionSplits(s: string)
    ensures s == FractionText(s) + AfterFraction(s) && IsFraction(FractionText(s))
  {
    var f := Fraction(s);
    if f != "" {
      assert s[..1 + |f|][1..] == s[1..][..|f|];
    }
  }

  lemma ReadsAs(s: string, whole: string, rest: string, fraction: string, after: string, blanks: string, unit: string)
    requires s == whole + rest && rest == fraction + after && after == blanks + unit
    requires IsNumeral(whole) && IsFraction(fraction) && Blank(blanks) && IsWord(unit)
    ensures MatchesSize(s)
  {
    FlatConcat(whole, fraction, blanks, unit);
    assert Reads(s, whole, fraction, blanks, unit);
  }

  lemma WholeSplits(s: string)
    ensures s == s[..DigitCount(s)] + s[DigitCount(s)..]
  {
  }

  lemma PartsMatch(s: string)
    requires Parts(s).whole != "" && IsWord(Parts(s).unit)
    ensures MatchesSize(s)
  {
    var p := Parts(s);
    var rest := s[DigitCount(s)..];
    var after := AfterFraction(rest);
    WholeSplits(s);
    FractionSplits(rest);
    var blanks := StripLeftPrefix(after);
    ReadsAs(s, p.whole, rest, FractionText(rest), after, blanks, p.unit);
  }

  /** b is x over the scale, rounded down. */
  ghost predicate RoundsDown(b: int, x: int, scale: int) {
    b * scale <= x < (b + 1) * scale
  }

  /** A decimal number times its power of ten: the whole part shifted, plus the fraction digits. */
  lemma {:induction false} UnpointedMeans(a: string, b: string)
    requires AllDigits(a) && AllDigits(b)
    ensures StringToNat(a + b) == StringToNat(a) * Pow10(|b|) + StringToNat(b)
  {
    if b == "" {
      assert a + b == a;
    } else {
      var front, digit := b[..|b| - 1], b[|b| - 1] as int - '0' as int;
      UnpointedMeans(a, front);
      assert (a + b)[..|a + b| - 1] == a + front;
      assert IsDigit(b[|b| - 1]);
      ShiftIn(StringToNat(a), Pow10(|front|), StringToNat(front), digit);
    }
  }

  lemma ShiftIn(a: nat, p: nat, f: nat, digit: nat)
    ensures 10 * (a * p + f) + digit == a * (10 * p) + (10 * f + digit)
  {
  }

  lemma BytesRoundDown(n: nat, scale: nat, unit: nat)
    requires scale > 0
    ensures RoundsDown(Bytes(n, scale, unit), n * unit, scale)
  {
  }

  function Pow1024(e: nat): (p: nat)
    ensures p > 0
  {
    if e == 0 then 1 else 1024 * Pow1024(e - 1)
  }

  predicate IsEither(c: char, small: char, capital: char) {
    c == small || c == capital
  }

  /** Bytes; or kilobytes and so on by their first letter, with or without a "b", in any case. */
  predicate SpellsUnit(unit: string, e: nat) {
    if e == 0 then |unit| == 1 && IsEither(unit[0], 'b', 'B')
    else
      && 1 <= |unit| <= 2 && (|unit| == 2 ==> IsEither(unit[1], 'b', 'B'))
      && ((e == 1 && IsEither(unit[0], 'k', 'K')) || (e == 2 && IsEither(unit[0], 'm', 'M'))
          || (e == 3 && IsEither(unit[0], 'g', 'G')) || (e == 4 && IsEither(unit[0], 't', 'T')))
  }

  lemma UpperLetters(s: string)
    ensures |Upper(s)| == |s| && forall i :: 0 <= i < |s| ==> Upper(s)[i] == UpperChar(s[i])
  {
  }

  lemma Powers()
    ensures Pow1024(0) == 1 && Pow1024(1) == 1024 && Pow1024(2) == 1048576
    ensures Pow1024(3) == 1073741824 && Pow1024(4) == 1099511627776
  {
    assert Pow1024(1) == 1024 * Pow1024(0) && Pow1024(2) == 1024 * Pow1024(1);
    assert Pow1024(3) == 1024 * Pow1024(2) && Pow1024(4) == 1024 * Pow1024(3);
  }

  /** The units known are bytes and the first four powers of 1024, in any case. */
  lemma UnitMeans(unit: string)
    ensures forall e: nat :: SpellsUnit(unit, e) ==> UnitOf(Upper(unit)) == Some(Pow1024(e))
    ensures UnitOf(Upper(unit)).Some? ==> exists e: nat :: SpellsUnit(unit, e)
  {
    var upper := Upper(unit);
    UpperLetters(unit);
    Powers();
    forall e: nat | SpellsUnit(unit, e)
      ensures UnitOf(upper) == Some(Pow1024(e))
    {
      assert upper == if |unit| == 1 then [UpperChar(unit[0])] else [UpperChar(unit[0]), UpperChar(unit[1])];
    }
    if UnitOf(upper).Some? {
      var c := upper[0];
      assert SpellsUnit(unit, if c == 'B' then 0 else if c == 'K' then 1 else if c == 'M' then 2
                              else if c == 'G' then 3 else 4);
    }
  }

  /** An accepted size with a known unit, in any case, means the largest number of bytes that is not
      above the decimal number times the unit. */
  lemma SizeMeans(text: string, whole: string, fraction: string, blanks: string, unit: string, e: nat)
    requires Reads(Strip(text), whole, fraction, blanks, unit) && SpellsUnit(unit, e)
    ensures var p := SizeParts(whole, FractionDigits(fraction), unit);
      && MemoryMeaning(text).Success?
      && RoundsDown(MemoryMeaning(text).value, StringToNat(Unpointed(p)) * Pow1024(e), Pow10(|p.fraction|))
  {
    var p := SizeParts(whole, FractionDigits(fraction), unit);
    UnitMeans(unit);
    PartsOf(whole, fraction, blanks, unit);
    BytesRoundDown(StringToNat(Unpointed(p)), Pow10(|p.fraction|), UnitOf(Upper(unit)).value);
  }

  /** Any other unit is an error of its own. */
  lemma UnknownUnitMeans(text: string, whole: string, fraction: string, blanks: string, unit: string)
    requires Reads(Strip(text), whole, fraction, blanks, unit)
    ensures MemoryMeaning(text) == Failure(UnknownUnit) <==> forall e: nat :: !SpellsUnit(unit, e)
  {
    UnitMeans(unit);
    PartsOf(whole, fraction, blanks, unit);
  }

  // ----- printing -----

  datatype Unit = Unit(size: nat, suffix: char)

  const UNITS: seq<Unit> := [Unit(1099511627776, 'T'), Unit(1073741824, 'G'), Unit(1048576, 'M'), Unit(1024, 'K')]

  /** The unit is read back as what it stands for. */
  ghost predicate KnownUnit(u: Unit) {
    u.size > 0 && 'A' <= u.suffix <= 'Z' && UnitOf([u.suffix]) == Some(u.size)
  }

  predicate WholeIn(n: nat, u: Unit) {
    u.size > 0 && n >= u.size && n % u.size == 0
  }

  /** The text in the first unit of the table that divides the size, or in bytes. */
  function TextIn(n: nat, units: seq<Unit>): string {
    if units == [] then NatToString(n) + "B"
    else if WholeIn(n, units[0]) then NatToString(n / units[0].size) + [units[0].suffix]
    else TextIn(n, units[1..])
  }

  function MemoryText(n: nat): string {
    TextIn(n, UNITS)
  }

  /** `memory_to_str`: the scan of the table of units. */
  method MemoryToStr(numBytes: int) returns (r: Result<string, MemoryError>)
    ensures numBytes <= 0 ==> r == Failure(NotPositive)
    ensures numBytes > 0 ==> r == Success(MemoryText(numBytes))
  {
    if numBytes <= 0 {
      return Failure(NotPositive);
    }
    for i := 0 to |UNITS|
      invariant TextIn(numBytes, UNITS[i..]) == MemoryText(numBytes)
    {
      if WholeIn(numBytes, UNITS[i]) {
        return Success(NatToString(numBytes / UNITS[i].size) + [UNITS[i].suffix]);
      }
    }
    return Success(NatToString(numBytes) + "B");
  }

  /** The text is a plain numeral and the letter of the largest unit that divides the size. */
  ghost predicate IsPrintedIn(text: string, n: nat, e: nat, k: nat) {
    && e <= 4 && n == k * Pow1024(e)
    && (forall f: nat :: e < f <= 4 ==> n % Pow1024(f) != 0)
    && exists digits :: IsPlainNumeral(digits, k) && text == digits + ["BKMGT"[e]]
  }

  lemma WholeInMeans(n: nat, size: nat)
    requires n > 0 && size > 0 && n % size == 0
    ensures n >= size && n == (n / size) * size
  {
    assert n == size * (n / size) + n % size;
  }

  predicate IsMultiple(n: nat, e: nat) {
    n % Pow1024(e) == 0
  }

  /** What is printed. */
  lemma TextMeans(n: nat) returns (e: nat, k: nat)
    requires n > 0
    ensures IsPrintedIn(MemoryText(n), n, e, k)
  {
    e := if IsMultiple(n, 4) then 4 else if IsMultiple(n, 3) then 3
         else if IsMultiple(n, 2) then 2 else if IsMultiple(n, 1) then 1 else 0;
    k := Quotient(n, Pow1024(e));
    ScanFinds(n, e, 0);
    assert UNITS[0..] == UNITS;
    PlainNumeral(k);
    Powers();
    if e > 0 {
      WholeInMeans(n, Pow1024(e));
    }
    forall f: nat | e < f <= 4
      ensures n % Pow1024(f) != 0
    {
      assert !IsMultiple(n, f);
    }
  }

  /** The scan from position i on finds the largest unit that divides the size. */
  lemma {:induction false} ScanFinds(n: nat, e: nat, i: nat)
    requires n > 0 && i + e <= 4 && (e == 0 || IsMultiple(n, e))
    requires forall f: nat :: e < f <= 4 ==> !IsMultiple(n, f)
    ensures TextIn(n, UNITS[i..]) == TextWith(n, e)
    decreases 4 - i
  {
    if i == 4 {
      ScanEnd(n);
    } else {
      ScanStep(n, i);
      if e < 4 - i {
        ScanFinds(n, e, i + 1);
      }
    }
  }

  function TextWith(n: nat, e: nat): string
    requires e <= 4
  {
    NatToString(Quotient(n, Pow1024(e))) + ["BKMGT"[e]]
  }

  function Quotient(n: nat, d: nat): nat
    requires d > 0
  {
    n / d
  }

  lemma ScanEnd(n: nat)
    ensures TextIn(n, UNITS[4..]) == TextWith(n, 0)
  {
    assert UNITS[4..] == [];
  }

  lemma ScanStep(n: nat, i: nat)
    requires n > 0 && i < 4
    ensures TextIn(n, UNITS[i..]) ==
            if IsMultiple(n, 4 - i) then TextWith(n, 4 - i) else TextIn(n, UNITS[i + 1..])
  {
    Powers();
    assert UNITS[i..][0] == UNITS[i] && UNITS[i..][1..] == UNITS[i + 1..];
    assert UNITS[i] == Unit(Pow1024(4 - i), "BKMGT"[4 - i]);
    if IsMultiple(n, 4 - i) {
      WholeInMeans(n, Pow1024(4 - i));
    }
  }

  // ----- the round trip -----

  lemma TrimmedStays(s: string)
    requires s != "" && !IsSpace(s[0]) && !IsSpace(s[|s| - 1])
    ensures Strip(s) == s
  {
  }

  lemma UpperStays(c: char)
    requires 'A' <= c <= 'Z'
    ensures Upper([c]) == [c]
  {
    assert [c][1..] == "" && Upper([c]) == [UpperChar(c)] + Upper([c][1..]);
  }

  /** A numeral followed by a capital letter splits into just these two. */
  lemma NumeralParts(digits: string, suffix: char)
    requires IsNumeral(digits) && 'A' <= suffix <= 'Z'
    ensures Parts(Strip(digits + [suffix])) == SizeParts(digits, "", [suffix])
  {
    var s := digits + [suffix];
    TrimmedStays(s);
    DigitCountOfNumeral(digits, [suffix]);
    assert s[..|digits|] == digits && s[|digits|..] == [suffix];
  }

  lemma WholeBytes(k: nat, size: nat)
    ensures Bytes(k, 1, size) == k * size
  {
  }

  lemma WholeMeaning(digits: string, suffix: char, size: nat)
    requires IsNumeral(digits) && 'A' <= suffix <= 'Z' && UnitOf([suffix]) == Some(size)
    ensures PartsMeaning(SizeParts(digits, "", [suffix])) == Success(StringToNat(digits) * size)
  {
    UpperStays(suffix);
    WholeBytes(StringToNat(digits), size);
    assert IsWord([suffix]) && digits + "" == digits;
  }

  /** A numeral followed by a one-letter unit reads as their product. */
  lemma NumeralWithUnit(k: nat, suffix: char, size: nat)
    requires 'A' <= suffix <= 'Z' && UnitOf([suffix]) == Some(size)
    ensures MemoryMeaning(NatToString(k) + [suffix]) == Success(k * size)
  {
    NumeralParts(NatToString(k), suffix);
    WholeMeaning(NatToString(k), suffix, size);
    DecimalRoundTrip(k);
  }

  lemma WholeUnits(n: nat, u: Unit)
    requires WholeIn(n, u)
    ensures n / u.size * u.size == n
  {
  }

  lemma {:induction false} TextReadsBack(n: nat, units: seq<Unit>)
    requires forall u :: u in units ==> KnownUnit(u)
    ensures MemoryMeaning(TextIn(n, units)) == Success(n)
  {
    if units == [] {
      NumeralWithUnit(n, 'B', 1);
    } else if WholeIn(n, units[0]) {
      assert KnownUnit(units[0]);
      NumeralWithUnit(n / units[0].size, units[0].suffix, units[0].size);
      WholeUnits(n, units[0]);
    } else {
      TextReadsBack(n, units[1..]);
    }
  }

  lemma AllUnitsKnown()
    ensures forall u :: u in UNITS ==> KnownUnit(u)
  {
    assert UnitOf("T") == Some(1099511627776) && UnitOf("G") == Some(1073741824);
    assert UnitOf("M") == Some(1048576) && UnitOf("K") == Some(1024);
  }

  /** Round trip: a printed size parses back to the same number of bytes. */
  lemma MemoryRoundTrip(n: nat)
    ensures MemoryMeaning(MemoryText(n)) == Success(n)
  {
    AllUnitsKnown();
    TextReadsBack(n, UNITS);
  }

  /** Two sizes print alike only when they are equal. */
  lemma MemoryTextInjective(m: nat, n: nat)
    requires MemoryText(m) == MemoryText(n)
    ensures m == n
  {
    MemoryRoundTrip(m);
    MemoryRoundTrip(n);
  }
}
