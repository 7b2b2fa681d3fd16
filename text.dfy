/** String handling shared by the C# loaders and the Python tools: .NET Trim and
    Split, decimal digits, int.ToString and "D5" formatting, int.TryParse and a
    decimal reading of float.TryParse, and searches for a digit group between a
    literal prefix and suffix (the regular expressions the core uses). */
module Text {

  datatype Option<T> = None | Some(value: T)

  /** The characters char.IsWhiteSpace accepts (Unicode White_Space), which
      String.Trim() removes. */
  const WhiteSpace: set<char> := {
    '\t', '\n', '\U{000B}', '\U{000C}', '\r', ' ', '\U{0085}', '\U{00A0}', '\U{1680}',
    '\U{2000}', '\U{2001}', '\U{2002}', '\U{2003}', '\U{2004}', '\U{2005}', '\U{2006}',
    '\U{2007}', '\U{2008}', '\U{2009}', '\U{200A}', '\U{2028}', '\U{2029}', '\U{202F}',
    '\U{205F}', '\U{3000}'
  }

  /** The white space that number parsing skips around a numeral. */
  const NumberWhite: set<char> := {'\t', '\n', '\U{000B}', '\U{000C}', '\r', ' '}

  // ---------------------------------------------------------------- trimming

  /** String.TrimStart(cs): drop the longest prefix made of characters in cs. */
  function TrimStart(s: string, cs: set<char>): (r: string)
    ensures |r| <= |s| && r == s[|s| - |r|..]
    ensures forall k :: 0 <= k < |s| - |r| ==> s[k] in cs
    ensures r != [] ==> r[0] !in cs
    decreases |s|
  {
    if s != [] && s[0] in cs then TrimStart(s[1..], cs) else s
  }

  /** String.TrimEnd(cs): drop the longest suffix made of characters in cs. */
  function TrimEnd(s: string, cs: set<char>): (r: string)
    ensures |r| <= |s| && r == s[..|r|]
    ensures forall k :: |r| <= k < |s| ==> s[k] in cs
    ensures r != [] ==> r[|r| - 1] !in cs
    decreases |s|
  {
    if s != [] && s[|s| - 1] in cs then TrimEnd(s[..|s| - 1], cs) else s
  }

  /** String.Trim(cs): both ends. */
  function TrimSet(s: string, cs: set<char>): string {
    TrimEnd(TrimStart(s, cs), cs)
  }

  /** String.Trim(). */
  function Trim(s: string): string {
    TrimSet(s, WhiteSpace)
  }

  /** A trimmed string is the one slice of s that leaves only characters of cs
      outside it and starts and ends with a character not in cs. */
  lemma TrimSetCharacterized(s: string, cs: set<char>, i: nat, j: nat)
    requires i <= j <= |s|
    requires forall k :: 0 <= k < i ==> s[k] in cs
    requires forall k :: j <= k < |s| ==> s[k] in cs
    requires i < j ==> s[i] !in cs && s[j - 1] !in cs
    ensures TrimSet(s, cs) == s[i..j]
  {
    var a := TrimStart(s, cs);
    var r := TrimEnd(a, cs);
    if i < j {
      assert |s| - |a| == i;
      assert |r| == j - i;
    }
  }

  /** The trim of s is the slice of s left once the characters of cs are
      dropped from both ends: only such characters lie outside it, and it
      neither starts nor ends with one. */
  lemma TrimSetSlice(s: string, cs: set<char>)
    ensures |s| - |TrimStart(s, cs)| + |TrimSet(s, cs)| <= |s|
    ensures TrimSet(s, cs) == s[|s| - |TrimStart(s, cs)|..|s| - |TrimStart(s, cs)| + |TrimSet(s, cs)|]
    ensures forall k :: 0 <= k < |s| - |TrimStart(s, cs)| ==> s[k] in cs
    ensures forall k :: |s| - |TrimStart(s, cs)| + |TrimSet(s, cs)| <= k < |s| ==> s[k] in cs
    ensures TrimSet(s, cs) != [] ==> TrimSet(s, cs)[0] !in cs && TrimSet(s, cs)[|TrimSet(s, cs)| - 1] !in cs
  {
    var a := TrimStart(s, cs);
    var r := TrimEnd(a, cs);
    var i := |s| - |a|;
    assert a == s[i..];
    assert r == a[..|r|];
    forall k | i + |r| <= k < |s| ensures s[k] in cs {
      assert s[k] == a[k - i];
    }
  }

  /** Trimming twice trims nothing more. */
  lemma TrimSetIdempotent(s: string, cs: set<char>)
    ensures TrimSet(TrimSet(s, cs), cs) == TrimSet(s, cs)
  {
    var r := TrimSet(s, cs);
    TrimSetCharacterized(r, cs, 0, |r|);
  }

  // ---------------------------------------------------------------- splitting

  /** The index of the first character of s in cs, or |s| when there is none. */
  function FirstIndexIn(s: string, cs: set<char>): (i: nat)
    ensures i <= |s|
    ensures forall k :: 0 <= k < i ==> s[k] !in cs
    ensures i < |s| ==> s[i] in cs
    decreases |s|
  {
    if s == [] then 0
    else if s[0] in cs then 0
    else 1 + FirstIndexIn(s[1..], cs)
  }

  /** The characters of s that are in cs, in order. */
  function SeparatorsOf(s: string, cs: set<char>): (r: string)
    ensures forall k :: 0 <= k < |r| ==> r[k] in cs
    decreases |s|
  {
    if s == [] then []
    else (if s[0] in cs then [s[0]] else []) + SeparatorsOf(s[1..], cs)
  }

  /** String.Split(cs) with no options: the fields between separators, empty
      fields included. */
  function Split(s: string, cs: set<char>): (r: seq<string>)
    ensures |r| == |SeparatorsOf(s, cs)| + 1
    ensures forall i, k :: 0 <= i < |r| && 0 <= k < |r[i]| ==> r[i][k] !in cs
    decreases |s|
  {
    var i := FirstIndexIn(s, cs);
    if i == |s| then
      NoSeparators(s, cs);
      [s]
    else
      SeparatorsSplitAt(s, cs, i);
      var rest := Split(s[i + 1..], cs);
      [s[..i]] + rest
  }

  /** Fields put back together with the separators between them. */
  function Interleave(fields: seq<string>, seps: string): string
    requires |fields| == |seps| + 1
    decreases |seps|
  {
    if seps == [] then fields[0]
    else fields[0] + [seps[0]] + Interleave(fields[1..], seps[1..])
  }

  lemma NoSeparators(s: string, cs: set<char>)
    requires forall k :: 0 <= k < |s| ==> s[k] !in cs
    ensures SeparatorsOf(s, cs) == []
    decreases |s|
  {
    if s != [] {
      NoSeparators(s[1..], cs);
    }
  }

  lemma {:induction false} SeparatorsSplitAt(s: string, cs: set<char>, i: nat)
    requires i < |s| && s[i] in cs
    requires forall k :: 0 <= k < i ==> s[k] !in cs
    ensures SeparatorsOf(s, cs) == [s[i]] + SeparatorsOf(s[i + 1..], cs)
    decreases i
  {
    if i > 0 {
      SeparatorsSplitAt(s[1..], cs, i - 1);
      assert s[1..][i..] == s[i + 1..];
    }
  }

  /** Split loses nothing: the fields and the separators rebuild the input. */
  lemma {:induction false} SplitRoundTrip(s: string, cs: set<char>)
    ensures Interleave(Split(s, cs), SeparatorsOf(s, cs)) == s
    decreases |s|
  {
    var i := FirstIndexIn(s, cs);
    if i == |s| {
      NoSeparators(s, cs);
    } else {
      SeparatorsSplitAt(s, cs, i);
      SplitRoundTrip(s[i + 1..], cs);
      var fields, seps := Split(s, cs), SeparatorsOf(s, cs);
      assert fields == [s[..i]] + Split(s[i + 1..], cs);
      assert fields[1..] == Split(s[i + 1..], cs) && seps[1..] == SeparatorsOf(s[i + 1..], cs);
      assert Interleave(fields, seps) == s[..i] + [s[i]] + Interleave(fields[1..], seps[1..]);
      assert s == s[..i] + [s[i]] + s[i + 1..];
    }
  }

  /** StringSplitOptions.RemoveEmptyEntries applied to a field list. */
  function RemoveEmpty(fields: seq<string>): (r: seq<string>)
    ensures forall i :: 0 <= i < |r| ==> r[i] != [] && r[i] in fields
    ensures forall f :: f in fields && f != [] ==> f in r
  {
    if fields == [] then []
    else (if fields[0] == [] then [] else [fields[0]]) + RemoveEmpty(fields[1..])
  }

  /** Dropping empty fields adds no character. */
  lemma {:induction false} RemoveEmptyKeepsOut(fields: seq<string>, out: set<char>)
    requires forall i, k :: 0 <= i < |fields| && 0 <= k < |fields[i]| ==> fields[i][k] !in out
    ensures forall i, k :: 0 <= i < |RemoveEmpty(fields)| && 0 <= k < |RemoveEmpty(fields)[i]| ==>
      RemoveEmpty(fields)[i][k] !in out
  {
    if fields != [] {
      RemoveEmptyKeepsOut(fields[1..], out);
      var r := RemoveEmpty(fields);
      var rest := RemoveEmpty(fields[1..]);
      if fields[0] == [] {
        assert r == rest;
      } else {
        assert r == [fields[0]] + rest;
        forall i, k | 0 <= i < |r| && 0 <= k < |r[i]| ensures r[i][k] !in out {
          if i > 0 {
            assert r[i] == rest[i - 1];
          }
        }
      }
    }
  }

  // ---------------------------------------------------------------- digits

  /** Regex \d and Python's \d on ASCII input. */
  predicate IsDigit(c: char) {
    '0' <= c <= '9'
  }

  predicate AllDigits(s: string) {
    forall k :: 0 <= k < |s| ==> IsDigit(s[k])
  }

  function DigitValue(c: char): nat
    requires IsDigit(c)
  {
    (c as int - '0' as int) as nat
  }

  function DigitChar(d: nat): (c: char)
    requires d < 10
    ensures IsDigit(c) && DigitValue(c) == d
  {
    ('0' as int + d) as char
  }

  /** The number a string of decimal digits spells. */
  function DigitsValue(s: string): nat
    requires AllDigits(s)
    decreases |s|
  {
    if s == [] then 0 else DigitsValue(s[..|s| - 1]) * 10 + DigitValue(s[|s| - 1])
  }

  /** The shortest decimal spelling of n. */
  function NatToString(n: nat): (r: string)
    ensures r != [] && AllDigits(r)
    ensures |r| > 1 ==> r[0] != '0'
    decreases n
  {
    if n < 10 then [DigitChar(n)] else NatToString(n / 10) + [DigitChar(n % 10)]
  }

  function Min(a: int, b: int): int { if a <= b then a else b }
  function Max(a: int, b: int): int { if a >= b then a else b }

  /** int.ToString() */
  function IntToString(n: int): string {
    if n < 0 then "-" + NatToString(-n) else NatToString(n)
  }

  /** Reading the spelling of n gives back n. */
  lemma {:induction false} NatToStringRoundTrip(n: nat)
    ensures DigitsValue(NatToString(n)) == n
    decreases n
  {
    if n >= 10 {
      NatToStringRoundTrip(n / 10);
      var r := NatToString(n);
      assert r[..|r| - 1] == NatToString(n / 10);
    }
  }

  /** Leading zeros do not change the value. */
  lemma {:induction false} DigitsValueLeadingZeros(z: string, s: string)
    requires forall k :: 0 <= k < |z| ==> z[k] == '0'
    requires AllDigits(s)
    ensures AllDigits(z + s) && DigitsValue(z + s) == DigitsValue(s)
    decreases |s|
  {
    if s == [] {
      assert z + s == z;
      assert DigitsValue(z) == 0 by { AllZerosValue(z); }
    } else {
      DigitsValueLeadingZeros(z, s[..|s| - 1]);
      assert (z + s)[..|z + s| - 1] == z + s[..|s| - 1];
    }
  }

  lemma {:induction false} AllZerosValue(z: string)
    requires forall k :: 0 <= k < |z| ==> z[k] == '0'
    ensures AllDigits(z) && DigitsValue(z) == 0
    decreases |z|
  {
    if z != [] {
      AllZerosValue(z[..|z| - 1]);
    }
  }

  function Zeros(n: nat): (r: string)
    ensures |r| == n && forall k :: 0 <= k < n ==> r[k] == '0'
  {
    seq(n, _ => '0')
  }

  /** n.ToString("D<width>"): the digits of |n| padded with zeros on the left to
      at least width characters, with a leading minus for a negative n. */
  function FormatD(n: int, width: nat): (r: string)
    ensures n >= 0 ==> AllDigits(r)
    ensures n >= 0 ==> |r| == if |NatToString(n)| < width then width else |NatToString(n)|
  {
    var digits := NatToString(if n < 0 then -n else n);
    var padded := Zeros(if |digits| < width then width - |digits| else 0) + digits;
    if n < 0 then "-" + padded else padded
  }

  /** The zero-padded spelling still reads back as n. */
  lemma FormatDRoundTrip(n: nat, width: nat)
    ensures DigitsValue(FormatD(n, width)) == n
  {
    var digits := NatToString(n);
    var z := Zeros(if |digits| < width then width - |digits| else 0);
    DigitsValueLeadingZeros(z, digits);
    NatToStringRoundTrip(n);
  }

  // ---------------------------------------------------------------- parsing

  const Int32Min: int := -0x8000_0000
  const Int32Max: int := 0x7FFF_FFFF

  /** A numeral split at its optional leading sign. */
  datatype Signed = Signed(negative: bool, body: string)

  function SignOf(t: string): Signed {
    if |t| > 0 && (t[0] == '-' || t[0] == '+') then Signed(t[0] == '-', t[1..]) else Signed(false, t)
  }

  function Negate(neg: bool, v: nat): int {
    if neg then 0 - v else v
  }

  /** int.TryParse with NumberStyles.Integer: white space, an optional sign and
      at least one decimal digit, in the range of a 32-bit int. */
  function ParseInt32(s: string): (r: Option<int>)
    ensures r.Some? ==> Int32Min <= r.value <= Int32Max
  {
    var t := SignOf(TrimSet(s, NumberWhite));
    if t.body == [] || !AllDigits(t.body) then None
    else
      var v := Negate(t.negative, DigitsValue(t.body));
      if Int32Min <= v <= Int32Max then Some(v) else None
  }

  /** The spelling of an int has nothing to trim. */
  lemma IntToStringTrimmed(n: int)
    ensures TrimSet(IntToString(n), NumberWhite) == IntToString(n)
  {
    var s := IntToString(n);
    var digits := NatToString(if n < 0 then -n else n);
    assert digits[0] !in NumberWhite && digits[|digits| - 1] !in NumberWhite;
    assert s[|s| - 1] == digits[|digits| - 1];
    TrimNothing(s, NumberWhite);
  }

  /** The spelling of an int splits into its sign and the digits of its magnitude. */
  lemma SignOfIntToString(n: int)
    ensures SignOf(IntToString(n)) == Signed(n < 0, NatToString(if n < 0 then -n else n))
  {
    var s := IntToString(n);
    if n < 0 {
      assert s[1..] == NatToString(-n);
    }
  }

  /** Every int in range survives a trip through ToString and TryParse. */
  lemma ParseInt32RoundTrip(n: int)
    requires Int32Min <= n <= Int32Max
    ensures ParseInt32(IntToString(n)) == Some(n)
  {
    IntToStringTrimmed(n);
    SignOfIntToString(n);
    NatToStringRoundTrip(if n < 0 then -n else n);
  }

  /** A string with no trimmable character at its ends is its own trim. */
  lemma TrimNothing(s: string, cs: set<char>)
    requires s != [] ==> s[0] !in cs && s[|s| - 1] !in cs
    ensures TrimSet(s, cs) == s
  {
    TrimSetCharacterized(s, cs, 0, |s|);
  }

  /** The value of the digits after a decimal point. */
  function Fraction(f: string): (r: real)
    requires AllDigits(f)
    ensures 0.0 <= r < 1.0
    ensures r > 0.0 <==> DigitsValue(f) > 0
  {
    DigitsValueBound(f);
    Ratio(DigitsValue(f), Pow10(|f|))
  }

  function Ratio(d: nat, p: nat): (r: real)
    requires d < p
    ensures 0.0 <= r < 1.0
    ensures r > 0.0 <==> d > 0
  {
    var q := d as real / p as real;
    assert q * (p as real) == d as real;
    q
  }

  /** k digits spell a number below 10^k. */
  lemma {:induction false} DigitsValueBound(s: string)
    requires AllDigits(s)
    ensures DigitsValue(s) < Pow10(|s|)
    decreases |s|
  {
    if s != [] {
      DigitsValueBound(s[..|s| - 1]);
    }
  }

  function Pow10(k: nat): (r: nat)
    ensures r >= 1
  {
    if k == 0 then 1 else 10 * Pow10(k - 1)
  }

  /** A numeral cut into its sign, integer digits and fractional digits. */
  datatype Numeral = Numeral(negative: bool, whole: string, fraction: string)

  /** The pieces float.TryParse reads from the numerals the data files hold:
      white space, an optional sign, digits with an optional fractional part,
      and at least one digit. */
  function ReadNumeral(s: string): (r: Option<Numeral>)
    ensures r.Some? ==> AllDigits(r.value.whole) && AllDigits(r.value.fraction)
  {
    var t := SignOf(TrimSet(s, NumberWhite));
    var i := FirstIndexIn(t.body, {'.'});
    var ip := t.body[..i];
    var fp := if i < |t.body| then t.body[i + 1..] else [];
    if AllDigits(ip) && AllDigits(fp) && |ip| + |fp| > 0 then Some(Numeral(t.negative, ip, fp)) else None
  }

  /** float.TryParse, read exactly (no rounding to single precision). */
  function ParseDecimal(s: string): (r: Option<real>)
    ensures r.Some? <==> ReadNumeral(s).Some?
  {
    match ReadNumeral(s)
    case None => None
    case Some(n) => Some(NumeralValue(n))
  }

  /** The number a numeral spells: its digits, its fraction and its sign. */
  function NumeralValue(n: Numeral): real
    requires AllDigits(n.whole) && AllDigits(n.fraction)
  {
    var m := DigitsValue(n.whole) as real + Fraction(n.fraction);
    if n.negative then -m else m
  }

  /** int.ToString() read back as a float gives the same number. */
  lemma ParseDecimalOfInt(n: int)
    ensures ParseDecimal(IntToString(n)) == Some(n as real)
  {
    ReadNumeralOfInt(n);
    IntNumeralValue(n);
  }

  lemma IntNumeralValue(n: int)
    ensures var x := Numeral(n < 0, NatToString(if n < 0 then -n else n), []);
      AllDigits(x.whole) && NumeralValue(x) == n as real
  {
    var x := Numeral(n < 0, NatToString(if n < 0 then -n else n), []);
    var mag: nat := if n < 0 then -n else n;
    NatToStringRoundTrip(mag);
    NoFraction();
    assert DigitsValue(x.whole) == mag && Fraction(x.fraction) == 0.0;
    WholeValue(DigitsValue(x.whole), Fraction(x.fraction), mag);
  }

  lemma WholeValue(d: nat, f: real, mag: nat)
    requires d == mag && f == 0.0
    ensures d as real + f == mag as real
  {
  }

  /** No digits after the point add nothing. */
  lemma NoFraction()
    ensures Fraction([]) == 0.0
  {
    assert DigitsValue([]) == 0;
  }

  lemma ReadNumeralOfInt(n: int)
    ensures ReadNumeral(IntToString(n)) == Some(Numeral(n < 0, NatToString(if n < 0 then -n else n), []))
  {
    var digits := NatToString(if n < 0 then -n else n);
    IntToStringTrimmed(n);
    SignOfIntToString(n);
    NoSeparators(digits, {'.'});
    var t := SignOf(TrimSet(IntToString(n), NumberWhite));
    assert t.body == digits;
    assert FirstIndexIn(digits, {'.'}) == |digits|;
    assert digits[..|digits|] == digits;
  }

  /** A numeral reads as a positive number exactly when it has no minus sign
      and some digit other than zero. */
  lemma ParseDecimalPositive(s: string)
    requires ReadNumeral(s).Some?
    ensures var n := ReadNumeral(s).value;
      ParseDecimal(s).value > 0.0 <==>
        !n.negative && ((exists k :: 0 <= k < |n.whole| && n.whole[k] != '0') ||
                        (exists k :: 0 <= k < |n.fraction| && n.fraction[k] != '0'))
  {
    var n := ReadNumeral(s).value;
    DigitsValuePositive(n.whole);
    DigitsValuePositive(n.fraction);
  }

  lemma {:induction false} DigitsValuePositive(s: string)
    requires AllDigits(s)
    ensures DigitsValue(s) > 0 <==> exists k :: 0 <= k < |s| && s[k] != '0'
    decreases |s|
  {
    if s != [] {
      var p := s[..|s| - 1];
      DigitsValuePositive(p);
      if exists k :: 0 <= k < |p| && p[k] != '0' {
        var k :| 0 <= k < |p| && p[k] != '0';
        assert s[k] == p[k];
      }
      if exists k :: 0 <= k < |s| && s[k] != '0' {
        var k :| 0 <= k < |s| && s[k] != '0';
        if k < |p| { assert p[k] == s[k]; }
      }
    }
  }

  // ---------------------------------------------------------------- digit groups

  /** The end of the run of digits starting at i. */
  function DigitRunEnd(s: string, i: nat): (j: nat)
    requires i <= |s|
    ensures i <= j <= |s|
    ensures forall k :: i <= k < j ==> IsDigit(s[k])
    ensures j < |s| ==> !IsDigit(s[j])
    decreases |s| - i
  {
    if i < |s| && IsDigit(s[i]) then DigitRunEnd(s, i + 1) else i
  }

  /** What may follow the digit group of a pattern: a literal, or the end of the
      input as Python's $ reads it (the very end, or just before a final newline). */
  datatype Tail = Literal(text: string) | EndOfInput

  /** The pattern prefix(\d+)tail: a literal, a greedy group of at least one digit,
      then the tail. */
  datatype Pattern = Pattern(prefix: string, tail: Tail)

  predicate HasAt(s: string, k: nat, lit: string) {
    k + |lit| <= |s| && s[k..k + |lit|] == lit
  }

  predicate TailAt(s: string, j: nat, t: Tail)
    requires j <= |s|
  {
    match t
    case Literal(text) => HasAt(s, j, text)
    case EndOfInput => j == |s| || (j == |s| - 1 && s[j] == '\n')
  }

  /** The pattern matches with its prefix at position k. Greedy \d+ followed by
      something that cannot start with a digit never needs to backtrack, so the
      group is the whole digit run. */
  predicate MatchesAt(s: string, p: Pattern, k: nat) {
    var g := k + |p.prefix|;
    HasAt(s, k, p.prefix) && g < |s| && IsDigit(s[g]) && TailAt(s, DigitRunEnd(s, g), p.tail)
  }

  /** A pattern whose tail cannot start with a digit. */
  predicate WellFormed(p: Pattern) {
    p.tail.Literal? ==> p.tail.text == [] || !IsDigit(p.tail.text[0])
  }

  /** The leftmost match position at or after k. */
  function SearchFrom(s: string, p: Pattern, k: nat): (r: Option<nat>)
    requires k <= |s| + 1
    ensures r.Some? ==> k <= r.value <= |s| && MatchesAt(s, p, r.value)
    ensures forall m :: k <= m <= |s| && (r.None? || m < r.value) ==> !MatchesAt(s, p, m)
    decreases |s| + 1 - k
  {
    if k > |s| then None
    else if MatchesAt(s, p, k) then Some(k)
    else SearchFrom(s, p, k + 1)
  }

  /** re.search / Regex.Match: the digit group of the leftmost match. */
  function Search(s: string, p: Pattern): (r: Option<string>)
    ensures r.Some? <==> exists k :: 0 <= k <= |s| && MatchesAt(s, p, k)
    ensures r.Some? ==> r.value != [] && AllDigits(r.value)
  {
    match SearchFrom(s, p, 0)
    case None => None
    case Some(k) =>
      var g := k + |p.prefix|;
      Some(s[g..DigitRunEnd(s, g)])
  }

  /** Regex.Matches(s, @"\d+"): every maximal run of digits, left to right. */
  function DigitRuns(s: string, from: nat): (r: seq<string>)
    requires from <= |s|
    ensures forall i :: 0 <= i < |r| ==> r[i] != [] && AllDigits(r[i])
    decreases |s| - from
  {
    if from == |s| then []
    else if IsDigit(s[from]) then
      var j := DigitRunEnd(s, from);
      [s[from..j]] + DigitRuns(s, j)
    else DigitRuns(s, from + 1)
  }

  /** There is no digit run exactly when there is no digit. */
  lemma {:induction false} DigitRunsEmpty(s: string, from: nat)
    requires from <= |s|
    ensures DigitRuns(s, from) == [] <==> forall k :: from <= k < |s| ==> !IsDigit(s[k])
    decreases |s| - from
  {
    if from < |s| && !IsDigit(s[from]) {
      DigitRunsEmpty(s, from + 1);
    }
  }

  /** s[i..j] is a whole run of digits: all digits, with no digit just before
      or just after it. */
  predicate MaximalRun(s: string, i: nat, j: nat) {
    i < j <= |s| && (forall k :: i <= k < j ==> IsDigit(s[k]))
    && (i == 0 || !IsDigit(s[i - 1])) && (j == |s| || !IsDigit(s[j]))
  }

  /** Position from does not cut a run of digits in two. */
  predicate AtRunBoundary(s: string, from: nat)
    requires from <= |s|
  {
    from == 0 || from == |s| || !IsDigit(s[from - 1]) || !IsDigit(s[from])
  }

  /** Where the runs lie: pos[i] bounds the i-th run of runs, every run is a
      maximal slice of digits at or after from, the runs follow one another,
      and every digit of s from from on lies in one of them. */
  ghost predicate RunsAt(s: string, from: nat, runs: seq<string>, pos: seq<(nat, nat)>) {
    |pos| == |runs| && RunsMaximal(s, from, runs, pos) && RunsOrdered(pos) && RunsCover(s, from, pos)
  }

  ghost predicate RunsMaximal(s: string, from: nat, runs: seq<string>, pos: seq<(nat, nat)>)
    requires |pos| == |runs|
  {
    forall i :: 0 <= i < |pos| ==>
      from <= pos[i].0 && MaximalRun(s, pos[i].0, pos[i].1) && runs[i] == s[pos[i].0..pos[i].1]
  }

  ghost predicate RunsOrdered(pos: seq<(nat, nat)>) {
    forall i :: 0 <= i < |pos| - 1 ==> pos[i].1 < pos[i + 1].0
  }

  ghost predicate RunsCover(s: string, from: nat, pos: seq<(nat, nat)>) {
    forall k :: from <= k < |s| && IsDigit(s[k]) ==> exists i :: 0 <= i < |pos| && pos[i].0 <= k < pos[i].1
  }

  /** The runs DigitRuns finds are the whole runs of digits of s from position
      from on, left to right: each is a maximal slice of digits, each lies after
      the one before it, and every digit of s lies in one of them. pos gives
      where each run lies. */
  lemma {:induction false} DigitRunsMaximal(s: string, from: nat) returns (pos: seq<(nat, nat)>)
    requires from <= |s| && AtRunBoundary(s, from)
    ensures |pos| == |DigitRuns(s, from)|
    ensures forall i :: 0 <= i < |pos| ==>
      from <= pos[i].0 && MaximalRun(s, pos[i].0, pos[i].1) && DigitRuns(s, from)[i] == s[pos[i].0..pos[i].1]
    ensures forall i :: 0 <= i < |pos| - 1 ==> pos[i].1 < pos[i + 1].0
    ensures forall k :: from <= k < |s| && IsDigit(s[k]) ==> exists i :: 0 <= i < |pos| && pos[i].0 <= k < pos[i].1
    decreases |s| - from
  {
    pos := RunPositions(s, from);
  }

  lemma {:induction false} RunPositions(s: string, from: nat) returns (pos: seq<(nat, nat)>)
    requires from <= |s| && AtRunBoundary(s, from)
    ensures RunsAt(s, from, DigitRuns(s, from), pos)
    decreases |s| - from
  {
    if from == |s| {
      pos := [];
    } else if !IsDigit(s[from]) {
      pos := RunPositions(s, from + 1);
      assert DigitRuns(s, from) == DigitRuns(s, from + 1);
      RunsAtSkip(s, from, DigitRuns(s, from), pos);
    } else {
      var j := DigitRunEnd(s, from);
      var rest := RunPositions(s, j);
      assert DigitRuns(s, from) == [s[from..j]] + DigitRuns(s, j);
      pos := [(from, j)] + rest;
      RunsAtCons(s, from, j, DigitRuns(s, j), rest);
    }
  }

  /** A non-digit at from adds no run. */
  lemma RunsAtSkip(s: string, from: nat, runs: seq<string>, pos: seq<(nat, nat)>)
    requires from < |s| && !IsDigit(s[from])
    requires RunsAt(s, from + 1, runs, pos)
    ensures RunsAt(s, from, runs, pos)
  {
  }

  /** A whole run of digits from from to j comes before the runs after j. */
  lemma RunsAtCons(s: string, from: nat, j: nat, runs: seq<string>, pos: seq<(nat, nat)>)
    requires from < |s| && IsDigit(s[from]) && AtRunBoundary(s, from) && j == DigitRunEnd(s, from)
    requires RunsAt(s, j, runs, pos)
    ensures RunsAt(s, from, [s[from..j]] + runs, [(from, j)] + pos)
  {
    RunsMaximalCons(s, from, j, runs, pos);
    RunsOrderedCons(s, from, j, runs, pos);
    RunsCoverCons(s, from, j, pos);
  }

  lemma RunsMaximalCons(s: string, from: nat, j: nat, runs: seq<string>, pos: seq<(nat, nat)>)
    requires from < |s| && IsDigit(s[from]) && AtRunBoundary(s, from) && j == DigitRunEnd(s, from)
    requires |pos| == |runs| && RunsMaximal(s, j, runs, pos)
    ensures RunsMaximal(s, from, [s[from..j]] + runs, [(from, j)] + pos)
  {
    var runs', pos' := [s[from..j]] + runs, [(from, j)] + pos;
    assert MaximalRun(s, from, j);
    forall i | 0 <= i < |pos'|
      ensures from <= pos'[i].0 && MaximalRun(s, pos'[i].0, pos'[i].1) && runs'[i] == s[pos'[i].0..pos'[i].1]
    {
      if i > 0 {
        assert pos'[i] == pos[i - 1] && runs'[i] == runs[i - 1];
      }
    }
  }

  lemma RunsOrderedCons(s: string, from: nat, j: nat, runs: seq<string>, pos: seq<(nat, nat)>)
    requires from < |s| && j == DigitRunEnd(s, from)
    requires |pos| == |runs| && RunsMaximal(s, j, runs, pos) && RunsOrdered(pos)
    ensures RunsOrdered([(from, j)] + pos)
  {
    var pos' := [(from, j)] + pos;
    forall i | 0 <= i < |pos'| - 1
      ensures pos'[i].1 < pos'[i + 1].0
    {
      if i == 0 {
        assert MaximalRun(s, pos[0].0, pos[0].1);
        assert IsDigit(s[pos[0].0]);
      } else {
        assert pos'[i] == pos[i - 1] && pos'[i + 1] == pos[i];
      }
    }
  }

  lemma RunsCoverCons(s: string, from: nat, j: nat, pos: seq<(nat, nat)>)
    requires from < |s| && j == DigitRunEnd(s, from)
    requires RunsCover(s, j, pos)
    ensures RunsCover(s, from, [(from, j)] + pos)
  {
    var pos' := [(from, j)] + pos;
    forall k | from <= k < |s| && IsDigit(s[k])
      ensures exists i :: 0 <= i < |pos'| && pos'[i].0 <= k < pos'[i].1
    {
      if k < j {
        assert pos'[0].0 <= k < pos'[0].1;
      } else {
        var i :| 0 <= i < |pos| && pos[i].0 <= k < pos[i].1;
        assert pos'[i + 1] == pos[i];
      }
    }
  }

  // ---------------------------------------------------------------- other helpers

  predicate EndsWith(s: string, suffix: string) {
    |suffix| <= |s| && s[|s| - |suffix|..] == suffix
  }

  /** Python str.replace(pat, ''): delete the non-overlapping occurrences of pat,
      scanning left to right. */
  function RemoveAll(s: string, pat: string): (r: string)
    requires pat != []
    ensures |r| <= |s|
    decreases |s|
  {
    if s == [] then []
    else if HasAt(s, 0, pat) then RemoveAll(s[|pat|..], pat)
    else [s[0]] + RemoveAll(s[1..], pat)
  }

  /** Python str.lower() on ASCII letters. */
  function LowerChar(c: char): char {
    if 'A' <= c <= 'Z' then (c as int + 32) as char else c
  }

  function Lower(s: string): (r: string)
    ensures |r| == |s|
    ensures forall k :: 0 <= k < |s| ==> r[k] == LowerChar(s[k])
  {
    seq(|s|, k requires 0 <= k < |s| => LowerChar(s[k]))
  }
}
