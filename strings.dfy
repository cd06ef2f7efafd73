/** The parts of .NET text handling the four programs rely on: trimming a
    set of characters from both ends, the decimal text of a 32-bit integer
    and its parser, and splitting on a separator. A C# `string` is a
    sequence of UTF-16 code units; here it is a `string` of Dafny chars. */
module Strings {
  import opened Wrappers

  const INT32_MIN: int := -0x8000_0000
  const INT32_MAX: int := 0x7FFF_FFFF

  predicate IsInt32(n: int) {
    INT32_MIN <= n <= INT32_MAX
  }

  /** The characters `char.IsWhiteSpace` accepts, which `string.Trim()` and
      `string.IsNullOrWhiteSpace` drop. */
  const WHITE_SPACE: set<char> := {
    '\t', '\n', '\U{B}', '\U{C}', '\r', ' ', '\U{85}', '\U{A0}', '\U{1680}',
    '\U{2000}', '\U{2001}', '\U{2002}', '\U{2003}', '\U{2004}', '\U{2005}',
    '\U{2006}', '\U{2007}', '\U{2008}', '\U{2009}', '\U{200A}',
    '\U{2028}', '\U{2029}', '\U{202F}', '\U{205F}', '\U{3000}'
  }

  /** The characters `int.Parse` skips before and after the number under
      `NumberStyles.Integer`: U+0009 to U+000D and the space. */
  const NUMBER_WHITE: set<char> := {'\t', '\n', '\U{B}', '\U{C}', '\r', ' '}

  // ---------------------------------------------------------------- Trim

  /** `s.TrimStart(junk)`: `s` without its leading characters from `junk`. */
  function TrimStart(s: string, junk: set<char>): (r: string)
    ensures |r| <= |s| && r == s[|s| - |r|..]
    ensures forall i :: 0 <= i < |s| - |r| ==> s[i] in junk
    ensures r == [] || r[0] !in junk
    decreases |s|
  {
    if s != [] && s[0] in junk then
      var r := TrimStart(s[1..], junk);
      assert forall i :: 1 <= i < |s| - |r| ==> s[i] == s[1..][i - 1];
      r
    else s
  }

  /** `s.TrimEnd(junk)`: `s` without its trailing characters from `junk`. */
  function TrimEnd(s: string, junk: set<char>): (r: string)
    ensures |r| <= |s| && r == s[..|r|]
    ensures forall i :: |r| <= i < |s| ==> s[i] in junk
    ensures r == [] || r[|r| - 1] !in junk
    decreases |s|
  {
    if s != [] && s[|s| - 1] in junk then
      var r := TrimEnd(s[..|s| - 1], junk);
      assert forall i :: |r| <= i < |s| - 1 ==> s[i] == s[..|s| - 1][i];
      r
    else s
  }

  /** `s.Trim(junk)`: `s` without the characters from `junk` at either end. */
  function Trim(s: string, junk: set<char>): (r: string)
    ensures |r| <= |s|
    ensures r == [] || (r[0] !in junk && r[|r| - 1] !in junk)
    ensures var k := |s| - |TrimStart(s, junk)|;
              k + |r| <= |s| && r == s[k..k + |r|]
              && (forall i :: 0 <= i < k ==> s[i] in junk)
              && (forall i :: k + |r| <= i < |s| ==> s[i] in junk)
  {
    var t := TrimStart(s, junk);
    var r := TrimEnd(t, junk);
    TrimmedSlice(s, t, r, junk);
    r
  }

  /** A prefix `r` of a suffix `t` of `s`, with only junk cut off either
      side, is the slice of `s` that starts where `t` does, with only junk
      before and after it in `s`. */
  lemma TrimmedSlice(s: string, t: string, r: string, junk: set<char>)
    requires |t| <= |s| && t == s[|s| - |t|..]
    requires forall i :: 0 <= i < |s| - |t| ==> s[i] in junk
    requires t == [] || t[0] !in junk
    requires |r| <= |t| && r == t[..|r|]
    requires forall i :: |r| <= i < |t| ==> t[i] in junk
    requires r == [] || r[|r| - 1] !in junk
    ensures r == [] || (r[0] !in junk && r[|r| - 1] !in junk)
    ensures var k := |s| - |t|;
            k + |r| <= |s| && r == s[k..k + |r|]
            && (forall i :: 0 <= i < k ==> s[i] in junk)
            && (forall i :: k + |r| <= i < |s| ==> s[i] in junk)
  {
    var k := |s| - |t|;
    forall i | k + |r| <= i < |s|
      ensures s[i] in junk
    {
      assert s[i] == t[i - k];
    }
  }

  /** A text that starts and ends outside `junk` is left as it is. */
  lemma TrimOfClean(s: string, junk: set<char>)
    requires s == [] || (s[0] !in junk && s[|s| - 1] !in junk)
    ensures Trim(s, junk) == s
  {
  }

  /** A string trims to nothing exactly when all of it is junk. */
  lemma TrimEmptyIffBlank(s: string, junk: set<char>)
    ensures Trim(s, junk) == [] <==> forall i :: 0 <= i < |s| ==> s[i] in junk
  {
    var t := TrimStart(s, junk);
    if t != [] {
      var r := TrimEnd(t, junk);
      assert r != [];
      assert s[|s| - |t|] !in junk;
    }
  }

  lemma {:induction false} TrimEndIgnoresPadding(t: string, pad: string, junk: set<char>)
    requires forall i :: 0 <= i < |pad| ==> pad[i] in junk
    ensures TrimEnd(t + pad, junk) == TrimEnd(t, junk)
    decreases |pad|
  {
    if pad == [] {
      assert t + pad == t;
    } else {
      var shorter := pad[..|pad| - 1];
      assert (t + pad)[..|t + pad| - 1] == t + shorter;
      TrimEndIgnoresPadding(t, shorter, junk);
    }
  }

  lemma {:induction false} TrimStartOfConcat(s: string, t: string, junk: set<char>)
    ensures TrimStart(s + t, junk)
         == if TrimStart(s, junk) == [] then TrimStart(t, junk) else TrimStart(s, junk) + t
    decreases |s|
  {
    if s == [] {
      assert s + t == t;
    } else if s[0] in junk {
      assert (s + t)[1..] == s[1..] + t;
      TrimStartOfConcat(s[1..], t, junk);
    }
  }

  /** Characters from `junk` appended to a text do not change what `Trim`
      keeps of it. */
  lemma {:induction false} TrimIgnoresPadding(s: string, pad: string, junk: set<char>)
    requires forall i :: 0 <= i < |pad| ==> pad[i] in junk
    ensures Trim(s + pad, junk) == Trim(s, junk)
  {
    TrimStartOfConcat(s, pad, junk);
    if TrimStart(s, junk) == [] {
      assert TrimStart(pad, junk) == [];
    } else {
      TrimEndIgnoresPadding(TrimStart(s, junk), pad, junk);
    }
  }

  // --------------------------------------------------------- Decimal text

  predicate IsDigit(c: char) {
    '0' <= c <= '9'
  }

  predicate AllDigits(s: string) {
    forall i :: 0 <= i < |s| ==> IsDigit(s[i])
  }

  function DigitChar(d: nat): (c: char)
    requires d < 10
    ensures IsDigit(c) && (c == '0' <==> d == 0)
  {
    (('0' as int) + d) as char
  }

  function DigitValue(c: char): (d: nat)
    requires IsDigit(c)
    ensures d < 10
  {
    (c as int) - ('0' as int)
  }

  function Pow10(k: nat): (p: nat)
    ensures p >= 1
  {
    if k == 0 then 1 else 10 * Pow10(k - 1)
  }

  /** `n.ToString()` for `n >= 0`: the decimal digits of `n`, most
      significant first, with no leading zero. */
  function NatToString(n: nat): (s: string)
    ensures |s| >= 1 && AllDigits(s)
    ensures |s| > 1 ==> s[0] != '0'
    decreases n
  {
    if n < 10 then [DigitChar(n)] else NatToString(n / 10) + [DigitChar(n % 10)]
  }

  /** The number a string of decimal digits denotes. */
  function DigitsValue(s: string): (v: nat)
    requires AllDigits(s)
    decreases |s|
  {
    if s == [] then 0 else 10 * DigitsValue(s[..|s| - 1]) + DigitValue(s[|s| - 1])
  }

  /** Reading back the digits `NatToString` writes gives the number. */
  lemma {:induction false} NatToStringRoundTrip(n: nat)
    ensures DigitsValue(NatToString(n)) == n
    decreases n
  {
    var s := NatToString(n);
    if n >= 10 {
      NatToStringRoundTrip(n / 10);
      assert s[..|s| - 1] == NatToString(n / 10);
    }
  }

  /** A number with exactly `k` significant digits is written with `k`
      characters. */
  lemma {:induction false} NatToStringLength(n: nat, k: nat)
    requires 1 <= k && n < Pow10(k) && (k == 1 || Pow10(k - 1) <= n)
    ensures |NatToString(n)| == k
    decreases k
  {
    if k > 1 {
      assert Pow10(k) == 10 * Pow10(k - 1);
      if k > 2 {
        assert Pow10(k - 1) == 10 * Pow10(k - 2);
      }
      NatToStringLength(n / 10, k - 1);
    }
  }

  /** `n.ToString()` for an `int` (invariant culture): a minus sign before
      the digits of a negative number. */
  function IntToString(n: int): (s: string)
    ensures |s| >= 1 && (n < 0 <==> s[0] == '-')
    ensures forall i :: 0 <= i < |s| ==> IsDigit(s[i]) || (i == 0 && s[i] == '-')
  {
    if n < 0 then "-" + NatToString(-n) else NatToString(n)
  }

  /** `int.Parse(s)` and `int.TryParse(s, out _)` under `NumberStyles.Integer`:
      optional white space, an optional `+` or `-`, one or more decimal
      digits, optional white space, with a value that fits an Int32. `None`
      is where `int.Parse` throws a FormatException or an OverflowException
      (and `int.TryParse` returns false). */
  function ParseInt32(s: string): (r: Option<int>)
    ensures r.Some? ==> IsInt32(r.value)
  {
    var t := Trim(s, NUMBER_WHITE);
    var negative := |t| > 0 && t[0] == '-';
    var digits := if |t| > 0 && (t[0] == '-' || t[0] == '+') then t[1..] else t;
    if digits == [] || !AllDigits(digits) then None
    else
      var magnitude: int := DigitsValue(digits);
      var v := if negative then -magnitude else magnitude;
      if IsInt32(v) then Some(v) else None
  }

  /** A string made of an optional minus sign and decimal digits, with no
      white space around it, parses to the value of its digits, negated
      after a minus sign, when that value fits an Int32. */
  lemma ParseSignedDigits(s: string, negative: bool, digits: string)
    requires digits != [] && AllDigits(digits)
    requires s == if negative then "-" + digits else digits
    requires IsInt32(if negative then -(DigitsValue(digits) as int) else DigitsValue(digits))
    ensures ParseInt32(s) == Some(if negative then -(DigitsValue(digits) as int) else DigitsValue(digits))
  {
    assert s[|s| - 1] == digits[|digits| - 1];
    assert Trim(s, NUMBER_WHITE) == s by {
      TrimOfClean(s, NUMBER_WHITE);
    }
    if negative {
      assert s[0] == '-' && s[1..] == digits;
    } else {
      assert s[0] == digits[0] && IsDigit(digits[0]);
    }
  }

  /** Parsing the text `IntToString` writes gives back every Int32,
      negative ones included. */
  lemma ParseIntToString(n: int)
    requires IsInt32(n)
    ensures ParseInt32(IntToString(n)) == Some(n)
  {
    var m: nat := if n < 0 then -n else n;
    NatToStringRoundTrip(m);
    ParseSignedDigits(IntToString(n), n < 0, NatToString(m));
  }

  // ---------------------------------------------------------------- Split

  /** `string.Join(separator, parts)`. */
  function Join(parts: seq<string>, separator: char): (s: string)
    decreases |parts|
  {
    if parts == [] then ""
    else if |parts| == 1 then parts[0]
    else parts[0] + [separator] + Join(parts[1..], separator)
  }

  /** `s.Split(separator)`: the pieces between the occurrences of
      `separator`, empty pieces included, in order. */
  function Split(s: string, separator: char): (parts: seq<string>)
    ensures |parts| >= 1
    ensures forall i :: 0 <= i < |parts| ==> separator !in parts[i]
    decreases |s|
  {
    if s == [] then [""]
    else
      var rest := Split(s[1..], separator);
      if s[0] == separator then [""] + rest
      else [[s[0]] + rest[0]] + rest[1..]
  }

  /** Joining the pieces again with the separator gives back the text. */
  lemma {:induction false} SplitJoinRoundTrip(s: string, separator: char)
    ensures Join(Split(s, separator), separator) == s
    decreases |s|
  {
    if s != [] {
      var rest := Split(s[1..], separator);
      SplitJoinRoundTrip(s[1..], separator);
      var parts := Split(s, separator);
      if s[0] == separator {
        assert parts[1..] == rest;
      } else if |rest| > 1 {
        assert parts[1..] == rest[1..];
      }
    }
  }

  /** A text without the separator is a single piece. */
  lemma {:induction false} SplitWithout(s: string, separator: char)
    requires separator !in s
    ensures Split(s, separator) == [s]
    decreases |s|
  {
    if s != [] {
      SplitWithout(s[1..], separator);
      assert [s[0]] + s[1..] == s;
    }
  }

  /** A separator-free piece, the separator, and anything after it: the
      piece comes out first, then the pieces of the rest. */
  lemma {:induction false} SplitAfterPiece(a: string, separator: char, b: string)
    requires separator !in a
    ensures Split(a + [separator] + b, separator) == [a] + Split(b, separator)
    decreases |a|
  {
    var s := a + [separator] + b;
    if a == [] {
      assert s[1..] == b;
    } else {
      assert s[1..] == a[1..] + [separator] + b;
      SplitAfterPiece(a[1..], separator, b);
      assert [s[0]] + a[1..] == a;
    }
  }
}
