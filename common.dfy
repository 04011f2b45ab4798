/**
 * Shared vocabulary of the puzzle solvers: optional and fallible results,
 * Rust's parsing of decimal numbers, the string splitting helpers the
 * solvers use on their input lines, and Rust's truncating integer division.
 */
module Common {

  datatype Option<+T> = None | Some(value: T)

  /** The `anyhow::Result` of a solver: a value, or an error with a message. */
  datatype Result<+T> = Ok(value: T) | Err(message: string)

  const U8_MAX: nat := 0xFF
  const U16_MAX: nat := 0xFFFF
  const USIZE_MAX: nat := 0xFFFF_FFFF_FFFF_FFFF
  const U64_MODULUS: nat := 0x1_0000_0000_0000_0000
  const ISIZE_MIN: int := -0x8000_0000_0000_0000
  const ISIZE_MAX: int := 0x7FFF_FFFF_FFFF_FFFF

  /** Rust's `usize::saturating_add`. */
  function SaturatingAdd(a: nat, b: nat): (r: nat)
    requires a <= USIZE_MAX && b <= USIZE_MAX
    ensures r <= USIZE_MAX
    ensures r == a + b || (r == USIZE_MAX && a + b > USIZE_MAX)
  {
    if a + b > USIZE_MAX then USIZE_MAX else a + b
  }

  // ---------------------------------------------------------------------
  // Decimal numbers

  predicate IsDigit(c: char) { '0' <= c <= '9' }

  predicate AllDigits(s: string) { forall i | 0 <= i < |s| :: IsDigit(s[i]) }

  function DigitValue(c: char): nat
    requires IsDigit(c)
  {
    c as nat - '0' as nat
  }

  function DigitChar(d: nat): (c: char)
    requires d < 10
    ensures IsDigit(c) && DigitValue(c) == d
  {
    ('0' as nat + d) as char
  }

  /** The value of a run of decimal digits, most significant first. */
  function DigitsValue(s: string): nat
    requires AllDigits(s)
  {
    if s == [] then 0 else 10 * DigitsValue(s[..|s| - 1]) + DigitValue(s[|s| - 1])
  }

  /** The digits of `s` once an optional leading sign character `sign` is dropped. */
  function DropSign(s: string, sign: char): string
  {
    if |s| > 0 && s[0] == sign then s[1..] else s
  }

  /**
   * Rust's `str::parse` for an unsigned integer type whose largest value is
   * `max`: an optional '+', then one or more ASCII digits whose value fits.
   */
  function ParseUnsigned(s: string, max: nat): (r: Option<nat>)
    ensures r.Some? <==> (var d := DropSign(s, '+'); |d| > 0 && AllDigits(d) && DigitsValue(d) <= max)
    ensures r.Some? ==> r.value <= max && r.value == DigitsValue(DropSign(s, '+'))
  {
    var d := DropSign(s, '+');
    if |d| > 0 && AllDigits(d) && DigitsValue(d) <= max then Some(DigitsValue(d)) else None
  }

  /** `str::parse::<usize>()`. */
  function ParseUsize(s: string): Option<nat> { ParseUnsigned(s, USIZE_MAX) }

  /**
   * Rust's `str::parse` for a signed integer type with range `min..=max`:
   * an optional '-' or '+', then one or more digits whose signed value fits.
   */
  function ParseSigned(s: string, min: int, max: int): (r: Option<int>)
    ensures r.Some? ==> min <= r.value <= max
    ensures |s| > 0 && s[0] == '-' && r.Some? ==> AllDigits(s[1..]) && r.value == -(DigitsValue(s[1..]) as int)
  {
    if |s| > 0 && s[0] == '-' then
      var d := s[1..];
      if |d| > 0 && AllDigits(d) && min <= -(DigitsValue(d) as int) <= max then Some(-(DigitsValue(d) as int)) else None
    else
      var d := DropSign(s, '+');
      if |d| > 0 && AllDigits(d) && min <= DigitsValue(d) <= max then Some(DigitsValue(d) as int) else None
  }

  /** `str::parse::<isize>()`. */
  function ParseIsize(s: string): Option<int> { ParseSigned(s, ISIZE_MIN, ISIZE_MAX) }

  /** The decimal text of `n`, as Rust's `Display` writes it. */
  function NatToString(n: nat): (s: string)
    ensures |s| > 0 && AllDigits(s)
  {
    if n < 10 then [DigitChar(n)] else NatToString(n / 10) + [DigitChar(n % 10)]
  }

  lemma {:induction false} NatToStringValue(n: nat)
    ensures DigitsValue(NatToString(n)) == n
  {
    var s := NatToString(n);
    if n >= 10 {
      NatToStringValue(n / 10);
      assert s[..|s| - 1] == NatToString(n / 10);
    }
  }

  /** Printing a number and parsing it back gives the number. */
  lemma ParseNatToString(n: nat, max: nat)
    requires n <= max
    ensures ParseUnsigned(NatToString(n), max) == Some(n)
  {
    NatToStringValue(n);
    assert DropSign(NatToString(n), '+') == NatToString(n);
  }

  // ---------------------------------------------------------------------
  // Splitting strings

  /** `str::split_once(c)`: the text before and after the first `c`. */
  function SplitOnce(s: string, c: char): (r: Option<(string, string)>)
    ensures r.None? <==> c !in s
    ensures r.Some? ==> s == r.value.0 + [c] + r.value.1 && c !in r.value.0
  {
    if s == [] then None
    else if s[0] == c then Some(([], s[1..]))
    else match SplitOnce(s[1..], c)
      case None => None
      case Some((a, b)) =>
        assert s == [s[0]] + s[1..];
        Some(([s[0]] + a, b))
  }

  /** A number written in decimal holds no separator that is not a digit. */
  lemma NoSeparatorInNumber(n: nat, c: char)
    requires !IsDigit(c)
    ensures c !in NatToString(n)
  {
  }

  /** Splitting `a + [c] + b` at the first `c` gives `a` and `b` when `a` has no `c`. */
  lemma {:induction false} SplitAtFirst(a: string, c: char, b: string)
    requires c !in a
    ensures SplitOnce(a + [c] + b, c) == Some((a, b))
  {
    if a != [] {
      SplitAtFirst(a[1..], c, b);
      assert (a + [c] + b)[1..] == a[1..] + [c] + b;
      assert [a[0]] + a[1..] == a;
    } else {
      assert (a + [c] + b)[1..] == b;
    }
  }

  /** The decimal text of `n`, with a leading '-' when it is negative. */
  function IntToString(n: int): (s: string)
    ensures |s| > 0
  {
    if n < 0 then "-" + NatToString(-n) else NatToString(n)
  }

  /** Printing an integer in range and parsing it back gives the integer. */
  lemma ParseIntToString(n: int, min: int, max: int)
    requires min <= n <= max
    ensures ParseSigned(IntToString(n), min, max) == Some(n)
  {
    if n < 0 {
      NatToStringValue(-n);
      assert IntToString(n)[1..] == NatToString(-n);
    } else {
      NatToStringValue(n);
      assert IsDigit(NatToString(n)[0]);
      assert DropSign(NatToString(n), '+') == NatToString(n);
    }
  }

  /** No separator other than a digit or '-' occurs in a printed integer. */
  lemma NoSeparatorInInt(n: int, c: char)
    requires !IsDigit(c) && c != '-'
    ensures c !in IntToString(n)
  {
    if n < 0 {
      NoSeparatorInNumber(-n, c);
    } else {
      NoSeparatorInNumber(n, c);
    }
  }

  // ---------------------------------------------------------------------
  // Collecting parse results

  /** Each text parsed in turn: all the values, or the error of the first that fails. */
  function ParseEach<T>(texts: seq<string>, parse: string -> Result<T>): (r: Result<seq<T>>)
    ensures r.Ok? ==> |r.value| == |texts|
  {
    if texts == [] then Ok([])
    else
      var n := |texts| - 1;
      match ParseEach(texts[..n], parse)
      case Err(e) => Err(e)
      case Ok(values) =>
        match parse(texts[n])
        case Err(e) => Err(e)
        case Ok(v) => Ok(values + [v])
  }

  /** The texts parse exactly when each of them does, each to its own value. */
  lemma {:induction false} ParseEachOk<T>(texts: seq<string>, parse: string -> Result<T>)
    ensures ParseEach(texts, parse).Ok? <==> forall k | 0 <= k < |texts| :: parse(texts[k]).Ok?
    ensures ParseEach(texts, parse).Ok? ==>
      forall k | 0 <= k < |texts| :: parse(texts[k]) == Ok(ParseEach(texts, parse).value[k])
  {
    if texts != [] {
      var n := |texts| - 1;
      var prefix := texts[..n];
      ParseEachOk(prefix, parse);
      match ParseEach(prefix, parse)
      case Err(_) =>
        var k :| 0 <= k < n && !parse(prefix[k]).Ok?;
        assert prefix[k] == texts[k];
      case Ok(values) =>
        match parse(texts[n])
        case Err(_) =>
        case Ok(v) =>
          forall k | 0 <= k < |texts|
            ensures parse(texts[k]) == Ok((values + [v])[k])
          {
            if k < n {
              assert prefix[k] == texts[k];
            }
          }
    }
  }

  /** Parsing one more text after a prefix that parses. */
  lemma ParseEachStep<T>(texts: seq<string>, parse: string -> Result<T>, k: nat, values: seq<T>)
    requires k < |texts| && ParseEach(texts[..k], parse) == Ok(values)
    ensures ParseEach(texts[..k + 1], parse)
      == match parse(texts[k]) case Err(e) => Err(e) case Ok(v) => Ok(values + [v])
  {
    assert texts[..k + 1][..k] == texts[..k];
  }

  /** Once a prefix of the texts fails, the whole fails with the same error. */
  lemma {:induction false} ParseEachSticky<T>(texts: seq<string>, parse: string -> Result<T>, j: nat)
    requires j <= |texts| && ParseEach(texts[..j], parse).Err?
    ensures ParseEach(texts, parse) == ParseEach(texts[..j], parse)
    decreases |texts|
  {
    if j < |texts| {
      var n := |texts| - 1;
      assert texts[..n][..j] == texts[..j];
      ParseEachSticky(texts[..n], parse, j);
    } else {
      assert texts[..j] == texts;
    }
  }

  predicate IsAsciiWhitespace(c: char)
  {
    c == ' ' || c == '\t' || c == '\n' || c == '\r' || c == '\U{000C}'
  }

  /** The length of the longest prefix of `s` without ASCII whitespace. */
  function WordLength(s: string): (n: nat)
    ensures n <= |s|
    ensures forall i | 0 <= i < n :: !IsAsciiWhitespace(s[i])
    ensures n < |s| ==> IsAsciiWhitespace(s[n])
  {
    if s == [] || IsAsciiWhitespace(s[0]) then 0 else 1 + WordLength(s[1..])
  }

  /** `str::split_ascii_whitespace()`: the maximal runs of non-whitespace. */
  function Words(s: string): (w: seq<string>)
    ensures forall k | 0 <= k < |w| :: |w[k]| > 0
    decreases |s|
  {
    if s == [] then []
    else if IsAsciiWhitespace(s[0]) then Words(s[1..])
    else
      var n := WordLength(s);
      [s[..n]] + Words(s[n..])
  }

  /** A word followed by whitespace or nothing is read whole. */
  lemma {:induction false} WordLengthPrefix(w: string, rest: string)
    requires forall i | 0 <= i < |w| :: !IsAsciiWhitespace(w[i])
    requires rest == [] || IsAsciiWhitespace(rest[0])
    ensures WordLength(w + rest) == |w|
  {
    if w != [] {
      assert (w + rest)[1..] == w[1..] + rest;
      WordLengthPrefix(w[1..], rest);
    }
  }

  /** A non-empty word and then whitespace or nothing: that word is the first of the words. */
  lemma WordsPrefix(w: string, rest: string)
    requires |w| > 0 && forall i | 0 <= i < |w| :: !IsAsciiWhitespace(w[i])
    requires rest == [] || IsAsciiWhitespace(rest[0])
    ensures Words(w + rest) == [w] + Words(rest)
  {
    WordLengthPrefix(w, rest);
    assert (w + rest)[..|w|] == w && (w + rest)[|w|..] == rest;
  }

  /** A non-empty word, a space and more text: that word and then the words of the rest. */
  lemma WordsSpace(w: string, rest: string)
    requires |w| > 0 && forall i | 0 <= i < |w| :: !IsAsciiWhitespace(w[i])
    ensures Words(w + (" " + rest)) == [w] + Words(rest)
  {
    WordsPrefix(w, " " + rest);
    assert (" " + rest)[1..] == rest;
  }

  /** Words joined by single spaces. */
  function Spaced(words: seq<string>): string
    requires |words| > 0
  {
    if |words| == 1 then words[0] else words[0] + (" " + Spaced(words[1..]))
  }

  /** Non-empty words without whitespace, joined by spaces, split back into themselves. */
  lemma {:induction false} WordsSpaced(words: seq<string>)
    requires |words| > 0
    requires forall k | 0 <= k < |words| :: |words[k]| > 0 && forall i | 0 <= i < |words[k]| :: !IsAsciiWhitespace(words[k][i])
    ensures Words(Spaced(words)) == words
  {
    if |words| == 1 {
      WordsPrefix(words[0], "");
      assert words[0] + "" == words[0];
    } else {
      WordsSpaced(words[1..]);
      WordsSpace(words[0], Spaced(words[1..]));
    }
  }

  // ---------------------------------------------------------------------
  // Arithmetic as Rust does it

  function Abs(x: int): nat { if x < 0 then -x else x }

  function Signum(x: int): int { if x < 0 then -1 else if x > 0 then 1 else 0 }

  /** Rust's `/` on signed integers: rounds toward zero. */
  function TruncDiv(a: int, b: int): int
    requires b != 0
  {
    var q := Abs(a) / Abs(b);
    if (a < 0) == (b < 0) then q else -q
  }

  /** Rust's `%` on signed integers: the remainder takes the sign of `a`. */
  function TruncRem(a: int, b: int): (r: int)
    requires b != 0
    ensures a == b * TruncDiv(a, b) + r
    ensures Abs(r) < Abs(b)
    ensures a >= 0 ==> r >= 0
    ensures a <= 0 ==> r <= 0
  {
    var r := Abs(a) % Abs(b);
    if a < 0 then -r else r
  }

  // ---------------------------------------------------------------------
  // Sequences

  /** `Iterator::rev` collected: the elements back to front. */
  function Reverse<T>(s: seq<T>): (r: seq<T>)
    ensures |r| == |s|
    ensures forall i | 0 <= i < |s| :: r[i] == s[|s| - 1 - i]
  {
    if s == [] then [] else [s[|s| - 1]] + Reverse(s[..|s| - 1])
  }

  lemma {:induction false} ReverseMultiset<T>(s: seq<T>)
    ensures multiset(Reverse(s)) == multiset(s)
  {
    if s != [] {
      ReverseMultiset(s[..|s| - 1]);
      assert s == s[..|s| - 1] + [s[|s| - 1]];
    }
  }

  function Sum(s: seq<nat>): nat
  {
    if s == [] then 0 else Sum(s[..|s| - 1]) + s[|s| - 1]
  }

  /** Replacing one element changes the sum by the difference. */
  lemma {:induction false} SumUpdate(s: seq<nat>, j: nat, v: nat)
    requires j < |s|
    ensures Sum(s[j := v]) + s[j] == Sum(s) + v
  {
    var k := |s| - 1;
    if j < k {
      SumUpdate(s[..k], j, v);
      assert s[j := v][..k] == s[..k][j := v];
    } else {
      assert s[j := v][..k] == s[..k];
    }
  }

  /** A product of naturals is a natural; stated apart so that callers stay linear. */
  lemma MulNat(a: nat, b: nat)
    ensures a * b >= 0
  {
  }

  function Max(a: int, b: int): int { if a < b then b else a }

  function Min(a: int, b: int): int { if a < b then a else b }
}
