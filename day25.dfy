// Day 25: Full of Hot Air. The numbers are written in "SNAFU", balanced
// base 5 with the digits `=`, `-`, `0`, `1`, `2` standing for -2 .. 2. Part A
// adds them column by column from the least significant digit, carrying into
// the next column, and writes the sum in SNAFU again.
module Day25 {
  import opened Common

  const UNREACHABLE: string := "internal error: entered unreachable code"

  // ---------------------------------------------------------------------
  // Digits

  /** `parse_snafu`: the value of one SNAFU digit; any other byte is unreachable. */
  function ParseSnafu(c: char): (r: Result<int>)
    ensures r.Ok? <==> c in "=-012"
    ensures r.Ok? ==> -2 <= r.value <= 2
    ensures r.Err? ==> r.message == UNREACHABLE
  {
    match c
    case '2' => Ok(2)
    case '1' => Ok(1)
    case '0' => Ok(0)
    case '-' => Ok(-1)
    case '=' => Ok(-2)
    case _ => Err(UNREACHABLE)
  }

  /** `format_snafu`: the SNAFU digit of a value; any value outside -2 .. 2 is unreachable. */
  function FormatSnafu(d: int): (r: Result<char>)
    ensures r.Ok? <==> -2 <= d <= 2
    ensures r.Ok? ==> r.value in "=-012"
    ensures r.Err? ==> r.message == UNREACHABLE
  {
    match d
    case 2 => Ok('2')
    case 1 => Ok('1')
    case 0 => Ok('0')
    case -1 => Ok('-')
    case -2 => Ok('=')
    case _ => Err(UNREACHABLE)
  }

  /** Parsing and formatting are inverse to each other between the five digits and -2 .. 2. */
  lemma SnafuInverse(c: char, d: int)
    ensures ParseSnafu(c).Ok? ==> FormatSnafu(ParseSnafu(c).value) == Ok(c)
    ensures -2 <= d <= 2 ==> ParseSnafu(FormatSnafu(d).value) == Ok(d)
  {
  }

  // ---------------------------------------------------------------------
  // Numbers

  /** Every byte of `s` is a SNAFU digit. */
  predicate IsSnafu(s: string)
  {
    forall i | 0 <= i < |s| :: ParseSnafu(s[i]).Ok?
  }

  function Pow5(n: nat): (r: nat)
    ensures r >= 1
  {
    if n == 0 then 1 else 5 * Pow5(n - 1)
  }

  /** The value of a digit; a byte that is not a digit counts 0 here, and `IsSnafu` rules it out where it matters. */
  function Value(c: char): (r: int)
    ensures -2 <= r <= 2
  {
    var d := ParseSnafu(c);
    if d.Ok? then d.value else 0
  }

  /** The value of a SNAFU number: each digit, read from left to right, multiplies the value so far by five and adds itself. */
  function Decimal(s: string): int
  {
    if s == [] then 0 else 5 * Decimal(s[..|s| - 1]) + Value(s[|s| - 1])
  }

  /** The first digit of a number is worth its value times `5` to the number of digits after it. */
  lemma {:induction false} DecimalFront(c: char, s: string)
    ensures Decimal([c] + s) == Value(c) * Pow5(|s|) + Decimal(s)
  {
    if s != [] {
      var init := s[..|s| - 1];
      assert ([c] + s)[..|s|] == [c] + init;
      assert ([c] + s)[|s|] == s[|s| - 1];
      DecimalFront(c, init);
      MulAssociates(Value(c), 5, Pow5(|s| - 1));
    }
  }

  lemma MulAssociates(a: int, b: int, c: int)
    ensures a * (b * c) == b * (a * c)
  {
  }

  /** Column `col`, counted from the least significant digit, is past the end of `s` or a SNAFU digit. */
  predicate ColumnOk(s: string, col: nat)
  {
    col >= |s| || ParseSnafu(s[|s| - 1 - col]).Ok?
  }

  /** The digit of `s` in column `col`, 0 past its end. */
  function DigitAt(s: string, col: nat): (r: int)
    ensures -2 <= r <= 2
  {
    if col >= |s| then 0 else Value(s[|s| - 1 - col])
  }

  /** The value of the low `col` digits of `s`: what its reversed iterator has contributed after `col` columns. */
  function LowValue(s: string, col: nat): int
  {
    if col == 0 then 0 else LowValue(s, col - 1) + DigitAt(s, col - 1) * Pow5(col - 1)
  }

  /** Below its first digit, a number's low digits are those of the number without it. */
  lemma {:induction false} LowValueTail(s: string, col: nat)
    requires col < |s|
    ensures LowValue(s, col) == LowValue(s[1..], col)
  {
    if col > 0 {
      LowValueTail(s, col - 1);
      assert s[|s| - 1 - (col - 1)] == s[1..][|s| - 1 - 1 - (col - 1)];
    }
  }

  /** Past its last column a number has no more digits to contribute. */
  lemma {:induction false} LowValuePast(s: string, col: nat)
    requires |s| <= col
    ensures LowValue(s, col) == LowValue(s, |s|)
  {
    if col > |s| {
      LowValuePast(s, col - 1);
    }
  }

  /** All columns of a number, added up with their weights, give its value. */
  lemma {:induction false} LowValueAll(s: string)
    ensures LowValue(s, |s|) == Decimal(s)
  {
    if s != [] {
      LowValueTail(s, |s| - 1);
      LowValueAll(s[1..]);
      assert DigitAt(s, |s| - 1) == Value(s[0]);
      assert [s[0]] + s[1..] == s;
      DecimalFront(s[0], s[1..]);
    }
  }

  /** The columns below `col` of every number are SNAFU digits. */
  predicate LowValid(input: seq<string>, col: nat)
  {
    forall i, c | 0 <= i < |input| && 0 <= c < col :: ColumnOk(input[i], c)
  }

  /** A column whose digits are all SNAFU extends the low columns checked. */
  lemma LowValidStep(input: seq<string>, col: nat)
    requires LowValid(input, col)
    requires forall i | 0 <= i < |input| :: ColumnOk(input[i], col)
    ensures LowValid(input, col + 1)
  {
  }

  /** `counts[i]` is the number of bytes of `input[i]` left of column `col`. */
  ghost predicate Remaining(input: seq<string>, counts: seq<nat>, col: nat)
  {
    |counts| == |input| && forall i | 0 <= i < |input| :: counts[i] == |input[i]| - Min(col, |input[i]|)
  }

  /** A number whose every column is a SNAFU digit is a SNAFU number. */
  lemma AllColumns(s: string, col: nat)
    requires |s| <= col && forall c | 0 <= c < col :: ColumnOk(s, c)
    ensures IsSnafu(s)
  {
    forall k | 0 <= k < |s|
      ensures ParseSnafu(s[k]).Ok?
    {
      assert ColumnOk(s, |s| - 1 - k);
    }
  }

  // ---------------------------------------------------------------------
  // Sums over the numbers

  /** The sum of the low `col` digits of the first `n` numbers. */
  function LowSum(input: seq<string>, col: nat, n: nat): int
    requires n <= |input|
  {
    if n == 0 then 0 else LowSum(input, col, n - 1) + LowValue(input[n - 1], col)
  }

  /** The sum of the digits in column `col` of the first `n` numbers. */
  function ColumnDigits(input: seq<string>, col: nat, n: nat): (r: int)
    requires n <= |input|
    ensures -2 * n <= r <= 2 * n
  {
    if n == 0 then 0 else ColumnDigits(input, col, n - 1) + DigitAt(input[n - 1], col)
  }

  /** A column past every number holds no digits. */
  lemma {:induction false} ColumnDigitsPast(input: seq<string>, col: nat, n: nat)
    requires n <= |input| && forall i | 0 <= i < |input| :: |input[i]| <= col
    ensures ColumnDigits(input, col, n) == 0
  {
    if n > 0 {
      ColumnDigitsPast(input, col, n - 1);
    }
  }

  /** The sum of the first `n` numbers. */
  function Total(input: seq<string>, n: nat): int
    requires n <= |input|
  {
    if n == 0 then 0 else Total(input, n - 1) + Decimal(input[n - 1])
  }

  /** Before any column the sum of the low digits is 0. */
  lemma {:induction false} LowSumZero(input: seq<string>, n: nat)
    requires n <= |input|
    ensures LowSum(input, 0, n) == 0
  {
    if n > 0 {
      LowSumZero(input, n - 1);
    }
  }

  /** One more column adds the column's digits times `5^col` to the sum of the low digits. */
  lemma {:induction false} LowSumStep(input: seq<string>, col: nat, n: nat)
    requires n <= |input|
    ensures LowSum(input, col + 1, n) == LowSum(input, col, n) + ColumnDigits(input, col, n) * Pow5(col)
  {
    if n > 0 {
      LowSumStep(input, col, n - 1);
      Distributes(ColumnDigits(input, col, n - 1), DigitAt(input[n - 1], col), Pow5(col));
    }
  }

  lemma Distributes(a: int, b: int, p: int)
    ensures (a + b) * p == a * p + b * p
  {
  }

  /** Once every number is used up, the low digits are the whole numbers. */
  lemma {:induction false} LowSumAll(input: seq<string>, col: nat, n: nat)
    requires n <= |input| && forall i | 0 <= i < |input| :: |input[i]| <= col
    ensures LowSum(input, col, n) == Total(input, n)
  {
    if n > 0 {
      LowSumAll(input, col, n - 1);
      LowValuePast(input[n - 1], col);
      LowValueAll(input[n - 1]);
    }
  }

  // ---------------------------------------------------------------------
  // The carry

  /**
   * Lines 30 to 40 of `part_a`: the column's total split into a digit in
   * -2 .. 2 and a carry, using Rust's `/` and `%`, which round toward zero.
   */
  function Balance(acc: int): (r: (int, int))
    ensures -2 <= r.0 <= 2 && r.1 * 5 + r.0 == acc
    ensures acc != 0 ==> Abs(r.1) < Abs(acc)
    ensures acc == 0 ==> r.1 == 0
  {
    var delta := if acc > 2 then 2 else if acc < -2 then -2 else 0;
    var shifted := acc + delta;
    var carry := TruncDiv(shifted, 5);
    (TruncRem(shifted, 5) - delta, carry)
  }

  // ---------------------------------------------------------------------
  // `part_a`

  /**
   * The `for` loop of `part_a`: each number's reversed iterator yields its
   * digit of column `col`, if it has one, and the digit is added to `acc`.
   * `numbers[i]` is how many bytes of number `i` the iterator has left.
   */
  method NextColumn(input: seq<string>, numbers: array<nat>, acc: int, ghost col: nat) returns (r: Result<int>, exhausted: bool)
    requires Remaining(input, numbers[..], col)
    modifies numbers
    ensures r.Ok? <==> forall i | 0 <= i < |input| :: ColumnOk(input[i], col)
    ensures r.Err? ==> r.message == UNREACHABLE
    ensures r.Ok? ==> r.value == acc + ColumnDigits(input, col, |input|)
    ensures r.Ok? ==> (exhausted <==> forall i | 0 <= i < |input| :: |input[i]| <= col)
    ensures r.Ok? ==> Remaining(input, numbers[..], col + 1)
  {
    ghost var initial := numbers[..];
    var sum := acc;
    exhausted := true;
    for i := 0 to numbers.Length
      invariant forall j | 0 <= j < i :: ColumnOk(input[j], col)
      invariant sum == acc + ColumnDigits(input, col, i)
      invariant exhausted <==> forall j | 0 <= j < i :: |input[j]| <= col
      invariant forall j | 0 <= j < i :: numbers[j] == |input[j]| - Min(col + 1, |input[j]|)
      invariant forall j | i <= j < |input| :: numbers[j] == initial[j]
    {
      if numbers[i] == 0 {
        assert |input[i]| <= col && DigitAt(input[i], col) == 0;
        continue;
      }
      numbers[i] := numbers[i] - 1;
      assert numbers[i] == |input[i]| - 1 - col;
      var digit := ParseSnafu(input[i][numbers[i]]);
      if digit.Err? {
        assert !ColumnOk(input[i], col);
        return Err(digit.message), exhausted;
      }
      assert digit.value == DigitAt(input[i], col);
      sum := sum + digit.value;
      exhausted := false;
    }
    r := Ok(sum);
    assert Remaining(input, numbers[..], col + 1);
  }

  /**
   * `part_a`: the numbers added column by column, the digits of the sum
   * pushed to the front. Every byte is a SNAFU digit, or the sum panics;
   * the sum written is a SNAFU number whose value is the total of the
   * numbers, at least as long as each of them.
   */
  method PartA(input: seq<string>) returns (r: Result<string>)
    ensures r.Ok? <==> forall i | 0 <= i < |input| :: IsSnafu(input[i])
    ensures r.Err? ==> r.message == UNREACHABLE
    ensures r.Ok? ==> SumOf(input, r.value)
    ensures r.Ok? ==> forall i | 0 <= i < |input| :: |input[i]| <= |r.value|
  {
    var acc: int := 0;
    var result: string := [];
    var numbers := new nat[|input|](i requires 0 <= i < |input| => |input[i]|);
    ghost var col: nat := 0;
    ghost var longest := MaxLength(input);
    LowSumZero(input, |input|);
    while true
      invariant Remaining(input, numbers[..], col)
      invariant Written(input, col, result, acc)
      decreases Stage(longest, col), Abs(acc)
    {
      ghost var carried := acc;
      var column, exhausted := NextColumn(input, numbers, acc, col);
      if column.Err? {
        NotAllSnafu(input, col);
        return Err(column.message);
      }
      acc := column.value;
      if acc == 0 && exhausted {
        Finished(input, col, result, carried);
        return Ok(result);
      }
      Turn(input, col, result, carried, acc, exhausted, longest);
      var digit, carry := Balance(acc).0, Balance(acc).1;
      result := [FormatSnafu(digit).value] + result;
      acc := carry;
      col := col + 1;
    }
  }

  /** `s` is a SNAFU number worth the total of the numbers. */
  predicate SumOf(input: seq<string>, s: string)
  {
    IsSnafu(s) && Decimal(s) == Total(input, |input|)
  }

  /**
   * The loop's invariant: the digits written so far, plus what is carried
   * into column `col`, are worth the low `col` digits of all the numbers.
   */
  ghost predicate Accounted(input: seq<string>, col: nat, result: string, carried: int)
  {
    Decimal(result) + carried * Pow5(col) == LowSum(input, col, |input|)
  }

  /**
   * All the loop keeps: the low `col` columns are SNAFU digits, `col`
   * SNAFU digits are written, and with the carry they account for the low
   * columns of the numbers.
   */
  ghost predicate Written(input: seq<string>, col: nat, result: string, carried: int)
  {
    LowValid(input, col) && IsSnafu(result) && |result| == col && Accounted(input, col, result, carried)
  }

  /** How many columns are left before the longest number is used up. */
  function Stage(longest: nat, col: nat): nat
  {
    if col < longest then longest - col else 0
  }

  /**
   * One more turn of the loop, when it does not stop: the digit written
   * keeps the result SNAFU, the invariant holds one column up, and the loop
   * comes closer to its end: one column nearer the longest number's end, or
   * past it with a carry that shrinks.
   */
  lemma Turn(input: seq<string>, col: nat, result: string, carried: int, sum: int, exhausted: bool, longest: nat)
    requires Written(input, col, result, carried)
    requires forall i | 0 <= i < |input| :: ColumnOk(input[i], col)
    requires sum == carried + ColumnDigits(input, col, |input|)
    requires exhausted <==> forall i | 0 <= i < |input| :: |input[i]| <= col
    requires forall i | 0 <= i < |input| :: |input[i]| <= longest
    requires sum != 0 || !exhausted
    ensures -2 <= Balance(sum).0 <= 2
    ensures Written(input, col + 1, [FormatSnafu(Balance(sum).0).value] + result, Balance(sum).1)
    ensures Stage(longest, col + 1) < Stage(longest, col)
         || (Stage(longest, col + 1) == Stage(longest, col) && Abs(Balance(sum).1) < Abs(carried))
  {
    var digit, carry := Balance(sum).0, Balance(sum).1;
    CarryStep(input, col, result, digit, carry, carried);
    LowValidStep(input, col);
    if longest <= col {
      ColumnDigitsPast(input, col, |input|);
    }
  }

  /**
   * The loop stops with nothing carried and every number used up: the
   * numbers are SNAFU and the digits written are worth their total.
   */
  lemma Finished(input: seq<string>, col: nat, result: string, carried: int)
    requires forall i | 0 <= i < |input| :: |input[i]| <= col
    requires Written(input, col, result, carried)
    requires carried + ColumnDigits(input, col, |input|) == 0
    ensures forall i | 0 <= i < |input| :: IsSnafu(input[i])
    ensures SumOf(input, result)
    ensures forall i | 0 <= i < |input| :: |input[i]| <= |result|
  {
    ColumnDigitsPast(input, col, |input|);
    LowSumAll(input, col, |input|);
    AllSnafu(input, col);
  }

  /** Once every number is used up, its low digits are all of it. */
  lemma AllSnafu(input: seq<string>, col: nat)
    requires forall i | 0 <= i < |input| :: |input[i]| <= col
    requires LowValid(input, col)
    ensures forall i | 0 <= i < |input| :: IsSnafu(input[i])
  {
    forall i | 0 <= i < |input|
      ensures IsSnafu(input[i])
    {
      AllColumns(input[i], col);
    }
  }

  /** A column digit that is not SNAFU makes some number not SNAFU. */
  lemma NotAllSnafu(input: seq<string>, col: nat)
    requires !forall i | 0 <= i < |input| :: ColumnOk(input[i], col)
    ensures !forall i | 0 <= i < |input| :: IsSnafu(input[i])
  {
    var i :| 0 <= i < |input| && !ColumnOk(input[i], col);
    assert !ParseSnafu(input[i][|input[i]| - 1 - col]).Ok?;
  }

  /** A digit written in front of a SNAFU number keeps it SNAFU. */
  lemma PushFront(result: string, digit: int)
    requires IsSnafu(result) && -2 <= digit <= 2
    ensures IsSnafu([FormatSnafu(digit).value] + result)
    ensures Value(FormatSnafu(digit).value) == digit
  {
    var result' := [FormatSnafu(digit).value] + result;
    SnafuInverse(' ', digit);
    forall i | 0 <= i < |result'|
      ensures ParseSnafu(result'[i]).Ok?
    {
      if i > 0 {
        assert result'[i] == result[i - 1];
      }
    }
  }

  /**
   * One turn of the loop keeps its invariant: with `carry * 5 + digit` the
   * previous carry plus the column's digits, the digit written in front and
   * the carry moved one column up account for the low digits of one more
   * column.
   */
  lemma CarryStep(input: seq<string>, col: nat, result: string, digit: int, carry: int, previous: int)
    requires IsSnafu(result) && |result| == col
    requires Accounted(input, col, result, previous)
    requires -2 <= digit <= 2 && carry * 5 + digit == previous + ColumnDigits(input, col, |input|)
    ensures IsSnafu([FormatSnafu(digit).value] + result)
    ensures Accounted(input, col + 1, [FormatSnafu(digit).value] + result, carry)
  {
    LowSumStep(input, col, |input|);
    PushFront(result, digit);
    DecimalFront(FormatSnafu(digit).value, result);
    assert Pow5(col + 1) == 5 * Pow5(col);
    CarryArithmetic(Decimal(result), Pow5(col), previous, ColumnDigits(input, col, |input|), digit, carry);
  }

  /** The arithmetic of one carry step, over plain integers. */
  lemma CarryArithmetic(low: int, p: int, previous: int, column: int, digit: int, carry: int)
    requires carry * 5 + digit == previous + column
    ensures digit * p + low + carry * (5 * p) == low + previous * p + column * p
  {
    MulAssociates(carry, 5, p);
    Distributes(carry * 5, digit, p);
    Distributes(previous, column, p);
  }

  /** The length of the longest number: no number is longer, and some number is that long unless it is 0. */
  function MaxLength(input: seq<string>): (r: nat)
    ensures forall i | 0 <= i < |input| :: |input[i]| <= r
    ensures r == 0 || exists i | 0 <= i < |input| :: |input[i]| == r
  {
    if input == [] then 0
    else
      var rest := MaxLength(input[1..]);
      assert forall i | 1 <= i < |input| :: input[i] == input[1..][i - 1];
      Max(|input[0]|, rest)
  }
}
