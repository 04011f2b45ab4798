/**
 * Day 13: pairs of packets, each a number or a bracketed list of
 * packets. A pair is in the right order when the left packet compares
 * less; the answer sums the 1-based indices of the pairs in order.
 */
module Day13 {
  import opened Common

  /** `Item`: a packet. */
  datatype Item = Number(value: nat) | List(items: seq<Item>)

  // ---------------------------------------------------------------------
  // Comparison

  /** `compare_numbers`: `Some(true)` when less, nothing when equal, `Some(false)` when greater. */
  function CompareNumbers(left: nat, right: nat): (r: Option<bool>)
    ensures r == Some(true) <==> left < right
    ensures r == None <==> left == right
    ensures r == Some(false) <==> left > right
  {
    if left < right then Some(true) else if left == right then None else Some(false)
  }

  /** The number of nodes of a packet; the comparison recurses on their sum. */
  function Size(item: Item): nat
    decreases item
  {
    match item
    case Number(_) => 1
    case List(items) => 1 + SizeOf(items)
  }

  function SizeOf(items: seq<Item>): nat
    decreases items
  {
    if items == [] then 0 else Size(items[0]) + SizeOf(items[1..])
  }

  /**
   * `compare_items`: two numbers compare as numbers; a number meeting a
   * list is wrapped in a one-element list.
   */
  function CompareItems(left: Item, right: Item): Option<bool>
    decreases Size(left) + Size(right), 0
  {
    match (left, right)
    case (Number(l), Number(r)) => CompareNumbers(l, r)
    case (Number(l), List(r)) =>
      assert SizeOf([Number(l)]) == 1 by { assert [Number(l)][1..] == []; }
      CompareLists([Number(l)], r)
    case (List(l), Number(r)) =>
      assert SizeOf([Number(r)]) == 1 by { assert [Number(r)][1..] == []; }
      CompareLists(l, [Number(r)])
    case (List(l), List(r)) => CompareLists(l, r)
  }

  /** `find_map` over the zipped lists: the first pair that decides, if any. */
  function FirstDecided(left: seq<Item>, right: seq<Item>): Option<bool>
    decreases SizeOf(left) + SizeOf(right), 1
  {
    if left == [] || right == [] then None
    else match CompareItems(left[0], right[0])
      case Some(b) => Some(b)
      case None => FirstDecided(left[1..], right[1..])
  }

  /** `compare_lists`: the first deciding pair, or else the lengths. */
  function CompareLists(left: seq<Item>, right: seq<Item>): Option<bool>
    decreases SizeOf(left) + SizeOf(right), 2
  {
    match FirstDecided(left, right)
    case Some(b) => Some(b)
    case None => CompareNumbers(|left|, |right|)
  }

  /**
   * The zipped search decides at the first position whose pair decides,
   * and is undecided when no pair within the shorter list decides.
   */
  lemma {:induction false} FirstDecidedAt(left: seq<Item>, right: seq<Item>)
    ensures FirstDecided(left, right).None? <==>
      forall k | 0 <= k < |left| && k < |right| :: CompareItems(left[k], right[k]).None?
    ensures FirstDecided(left, right).Some? ==> exists k | 0 <= k < |left| && k < |right| ::
      (forall j | 0 <= j < k :: CompareItems(left[j], right[j]).None?) && CompareItems(left[k], right[k]) == FirstDecided(left, right)
    decreases |left|
  {
    if left != [] && right != [] && CompareItems(left[0], right[0]).None? {
      FirstDecidedAt(left[1..], right[1..]);
      if FirstDecided(left, right).Some? {
        var k :| 0 <= k < |left| - 1 && k < |right| - 1 &&
          (forall j | 0 <= j < k :: CompareItems(left[1..][j], right[1..][j]).None?) &&
          CompareItems(left[1..][k], right[1..][k]) == FirstDecided(left, right);
        assert CompareItems(left[k + 1], right[k + 1]) == FirstDecided(left, right);
        assert forall j | 0 <= j < k + 1 :: CompareItems(left[j], right[j]).None? by {
          forall j | 0 <= j < k + 1
            ensures CompareItems(left[j], right[j]).None?
          {
            if j > 0 {
              assert left[j] == left[1..][j - 1] && right[j] == right[1..][j - 1];
            }
          }
        }
      } else {
        forall k | 0 <= k < |left| && k < |right|
          ensures CompareItems(left[k], right[k]).None?
        {
          if k > 0 {
            assert left[k] == left[1..][k - 1] && right[k] == right[1..][k - 1];
          }
        }
      }
    }
  }

  /** A decision read the other way round. */
  function Flip(o: Option<bool>): (r: Option<bool>)
    ensures r.None? <==> o.None?
    ensures r.Some? ==> r.value == !o.value
  {
    match o
    case Some(b) => Some(!b)
    case None => None
  }

  /** Swapping the packets flips the decision: `Some(true)` one way is `Some(false)` the other. */
  lemma {:induction false} CompareItemsSwap(left: Item, right: Item)
    ensures CompareItems(right, left) == Flip(CompareItems(left, right))
    decreases Size(left) + Size(right), 0
  {
    match (left, right)
    case (Number(l), Number(r)) =>
    case (Number(l), List(r)) =>
      assert SizeOf([Number(l)]) == 1 by { assert [Number(l)][1..] == []; }
      CompareListsSwap([Number(l)], r);
    case (List(l), Number(r)) =>
      assert SizeOf([Number(r)]) == 1 by { assert [Number(r)][1..] == []; }
      CompareListsSwap(l, [Number(r)]);
    case (List(l), List(r)) =>
      CompareListsSwap(l, r);
  }

  lemma {:induction false} FirstDecidedSwap(left: seq<Item>, right: seq<Item>)
    ensures FirstDecided(right, left) == Flip(FirstDecided(left, right))
    decreases SizeOf(left) + SizeOf(right), 1
  {
    if left != [] && right != [] {
      CompareItemsSwap(left[0], right[0]);
      FirstDecidedSwap(left[1..], right[1..]);
    }
  }

  lemma {:induction false} CompareListsSwap(left: seq<Item>, right: seq<Item>)
    ensures CompareLists(right, left) == Flip(CompareLists(left, right))
    decreases SizeOf(left) + SizeOf(right), 2
  {
    FirstDecidedSwap(left, right);
  }

  /** A packet is never less than itself, nor greater: the comparison leaves it undecided. */
  lemma {:induction false} CompareItemsSame(item: Item)
    ensures CompareItems(item, item) == None
    decreases Size(item), 0
  {
    match item
    case Number(_) =>
    case List(items) =>
      FirstDecidedSame(items);
  }

  lemma {:induction false} FirstDecidedSame(items: seq<Item>)
    ensures FirstDecided(items, items) == None
    decreases SizeOf(items), 1
  {
    if items != [] {
      CompareItemsSame(items[0]);
      FirstDecidedSame(items[1..]);
    }
  }

  /** A number compared with a list compares as the list holding just that number. */
  lemma NumberAsList(n: nat, item: Item)
    ensures CompareItems(Number(n), item) == CompareItems(List([Number(n)]), item)
    ensures CompareItems(item, Number(n)) == CompareItems(item, List([Number(n)]))
  {
    match item
    case Number(m) =>
      assert FirstDecided([Number(n)], [Number(m)]) == CompareNumbers(n, m);
      assert FirstDecided([Number(m)], [Number(n)]) == CompareNumbers(m, n);
    case List(_) =>
  }

  // ---------------------------------------------------------------------
  // Parsing

  /** What parsing can come to: a value, the `Unexpected end of input` error, or a `u8` overflow (a panic). */
  datatype Outcome<T> = Done(value: T) | EndOfInput | Overflow

  /**
   * `parse` on the bytes still to come: the packet and what is left.
   * `[` starts a list; any other byte starts a number, its value the
   * byte minus `0` followed by a run of digits, in `u8` arithmetic.
   */
  function ParseItem(s: string): (r: Outcome<(Item, string)>)
    ensures r.EndOfInput? <==> s == []
    ensures r.Done? ==> |r.value.1| < |s|
    decreases |s|, 0
  {
    if s == [] then EndOfInput
    else if s[0] == '[' then
      match ParseItems(s[1..], [])
      case Done((items, rest)) => Done((List(items), if rest == [] then [] else rest[1..]))
      case _ => Overflow
    else if s[0] < '0' then Overflow
    else ParseNumber(s[1..], s[0] as nat - '0' as nat)
  }

  /** The digits after the first byte of a number: `number = 10 * number + byte - b'0'`, each step within `u8`. */
  function ParseNumber(s: string, number: nat): (r: Outcome<(Item, string)>)
    ensures r.Done? ==> |r.value.1| <= |s|
    ensures !r.EndOfInput?
    decreases |s|
  {
    if s != [] && IsDigit(s[0]) then
      if 10 * number + s[0] as nat > U8_MAX then Overflow
      else ParseNumber(s[1..], 10 * number + s[0] as nat - '0' as nat)
    else Done((Number(number), s))
  }

  /**
   * The loop over a list's items: until `]` or the end, parse an item and
   * skip one comma after it. What is left starts with `]`, or is empty.
   */
  function ParseItems(s: string, items: seq<Item>): (r: Outcome<(seq<Item>, string)>)
    ensures !r.EndOfInput?
    ensures r.Done? ==> |r.value.1| <= |s| && (r.value.1 == [] || r.value.1[0] == ']')
    decreases |s|, 1
  {
    if s != [] && s[0] != ']' then
      match ParseItem(s)
      case Done((item, rest)) =>
        ParseItems(if rest != [] && rest[0] == ',' then rest[1..] else rest, items + [item])
      case _ => Overflow
    else Done((items, s))
  }

  /** `Peekable<Bytes>`: the bytes of a line still to be read. */
  class Bytes {
    var rest: string

    constructor(s: string)
      ensures rest == s
    {
      rest := s;
    }

    /** `peek`: the next byte, not consumed. */
    function Peek(): (r: Option<char>)
      reads this
      ensures r.None? <==> rest == []
      ensures r.Some? ==> r.value == rest[0]
    {
      if rest == [] then None else Some(rest[0])
    }

    /** `next`: the next byte, consumed. */
    method Next() returns (c: Option<char>)
      modifies this
      ensures c == old(Peek())
      ensures rest == if old(rest) == [] then [] else old(rest)[1..]
    {
      if rest == [] {
        c := None;
      } else {
        c := Some(rest[0]);
        rest := rest[1..];
      }
    }
  }

  /**
   * `parse`: reads one packet from the iterator. The source panics on a
   * `u8` overflow, so callers must rule one out.
   */
  method Parse(input: Bytes) returns (r: Result<Item>)
    modifies input
    requires !ParseItem(input.rest).Overflow?
    ensures ParseItem(old(input.rest)).Done? ==>
      r == Ok(ParseItem(old(input.rest)).value.0) && input.rest == ParseItem(old(input.rest)).value.1
    ensures ParseItem(old(input.rest)).EndOfInput? ==> r.Err?
    decreases |input.rest|
  {
    var next := input.Next();
    if next.None? {
      return Err("Unexpected end of input");
    }
    if next.value == '[' {
      var items: seq<Item> := [];
      ghost var start := input.rest;
      while input.Peek().Some? && input.Peek().value != ']'
        invariant ParseItems(input.rest, items) == ParseItems(start, [])
        invariant |input.rest| <= |start|
        decreases |input.rest|
      {
        var item := Parse(input);
        items := items + [item.value];
        if input.Peek() == Some(',') {
          var _ := input.Next();
        }
      }
      var _ := input.Next();
      return Ok(List(items));
    }
    var number: nat := next.value as nat - '0' as nat;
    ghost var start := input.rest;
    ghost var first := number;
    while input.Peek().Some? && IsDigit(input.Peek().value)
      invariant ParseNumber(input.rest, number) == ParseNumber(start, first)
      decreases |input.rest|
    {
      var c := input.Next();
      number := 10 * number + c.value as nat - '0' as nat;
    }
    return Ok(Number(number));
  }

  // ---------------------------------------------------------------------
  // Printing, the inverse of parsing

  /** The text of a packet: numbers in decimal, lists bracketed and comma-separated. */
  function Format(item: Item): (s: string)
    ensures |s| > 0 && (s[0] == '[' || IsDigit(s[0]))
    decreases item, 1
  {
    match item
    case Number(n) => NatToString(n)
    case List(items) => "[" + FormatList(items) + "]"
  }

  function FormatList(items: seq<Item>): string
    decreases items, 0
  {
    if items == [] then ""
    else if |items| == 1 then Format(items[0])
    else Format(items[0]) + "," + FormatList(items[1..])
  }

  /** Every number in the packet has a text whose digit loop stays within `u8`. */
  predicate Small(item: Item)
    decreases item
  {
    match item
    case Number(n) => n <= 207
    case List(items) => forall k | 0 <= k < |items| :: Small(items[k])
  }

  /** Appending digits never lowers the value. */
  lemma {:induction false} DigitsValueGrows(p: string, d: string)
    requires AllDigits(p) && AllDigits(p + d)
    ensures DigitsValue(p) <= DigitsValue(p + d)
    decreases |d|
  {
    if d == [] {
      assert p + d == p;
    } else {
      var q := p + d;
      var front := q[..|q| - 1];
      assert front == p + d[..|d| - 1];
      assert AllDigits(front) by {
        forall i | 0 <= i < |front| ensures IsDigit(front[i]) { assert front[i] == q[i]; }
      }
      DigitsValueGrows(p, d[..|d| - 1]);
      assert DigitsValue(q) == 10 * DigitsValue(front) + DigitValue(q[|q| - 1]);
    }
  }

  /**
   * The digit loop, started on the value of the digits `p` already read,
   * reads the digits `d` and stops before `rest` with the value of `p + d`.
   */
  lemma {:induction false} ParseDigits(p: string, d: string, rest: string)
    requires |p| > 0 && AllDigits(p) && AllDigits(p + d) && DigitsValue(p + d) <= 207
    requires rest == [] || !IsDigit(rest[0])
    ensures ParseNumber(d + rest, DigitsValue(p)) == Done((Number(DigitsValue(p + d)), rest))
    decreases |d|
  {
    if d == [] {
      assert p + d == p;
      assert d + rest == rest;
    } else {
      var p' := p + [d[0]];
      assert p' + d[1..] == p + d;
      assert (d + rest)[1..] == d[1..] + rest;
      assert AllDigits(p') by {
        forall i | 0 <= i < |p'| ensures IsDigit(p'[i]) { assert p'[i] == (p + d)[i]; }
      }
      assert p'[..|p'| - 1] == p;
      DigitsValueGrows(p', d[1..]);
      ParseDigits(p', d[1..], rest);
    }
  }

  /** After the first digit of a printed number, the digit loop reads the rest and stops before `rest`. */
  lemma NumberDigits(n: nat, rest: string)
    requires n <= 207
    requires rest == [] || !IsDigit(rest[0])
    ensures ParseNumber(NatToString(n)[1..] + rest, NatToString(n)[0] as nat - '0' as nat) == Done((Number(n), rest))
  {
    var s := NatToString(n);
    var first := [s[0]];
    assert DigitsValue(first) == s[0] as nat - '0' as nat by {
      assert first[..0] == [];
    }
    NatToStringValue(n);
    assert first + s[1..] == s;
    ParseDigits(first, s[1..], rest);
  }

  /** A printed number reads back, the digit loop stopping where the digits end. */
  lemma ParseFormatNumber(n: nat, rest: string)
    requires n <= 207
    requires rest == [] || !IsDigit(rest[0])
    ensures ParseItem(NatToString(n) + rest) == Done((Number(n), rest))
  {
    var s := NatToString(n);
    var t := s + rest;
    assert t[0] == s[0] && IsDigit(s[0]);
    assert t[1..] == s[1..] + rest;
    assert ParseItem(t) == ParseNumber(t[1..], t[0] as nat - '0' as nat);
    NumberDigits(n, rest);
  }

  /** Printing a packet and parsing it back gives the packet, and leaves what followed. */
  lemma {:induction false} ParseFormat(item: Item, rest: string)
    requires Small(item)
    requires rest == [] || !IsDigit(rest[0])
    ensures ParseItem(Format(item) + rest) == Done((item, rest))
    decreases item, 1
  {
    match item
    case Number(n) =>
      ParseFormatNumber(n, rest);
    case List(items) =>
      var tail := "]" + rest;
      ParseFormatList(items, [], tail);
      assert (Format(item) + rest)[1..] == FormatList(items) + tail;
      assert [] + items == items;
  }

  /** The item loop reads back every item of a printed list and stops at its `]`. */
  lemma {:induction false} ParseFormatList(items: seq<Item>, before: seq<Item>, tail: string)
    requires forall k | 0 <= k < |items| :: Small(items[k])
    requires |tail| > 0 && tail[0] == ']'
    ensures ParseItems(FormatList(items) + tail, before) == Done((before + items, tail))
    decreases items, 0
  {
    if items == [] {
      assert FormatList(items) + tail == tail;
      assert before + items == before;
    } else if |items| == 1 {
      var s := Format(items[0]) + tail;
      assert s[0] == Format(items[0])[0];
      assert ParseItem(s) == Done((items[0], tail)) by {
        ParseFormat(items[0], tail);
      }
      assert before + items == before + [items[0]];
    } else {
      var next := FormatList(items[1..]) + tail;
      var more := "," + next;
      var s := Format(items[0]) + more;
      assert FormatList(items) + tail == s;
      assert s[0] == Format(items[0])[0];
      assert ParseItem(s) == Done((items[0], more)) by {
        ParseFormat(items[0], more);
      }
      assert more[1..] == next;
      assert ParseItems(next, before + [items[0]]) == Done((before + items, tail)) by {
        ParseFormatList(items[1..], before + [items[0]], tail);
        assert before + [items[0]] + items[1..] == before + items;
      }
    }
  }

  // ---------------------------------------------------------------------
  // The puzzle

  /** The verdict on a pair: `Ok(true)` when both parse and the left packet is decidedly less. */
  function CompareSpec(left: string, right: string): Result<bool>
  {
    match ParseItem(left)
    case Done((l, _)) =>
      (match ParseItem(right)
       case Done((r, _)) => Ok(CompareItems(l, r) == Some(true))
       case _ => Err("Unexpected end of input"))
    case _ => Err("Unexpected end of input")
  }

  /** A pair whose parsing cannot overflow: the right line is read only when the left one parses. */
  predicate NoOverflow(left: string, right: string)
  {
    !ParseItem(left).Overflow? && (ParseItem(left).Done? ==> !ParseItem(right).Overflow?)
  }

  /**
   * `compare`: parse both lines, then an undecided comparison counts as
   * not in order.
   */
  method Compare(left: string, right: string) returns (r: Result<bool>)
    requires NoOverflow(left, right)
    ensures r.Ok? <==> CompareSpec(left, right).Ok?
    ensures r.Ok? ==> r == CompareSpec(left, right)
  {
    var leftBytes := new Bytes(left);
    var l := Parse(leftBytes);
    if l.Err? {
      return Err(l.message);
    }
    var rightBytes := new Bytes(right);
    var rr := Parse(rightBytes);
    if rr.Err? {
      return Err(rr.message);
    }
    var decided := CompareItems(l.value, rr.value);
    r := Ok(if decided.Some? then decided.value else false);
  }

  /** Pair `k` (lines `3k` and `3k + 1`) is in the right order; a parse error counts as not. */
  predicate InOrder(input: seq<string>, k: nat)
    requires 3 * k + 1 < |input|
  {
    CompareSpec(input[3 * k], input[3 * k + 1]) == Ok(true)
  }

  /** The input is in chunks of three lines, the last possibly without its blank line, and no parse overflows. */
  predicate WellFormed(input: seq<string>)
  {
    |input| % 3 != 1 && forall k | 0 <= k < (|input| + 1) / 3 :: 3 * k + 1 < |input| && NoOverflow(input[3 * k], input[3 * k + 1])
  }

  /** `1 + 2 + ... + n`. */
  function Triangle(n: nat): nat
  {
    if n == 0 then 0 else Triangle(n - 1) + n
  }

  /** The sum of the 1-based indices of the pairs among the first `n` that are in order. */
  function OrderedIndices(input: seq<string>, n: nat): (r: nat)
    requires 3 * n <= |input| + 1 && |input| % 3 != 1
    ensures r <= Triangle(n)
  {
    if n == 0 then 0
    else OrderedIndices(input, n - 1) + (if InOrder(input, n - 1) then n else 0)
  }

  /** A sum over pairs none of which is in order is zero; one where all are is `1 + 2 + ... + n`. */
  lemma {:induction false} OrderedIndicesExtremes(input: seq<string>, n: nat)
    requires 3 * n <= |input| + 1 && |input| % 3 != 1
    ensures (forall k | 0 <= k < n :: !InOrder(input, k)) ==> OrderedIndices(input, n) == 0
    ensures (forall k | 0 <= k < n :: InOrder(input, k)) ==> OrderedIndices(input, n) == Triangle(n)
  {
    if n > 0 {
      OrderedIndicesExtremes(input, n - 1);
    }
  }

  /** `part_a`: the sum of the 1-based indices of the pairs in the right order. */
  method PartA(input: seq<string>) returns (result: nat)
    requires WellFormed(input)
    ensures result == OrderedIndices(input, (|input| + 1) / 3)
  {
    result := 0;
    var chunks := (|input| + 1) / 3;
    for index := 0 to chunks
      invariant result == OrderedIndices(input, index)
    {
      var ordered := Compare(input[3 * index], input[3 * index + 1]);
      if ordered == Ok(true) {
        result := result + index + 1;
      }
      assert result == OrderedIndices(input, index + 1);
    }
  }
}
