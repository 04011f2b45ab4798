/**
 * Day 4: each line names the section ranges of two elves, "a-b,c-d".
 * Part A counts the pairs where one range contains the other, part B the
 * pairs whose ranges overlap at all. Lines that do not parse are skipped.
 */
module Day04 {
  import opened Common

  datatype Range = Range(start: nat, end: nat)
  {
    /** `overlaps`: this range lies within `other`. */
    predicate Overlaps(other: Range)
    {
      start >= other.start && end <= other.end
    }

    /** `partially_overlaps`: this range starts within `other`. */
    predicate PartiallyOverlaps(other: Range)
    {
      start >= other.start && start <= other.end
    }

    predicate WellFormed() { start <= end }

    /** Section `x` belongs to the range. */
    predicate Has(x: int) { start <= x <= end }
  }

  /** A range that lies within another also starts within it. */
  lemma ContainedStartsWithin(a: Range, b: Range)
    requires a.WellFormed() && a.Overlaps(b)
    ensures a.PartiallyOverlaps(b)
  {
  }

  /**
   * Checked both ways, `partially_overlaps` is exactly "the two ranges
   * share a section" for well-formed ranges.
   */
  lemma PartialIsIntersection(a: Range, b: Range)
    requires a.WellFormed() && b.WellFormed()
    ensures (a.PartiallyOverlaps(b) || b.PartiallyOverlaps(a)) <==> exists x :: a.Has(x) && b.Has(x)
  {
    if a.PartiallyOverlaps(b) {
      assert a.Has(a.start) && b.Has(a.start);
    } else if b.PartiallyOverlaps(a) {
      assert a.Has(b.start) && b.Has(b.start);
    }
  }

  /** Checked both ways, `overlaps` is "one range's sections are all in the other". */
  lemma ContainmentIsSubset(a: Range, b: Range)
    requires a.WellFormed() && b.WellFormed()
    ensures (a.Overlaps(b) || b.Overlaps(a)) <==>
      ((forall x :: a.Has(x) ==> b.Has(x)) || (forall x :: b.Has(x) ==> a.Has(x)))
  {
    if forall x :: a.Has(x) ==> b.Has(x) {
      assert a.Has(a.start) && a.Has(a.end);
    } else if forall x :: b.Has(x) ==> a.Has(x) {
      assert b.Has(b.start) && b.Has(b.end);
    }
  }

  datatype Pair = Pair(first: Range, second: Range)
  {
    /** `check_condition`: the condition holds one way round or the other. */
    predicate CheckCondition(cond: (Range, Range) -> bool)
    {
      cond(first, second) || cond(second, first)
    }
  }

  /** The check does not depend on the order of the two ranges. */
  lemma CheckConditionSymmetric(a: Range, b: Range, cond: (Range, Range) -> bool)
    ensures Pair(a, b).CheckCondition(cond) == Pair(b, a).CheckCondition(cond)
  {
  }

  /** `Range::from_str`: "start-end" with both bounds `usize`. */
  function ParseRange(text: string): (r: Result<Range>)
    ensures r.Ok? <==> (SplitOnce(text, '-').Some?
      && ParseUsize(SplitOnce(text, '-').value.0).Some?
      && ParseUsize(SplitOnce(text, '-').value.1).Some?)
    ensures r.Ok? ==> r.value.start <= USIZE_MAX && r.value.end <= USIZE_MAX
  {
    match SplitOnce(text, '-')
    case None => Err(text + " is not a valid range")
    case Some((start, end)) =>
      match ParseUsize(start)
      case None => Err("invalid digit found in string")
      case Some(s) =>
        match ParseUsize(end)
        case None => Err("invalid digit found in string")
        case Some(e) => Ok(Range(s, e))
  }

  /** `Pair::from_str`: two ranges separated by the first ','. */
  function ParsePair(text: string): (r: Result<Pair>)
    ensures r.Ok? <==> (SplitOnce(text, ',').Some?
      && ParseRange(SplitOnce(text, ',').value.0).Ok?
      && ParseRange(SplitOnce(text, ',').value.1).Ok?)
  {
    match SplitOnce(text, ',')
    case None => Err(text + " is not a valid pair")
    case Some((first, second)) =>
      match ParseRange(first)
      case Err(m) => Err(m)
      case Ok(a) =>
        match ParseRange(second)
        case Err(m) => Err(m)
        case Ok(b) => Ok(Pair(a, b))
  }

  function FormatRange(r: Range): string
  {
    NatToString(r.start) + "-" + NatToString(r.end)
  }

  function FormatPair(p: Pair): string
  {
    FormatRange(p.first) + "," + FormatRange(p.second)
  }

  /** Parsing a written range gives it back. */
  lemma ParseFormatRange(r: Range)
    requires r.start <= USIZE_MAX && r.end <= USIZE_MAX
    ensures ParseRange(FormatRange(r)) == Ok(r)
  {
    var a := NatToString(r.start);
    var b := NatToString(r.end);
    NoSeparatorInNumber(r.start, '-');
    SplitAtFirst(a, '-', b);
    ParseNatToString(r.start, USIZE_MAX);
    ParseNatToString(r.end, USIZE_MAX);
  }

  /** Parsing a written pair gives it back. */
  lemma ParseFormatPair(p: Pair)
    requires p.first.start <= USIZE_MAX && p.first.end <= USIZE_MAX
    requires p.second.start <= USIZE_MAX && p.second.end <= USIZE_MAX
    ensures ParsePair(FormatPair(p)) == Ok(p)
  {
    var a := FormatRange(p.first);
    NoSeparatorInNumber(p.first.start, ',');
    NoSeparatorInNumber(p.first.end, ',');
    assert ',' !in a;
    SplitAtFirst(a, ',', FormatRange(p.second));
    ParseFormatRange(p.first);
    ParseFormatRange(p.second);
  }

  /** Whether a line counts: it parses as a pair and the condition holds. */
  predicate Counts(line: string, cond: (Range, Range) -> bool)
  {
    ParsePair(line).Ok? && ParsePair(line).value.CheckCondition(cond)
  }

  /**
   * `solve`: the number of lines that parse as a pair satisfying the
   * condition; lines that fail to parse are skipped, not reported.
   */
  function Solve(lines: seq<string>, cond: (Range, Range) -> bool): (r: nat)
    ensures r <= |lines|
    ensures r == 0 <==> forall l | l in lines :: !Counts(l, cond)
    ensures r == |lines| <==> forall l | l in lines :: Counts(l, cond)
  {
    if lines == [] then 0
    else
      var init := lines[..|lines| - 1];
      var last := lines[|lines| - 1];
      assert forall l | l in lines :: l in init || l == last;
      Solve(init, cond) + (if Counts(last, cond) then 1 else 0)
  }

  /** A count splits over concatenated inputs. */
  lemma {:induction false} SolveAppend(a: seq<string>, b: seq<string>, cond: (Range, Range) -> bool)
    ensures Solve(a + b, cond) == Solve(a, cond) + Solve(b, cond)
  {
    if b != [] {
      assert (a + b)[..|a + b| - 1] == a + b[..|b| - 1];
      SolveAppend(a, b[..|b| - 1], cond);
    } else {
      assert a + b == a;
    }
  }

  function PartA(lines: seq<string>): nat
  {
    Solve(lines, (a: Range, b: Range) => a.Overlaps(b))
  }

  function PartB(lines: seq<string>): nat
  {
    Solve(lines, (a: Range, b: Range) => a.PartiallyOverlaps(b))
  }

  /** A condition that holds wherever another does counts at least as many lines. */
  lemma {:induction false} SolveMonotone(lines: seq<string>, weaker: (Range, Range) -> bool, stronger: (Range, Range) -> bool)
    requires forall l | l in lines :: Counts(l, stronger) ==> Counts(l, weaker)
    ensures Solve(lines, stronger) <= Solve(lines, weaker)
  {
    if lines != [] {
      var init := lines[..|lines| - 1];
      assert forall l | l in init :: l in lines;
      SolveMonotone(init, weaker, stronger);
      assert lines[|lines| - 1] in lines;
    }
  }

  /** On well-formed lines, every pair part A counts is counted by part B too. */
  lemma PartAAtMostPartB(lines: seq<string>)
    requires forall l | l in lines && ParsePair(l).Ok? ::
      ParsePair(l).value.first.WellFormed() && ParsePair(l).value.second.WellFormed()
    ensures PartA(lines) <= PartB(lines)
  {
    var contains := (a: Range, b: Range) => a.Overlaps(b);
    var starts := (a: Range, b: Range) => a.PartiallyOverlaps(b);
    forall l | l in lines && Counts(l, contains)
      ensures Counts(l, starts)
    {
      var p := ParsePair(l).value;
      if p.first.Overlaps(p.second) {
        ContainedStartsWithin(p.first, p.second);
      } else {
        ContainedStartsWithin(p.second, p.first);
      }
    }
    SolveMonotone(lines, starts, contains);
    assert PartA(lines) == Solve(lines, contains);
    assert PartB(lines) == Solve(lines, starts);
  }
}
