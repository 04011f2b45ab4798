// Day 15: Beacon Exclusion Zone. Each sensor reports its closest beacon; the
// diamond of Manhattan radius around a sensor holds no other beacon. Part A
// counts the positions of one row where no beacon can be; part B finds the
// one position of a square that no sensor covers.
module Day15 {
  import opened Common

  /** The row part A examines. */
  const ROW: int := 2000000
  /** The largest coordinate of part B's search square. */
  const MAX: int := 4000000
  /** Coordinates within this bound keep every `isize` computation in range. */
  const BOUND: int := 0x1000_0000_0000_0000

  /** A sensor and its closest beacon. */
  datatype Region = Region(sensorX: int, sensorY: int, beaconX: int, beaconY: int)
  {
    /** The Manhattan distance from the sensor to its beacon. */
    function Distance(): nat
    {
      Abs(sensorX - beaconX) + Abs(sensorY - beaconY)
    }

    /** The position lies no further from the sensor than its beacon does. */
    predicate Contains(x: int, y: int)
    {
      Abs(sensorX - x) + Abs(sensorY - y) <= Distance()
    }

    /** The positions of row `y` the region contains, as the closed range
      * `(start, end)`, or `None` when the row misses the diamond. */
    function RangeAtY(y: int): (r: Option<Range>)
      ensures r.None? <==> Abs(sensorY - y) > Distance()
      ensures r.Some? ==> r.value.start <= sensorX <= r.value.end
      ensures r.Some? ==> r.value.end - sensorX == sensorX - r.value.start
    {
      var rowDistance := Abs(sensorY - y);
      if rowDistance > Distance() then None
      else
        var delta := Distance() - rowDistance;
        Some(Range(sensorX - delta, sensorX + delta))
    }

    predicate Bounded()
    {
      Abs(sensorX) <= BOUND && Abs(sensorY) <= BOUND
      && Abs(beaconX) <= BOUND && Abs(beaconY) <= BOUND
    }
  }

  /** A closed range of x coordinates. */
  datatype Range = Range(start: int, end: int)

  /** A region contains its own beacon and its own sensor. */
  lemma ContainsBeacon(region: Region)
    ensures region.Contains(region.beaconX, region.beaconY)
    ensures region.Contains(region.sensorX, region.sensorY)
  {
  }

  /** The range of a row holds exactly the positions of that row the region
    * contains; a row without a range has none of them. */
  lemma RangeAtYExact(region: Region, x: int, y: int)
    ensures region.RangeAtY(y).None? ==> !region.Contains(x, y)
    ensures region.RangeAtY(y).Some? ==>
      (region.Contains(x, y) <==> region.RangeAtY(y).value.start <= x <= region.RangeAtY(y).value.end)
  {
  }

  // ---------------------------------------------------------------------
  // Parsing `Sensor at x=.., y=..: closest beacon is at x=.., y=..`

  /** Every fixed-offset slice the parser takes lies within the line
    * (a shorter line makes the original panic). */
  predicate Sliceable(line: string)
  {
    |line| >= 12 &&
    match SplitOnce(line[12..], ',')
    case None => true
    case Some((_, rest)) =>
      |rest| >= 3 &&
      match SplitOnce(rest[3..], ':')
      case None => true
      case Some((_, rest2)) =>
        |rest2| >= 24 &&
        match SplitOnce(rest2[24..], ',')
        case None => true
        case Some((_, rest3)) => |rest3| >= 3
  }

  /** One line of the report. The fields are cut at fixed offsets after
    * the separators, and each must be an `isize`. */
  function ParseRegion(line: string): (r: Result<Region>)
    requires Sliceable(line)
    ensures ',' !in line[12..] ==> r == Err("Could not find sensor x coordinate in: " + line)
    ensures r.Ok? ==> ISIZE_MIN <= r.value.sensorX <= ISIZE_MAX && ISIZE_MIN <= r.value.sensorY <= ISIZE_MAX
    ensures r.Ok? ==> ISIZE_MIN <= r.value.beaconX <= ISIZE_MAX && ISIZE_MIN <= r.value.beaconY <= ISIZE_MAX
  {
    match SplitOnce(line[12..], ',')
    case None => Err("Could not find sensor x coordinate in: " + line)
    case Some((sx, rest)) =>
      match SplitOnce(rest[3..], ':')
      case None => Err("Could not find sensor y coordinate in: " + line)
      case Some((sy, rest2)) =>
        match SplitOnce(rest2[24..], ',')
        case None => Err("Could not find beacon x coordinate in: " + line)
        case Some((bx, rest3)) =>
          match (ParseIsize(sx), ParseIsize(sy), ParseIsize(bx), ParseIsize(rest3[3..]))
          case (Some(a), Some(b), Some(c), Some(d)) => Ok(Region(a, b, c, d))
          case _ => Err("invalid digit found in string")
  }

  /** A line whose sensor x field is followed by no `:` (after the three
    * characters of ` y=`) is the sensor y error. */
  lemma {:induction false} ParseRegionNoSensorY(line: string, sx: string, rest: string)
    requires Sliceable(line)
    requires line[12..] == sx + [','] + rest && ',' !in sx
    requires |rest| >= 3 && ':' !in rest[3..]
    ensures ParseRegion(line) == Err("Could not find sensor y coordinate in: " + line)
  {
    SplitAtFirst(sx, ',', rest);
  }

  /** A line whose sensor fields are found but whose beacon x field is
    * followed by no `,` is the beacon x error. */
  lemma {:induction false} ParseRegionNoBeaconX(line: string, sx: string, rest: string, sy: string, rest2: string)
    requires Sliceable(line)
    requires line[12..] == sx + [','] + rest && ',' !in sx
    requires |rest| >= 3 && rest[3..] == sy + [':'] + rest2 && ':' !in sy
    requires |rest2| >= 24 && ',' !in rest2[24..]
    ensures ParseRegion(line) == Err("Could not find beacon x coordinate in: " + line)
  {
    SplitAtFirst(sx, ',', rest);
    SplitAtFirst(sy, ':', rest2);
  }

  /** A line with all three separators parses exactly when its four fields
    * are `isize` numbers, and then to the region they give; otherwise it
    * is the integer parse error. */
  lemma {:induction false} ParseRegionFields(line: string, sx: string, rest: string, sy: string, rest2: string,
                                             bx: string, rest3: string)
    requires Sliceable(line)
    requires line[12..] == sx + [','] + rest && ',' !in sx
    requires |rest| >= 3 && rest[3..] == sy + [':'] + rest2 && ':' !in sy
    requires |rest2| >= 24 && rest2[24..] == bx + [','] + rest3 && ',' !in bx
    requires |rest3| >= 3
    ensures ParseRegion(line).Ok? <==>
      ParseIsize(sx).Some? && ParseIsize(sy).Some? && ParseIsize(bx).Some? && ParseIsize(rest3[3..]).Some?
    ensures ParseRegion(line).Ok? ==>
      ParseRegion(line).value == Region(ParseIsize(sx).value, ParseIsize(sy).value,
                                        ParseIsize(bx).value, ParseIsize(rest3[3..]).value)
    ensures ParseRegion(line).Err? ==> ParseRegion(line) == Err("invalid digit found in string")
  {
    SplitAtFirst(sx, ',', rest);
    SplitAtFirst(sy, ':', rest2);
    SplitAtFirst(bx, ',', rest3);
  }

  /** The report line describing `region`. */
  function FormatRegion(region: Region): string
  {
    "Sensor at x=" + IntToString(region.sensorX) + "," + " y=" + IntToString(region.sensorY)
    + ":" + " closest beacon is at x=" + IntToString(region.beaconX) + "," + " y=" + IntToString(region.beaconY)
  }

  /** Skipping a fixed prefix and splitting at the first `c` recovers a
    * field that holds no `c`. */
  lemma SplitAfter(p: string, field: string, c: char, tail: string)
    requires c !in field
    ensures (p + (field + [c] + tail))[|p|..] == field + [c] + tail
    ensures SplitOnce(field + [c] + tail, c) == Some((field, tail))
  {
    SplitAtFirst(field, c, tail);
  }

  /** The tails of a written report line after each of its fields. */
  function Tails(region: Region): (string, string, string)
  {
    var tail3 := " y=" + IntToString(region.beaconY);
    var tail2 := " closest beacon is at x=" + (IntToString(region.beaconX) + [','] + tail3);
    var tail1 := " y=" + (IntToString(region.sensorY) + [':'] + tail2);
    (tail1, tail2, tail3)
  }

  lemma FormatRegionShape(region: Region)
    ensures FormatRegion(region) == "Sensor at x=" + (IntToString(region.sensorX) + [','] + Tails(region).0)
  {
    RegroupFields("Sensor at x=", IntToString(region.sensorX), ",", " y=", IntToString(region.sensorY), ":",
      " closest beacon is at x=", IntToString(region.beaconX), ",", " y=", IntToString(region.beaconY));
  }

  /** Eleven pieces joined left to right, regrouped field by field from the right. */
  lemma RegroupFields<T>(s: seq<T>, a: seq<T>, c1: seq<T>, y1: seq<T>, b: seq<T>, c2: seq<T>,
                   cb: seq<T>, c: seq<T>, c3: seq<T>, y2: seq<T>, d: seq<T>)
    ensures s + a + c1 + y1 + b + c2 + cb + c + c3 + y2 + d
      == s + (a + c1 + (y1 + (b + c2 + (cb + (c + c3 + (y2 + d))))))
  {
  }

  /** Each cut of a written report line finds the field it is after. */
  lemma FormatRegionCuts(region: Region)
    ensures var line := FormatRegion(region);
      var (tail1, tail2, tail3) := Tails(region);
      |line| >= 12 && SplitOnce(line[12..], ',') == Some((IntToString(region.sensorX), tail1))
      && |tail1| >= 3 && SplitOnce(tail1[3..], ':') == Some((IntToString(region.sensorY), tail2))
      && |tail2| >= 24 && SplitOnce(tail2[24..], ',') == Some((IntToString(region.beaconX), tail3))
      && |tail3| >= 3 && tail3[3..] == IntToString(region.beaconY)
  {
    var (tail1, tail2, tail3) := Tails(region);
    var a := IntToString(region.sensorX);
    FormatRegionShape(region);
    NoSeparatorInInt(region.sensorX, ',');
    SplitAfter("Sensor at x=", a, ',', tail1);
    NoSeparatorInInt(region.sensorY, ':');
    SplitAfter(" y=", IntToString(region.sensorY), ':', tail2);
    NoSeparatorInInt(region.beaconX, ',');
    SplitAfter(" closest beacon is at x=", IntToString(region.beaconX), ',', tail3);
    assert tail3[3..] == IntToString(region.beaconY);
  }

  /** A report line written from a region with `isize` coordinates parses
    * back to that region. */
  lemma ParseFormatRegion(region: Region)
    requires ISIZE_MIN <= region.sensorX <= ISIZE_MAX && ISIZE_MIN <= region.sensorY <= ISIZE_MAX
    requires ISIZE_MIN <= region.beaconX <= ISIZE_MAX && ISIZE_MIN <= region.beaconY <= ISIZE_MAX
    ensures Sliceable(FormatRegion(region))
    ensures ParseRegion(FormatRegion(region)) == Ok(region)
  {
    FormatRegionCuts(region);
    ParseIntToString(region.sensorX, ISIZE_MIN, ISIZE_MAX);
    ParseIntToString(region.sensorY, ISIZE_MIN, ISIZE_MAX);
    ParseIntToString(region.beaconX, ISIZE_MIN, ISIZE_MAX);
    ParseIntToString(region.beaconY, ISIZE_MIN, ISIZE_MAX);
  }

  /** Every line can be sliced, and every region it describes is bounded. */
  predicate InputFits(input: seq<string>)
  {
    forall i | 0 <= i < |input| ::
      Sliceable(input[i]) && (ParseRegion(input[i]).Ok? ==> ParseRegion(input[i]).value.Bounded())
  }

  /** `ParseRegion` extended to every line, so that it can be passed around;
    * lines that cannot be sliced never reach it. */
  function ParseLine(line: string): Result<Region>
  {
    if Sliceable(line) then ParseRegion(line) else Err("")
  }

  /** All the lines parsed in turn; the first error is the result. */
  function ParseRegions(input: seq<string>): (r: Result<seq<Region>>)
    requires InputFits(input)
    ensures r.Ok? ==> |r.value| == |input|
    ensures r.Ok? ==> forall k | 0 <= k < |r.value| :: r.value[k].Bounded()
  {
    var r := ParseEach(input, ParseLine);
    ParseEachOk(input, ParseLine);
    r
  }

  // ---------------------------------------------------------------------
  // Part A: the positions of one row that cannot hold a beacon

  /** The ranges the regions cover in row `y`, in the order of the regions. */
  function RowRanges(regions: seq<Region>, y: int): (r: seq<Range>)
    ensures |r| <= |regions|
  {
    if regions == [] then []
    else
      var n := |regions| - 1;
      match regions[n].RangeAtY(y)
      case None => RowRanges(regions[..n], y)
      case Some(range) => RowRanges(regions[..n], y) + [range]
  }

  /** The x coordinates of the beacons in row `y`, one per region whose row
    * range exists. */
  function RowBeacons(regions: seq<Region>, y: int): (r: seq<int>)
    ensures |r| <= |regions|
  {
    if regions == [] then []
    else
      var n := |regions| - 1;
      if regions[n].RangeAtY(y).Some? && regions[n].beaconY == y
      then RowBeacons(regions[..n], y) + [regions[n].beaconX]
      else RowBeacons(regions[..n], y)
  }

  /** The list the original collects instead of `RowBeacons`: the beacon's y
    * coordinate rather than its x coordinate. */
  function RowBeaconsAsWritten(regions: seq<Region>, y: int): (r: seq<int>)
    ensures |r| <= |regions|
  {
    if regions == [] then []
    else
      var n := |regions| - 1;
      if regions[n].RangeAtY(y).Some? && regions[n].beaconY == y
      then RowBeaconsAsWritten(regions[..n], y) + [regions[n].beaconY]
      else RowBeaconsAsWritten(regions[..n], y)
  }

  /** The distinct values of a list, as sorting and deduplicating leave them. */
  function Elements(s: seq<int>): set<int>
  {
    set x | x in s
  }

  /** The integers from `a` to `b`, both included. */
  function Interval(a: int, b: int): set<int>
    decreases b - a + 1
  {
    if b < a then {} else Interval(a, b - 1) + {b}
  }

  /** A closed range holds exactly the integers between its ends, `b - a + 1`
    * of them, or none when it is empty. */
  lemma {:induction false} IntervalIs(a: int, b: int)
    ensures forall x :: x in Interval(a, b) <==> a <= x <= b
    ensures |Interval(a, b)| == if a <= b then b - a + 1 else 0
    decreases b - a + 1
  {
    if a <= b {
      IntervalIs(a, b - 1);
    }
  }

  /** The positions the ranges cover together. */
  function Covered(ranges: seq<Range>): set<int>
  {
    if ranges == [] then {}
    else
      var n := |ranges| - 1;
      Covered(ranges[..n]) + Interval(ranges[n].start, ranges[n].end)
  }

  /** A position is covered exactly when one of the ranges holds it. */
  lemma {:induction false} CoveredMembers(ranges: seq<Range>, x: int)
    ensures x in Covered(ranges) <==> exists i | 0 <= i < |ranges| :: ranges[i].start <= x <= ranges[i].end
  {
    if ranges != [] {
      var n := |ranges| - 1;
      CoveredMembers(ranges[..n], x);
      IntervalIs(ranges[n].start, ranges[n].end);
      if x in Covered(ranges[..n]) {
        var i :| 0 <= i < n && ranges[..n][i].start <= x <= ranges[..n][i].end;
        assert ranges[i] == ranges[..n][i];
      }
      if exists i | 0 <= i < |ranges| :: ranges[i].start <= x <= ranges[i].end {
        var i :| 0 <= i < |ranges| && ranges[i].start <= x <= ranges[i].end;
        if i < n {
          assert ranges[..n][i] == ranges[i];
        }
      }
    }
  }

  /** The order of the ranges does not matter to what they cover. */
  lemma CoveredPermutation(a: seq<Range>, b: seq<Range>)
    requires multiset(a) == multiset(b)
    ensures Covered(a) == Covered(b)
  {
    forall x
      ensures x in Covered(a) <==> x in Covered(b)
    {
      CoveredMembers(a, x);
      CoveredMembers(b, x);
      if x in Covered(a) {
        var i :| 0 <= i < |a| && a[i].start <= x <= a[i].end;
        assert a[i] in multiset(b);
        var j :| 0 <= j < |b| && b[j] == a[i];
      }
      if x in Covered(b) {
        var j :| 0 <= j < |b| && b[j].start <= x <= b[j].end;
        assert b[j] in multiset(a);
        var i :| 0 <= i < |a| && a[i] == b[j];
      }
    }
  }

  /** Some region contains the position. */
  predicate AnyContains(regions: seq<Region>, x: int, y: int)
  {
    exists k | 0 <= k < |regions| :: regions[k].Contains(x, y)
  }

  lemma AnyContainsStep(regions: seq<Region>, x: int, y: int)
    requires regions != []
    ensures var n := |regions| - 1;
      AnyContains(regions, x, y) <==> AnyContains(regions[..n], x, y) || regions[n].Contains(x, y)
  {
    var n := |regions| - 1;
    if AnyContains(regions[..n], x, y) {
      var k :| 0 <= k < n && regions[..n][k].Contains(x, y);
      assert regions[k] == regions[..n][k];
    }
    if AnyContains(regions, x, y) {
      var k :| 0 <= k < |regions| && regions[k].Contains(x, y);
      if k < n {
        assert regions[..n][k] == regions[k];
      }
    }
  }

  /** The row ranges of one more region cover what the earlier ones did and
    * that region's own range. */
  lemma RowRangesStep(regions: seq<Region>, y: int, x: int)
    requires regions != []
    ensures var n := |regions| - 1;
      x in Covered(RowRanges(regions, y)) <==>
        x in Covered(RowRanges(regions[..n], y)) || regions[n].Contains(x, y)
  {
    var n := |regions| - 1;
    var prefix := RowRanges(regions[..n], y);
    RangeAtYExact(regions[n], x, y);
    match regions[n].RangeAtY(y)
    case None =>
    case Some(range) =>
      assert (prefix + [range])[..|prefix|] == prefix;
      IntervalIs(range.start, range.end);
  }

  /** A position of row `y` is covered by the row ranges exactly when some
    * region contains it. */
  lemma {:induction false} RowRangesCovered(regions: seq<Region>, y: int, x: int)
    ensures x in Covered(RowRanges(regions, y)) <==> AnyContains(regions, x, y)
  {
    if regions != [] {
      var n := |regions| - 1;
      RowRangesCovered(regions[..n], y, x);
      RowRangesStep(regions, y, x);
      AnyContainsStep(regions, x, y);
    }
  }

  lemma {:induction false} RowBeaconsAre(regions: seq<Region>, y: int, x: int)
    ensures x in RowBeacons(regions, y) <==>
      exists k | 0 <= k < |regions| :: regions[k].beaconX == x && regions[k].beaconY == y
  {
    if regions != [] {
      var n := |regions| - 1;
      RowBeaconsAre(regions[..n], y, x);
      ContainsBeacon(regions[n]);
      RangeAtYExact(regions[n], regions[n].beaconX, regions[n].beaconY);
      if exists k | 0 <= k < n :: regions[..n][k].beaconX == x && regions[..n][k].beaconY == y {
        var k :| 0 <= k < n && regions[..n][k].beaconX == x && regions[..n][k].beaconY == y;
        assert regions[k] == regions[..n][k];
      }
      if exists k | 0 <= k < |regions| :: regions[k].beaconX == x && regions[k].beaconY == y {
        var k :| 0 <= k < |regions| && regions[k].beaconX == x && regions[k].beaconY == y;
        if k < n {
          assert regions[..n][k] == regions[k];
        }
      }
    }
  }

  /** The positions of row `y` that cannot hold a beacon: those some region
    * contains, less the beacons already there. */
  function NoBeacon(regions: seq<Region>, y: int): set<int>
  {
    Covered(RowRanges(regions, y)) - Elements(RowBeacons(regions, y))
  }

  /** A position of row `y` is counted exactly when a sensor rules it out
    * and no reported beacon sits on it. */
  lemma NoBeaconMeaning(regions: seq<Region>, y: int, x: int)
    ensures x in NoBeacon(regions, y) <==>
      AnyContains(regions, x, y)
      && !(exists k | 0 <= k < |regions| :: regions[k].beaconX == x && regions[k].beaconY == y)
  {
    RowRangesCovered(regions, y, x);
    RowBeaconsAre(regions, y, x);
  }

  /** Every beacon in the row lies in a covered position. */
  lemma BeaconsCovered(regions: seq<Region>, y: int)
    ensures Elements(RowBeacons(regions, y)) <= Covered(RowRanges(regions, y))
  {
    forall x | x in Elements(RowBeacons(regions, y))
      ensures x in Covered(RowRanges(regions, y))
    {
      RowBeaconsAre(regions, y, x);
      var k :| 0 <= k < |regions| && regions[k].beaconX == x && regions[k].beaconY == y;
      ContainsBeacon(regions[k]);
      RowRangesCovered(regions, y, x);
    }
  }

  /** Ranges of bounded regions start well above `isize::MIN`. */
  lemma {:induction false} RowRangesAboveMin(regions: seq<Region>, y: int)
    requires forall k | 0 <= k < |regions| :: regions[k].Bounded()
    requires Abs(y) <= BOUND
    ensures forall i | 0 <= i < |RowRanges(regions, y)| :: RowRanges(regions, y)[i].start > ISIZE_MIN
  {
    if regions != [] {
      var n := |regions| - 1;
      RowRangesAboveMin(regions[..n], y);
    }
  }

  // ---------------------------------------------------------------------
  // Sorting the ranges by start

  predicate SortedByStart(s: seq<Range>)
  {
    forall i, j | 0 <= i < j < |s| :: s[i].start <= s[j].start
  }

  /** Inserts `r` after every range that does not start later. */
  function InsertByStart(r: Range, s: seq<Range>): (t: seq<Range>)
    requires SortedByStart(s)
    ensures SortedByStart(t)
    ensures multiset(t) == multiset(s) + multiset{r}
  {
    if s == [] then [r]
    else if r.start < s[0].start then [r] + s
    else
      var rest := InsertByStart(r, s[1..]);
      assert s == [s[0]] + s[1..];
      StartsAfter(s[0].start, rest, s[1..], r);
      ConsSorted(s[0], rest);
      [s[0]] + rest
  }

  /** A range that starts no later than every range of a sorted list can go in front. */
  lemma ConsSorted(first: Range, s: seq<Range>)
    requires SortedByStart(s) && forall k | 0 <= k < |s| :: first.start <= s[k].start
    ensures SortedByStart([first] + s)
  {
  }

  /** Every range of a permutation of `s + [r]` starts no earlier than `lo`
    * when every range of `s` and `r` do. */
  lemma StartsAfter(lo: int, t: seq<Range>, s: seq<Range>, r: Range)
    requires multiset(t) == multiset(s) + multiset{r}
    requires lo <= r.start && forall k | 0 <= k < |s| :: lo <= s[k].start
    ensures forall k | 0 <= k < |t| :: lo <= t[k].start
  {
    forall k | 0 <= k < |t|
      ensures lo <= t[k].start
    {
      assert t[k] in multiset(s) + multiset{r};
      if t[k] != r {
        assert t[k] in s;
      }
    }
  }

  /** `sort_by_key` on the start: a stable sort. */
  function SortByStart(s: seq<Range>): (t: seq<Range>)
    ensures SortedByStart(t)
    ensures multiset(t) == multiset(s)
  {
    if s == [] then []
    else
      var n := |s| - 1;
      assert s == s[..n] + [s[n]];
      InsertByStart(s[n], SortByStart(s[..n]))
  }

  // ---------------------------------------------------------------------
  // The sweep

  /** What the sweep knows of the positions covered so far: none lies after
    * `lastEnd`, and every one from `lo` up to `lastEnd` is covered. */
  ghost predicate Swept(covered: set<int>, lo: int, lastEnd: int)
  {
    (forall x | x in covered :: x <= lastEnd)
    && (forall x | lo <= x <= lastEnd :: x in covered)
  }

  /** One step of the sweep adds exactly the newly covered positions. */
  lemma SweepStep(covered: set<int>, lo: int, lastEnd: int, range: Range)
    requires Swept(covered, lo, lastEnd) && lo <= range.start
    ensures var start := Max(range.start, lastEnd + 1);
      var end := Max(range.end, lastEnd);
      |covered + Interval(range.start, range.end)| == |covered| + (if start <= end then end - start + 1 else 0)
      && Swept(covered + Interval(range.start, range.end), range.start, end)
  {
    var added := Interval(range.start, range.end);
    IntervalIs(range.start, range.end);
    if range.end <= lastEnd {
      forall x | x in added
        ensures x in covered
      {
        assert lo <= x <= lastEnd;
      }
      assert covered + added == covered;
    } else {
      var start := Max(range.start, lastEnd + 1);
      var newly := Interval(start, range.end);
      IntervalIs(start, range.end);
      assert start >= range.start && start > lastEnd;
      forall x | x in added && x !in newly
        ensures x in covered
      {
        assert lo <= x <= lastEnd;
      }
      forall x | x in newly
        ensures x in added && x !in covered
      {
      }
      assert covered + added == covered + newly;
      assert covered * newly == {};
    }
  }

  /** The sweep over ranges sorted by start counts every covered position
    * once; `lastEnd` never decreases. */
  method CountCovered(ranges: seq<Range>) returns (count: int)
    requires SortedByStart(ranges)
    requires forall i | 0 <= i < |ranges| :: ranges[i].start > ISIZE_MIN
    ensures count == |Covered(ranges)|
  {
    count := 0;
    var lastEnd := ISIZE_MIN;
    ghost var lo := ISIZE_MIN + 1;
    for i := 0 to |ranges|
      invariant count == |Covered(ranges[..i])|
      invariant Swept(Covered(ranges[..i]), lo, lastEnd)
      invariant i < |ranges| ==> lo <= ranges[i].start
    {
      var range := ranges[i];
      var start := Max(range.start, lastEnd + 1);
      var end := Max(range.end, lastEnd);
      assert ranges[..i + 1][..i] == ranges[..i];
      SweepStep(Covered(ranges[..i]), lo, lastEnd, range);
      if start <= end {
        count := count + end - start + 1;
      }
      assert end >= lastEnd;
      lastEnd := end;
      lo := range.start;
    }
    assert ranges[..|ranges|] == ranges;
  }

  /** The number of positions of row 2000000 where no beacon can be. */
  method PartA(input: seq<string>) returns (r: Result<nat>)
    requires InputFits(input)
    ensures ParseRegions(input).Err? ==> r == Err(ParseRegions(input).message)
    ensures ParseRegions(input).Ok? ==> r == Ok(|NoBeacon(ParseRegions(input).value, ROW)|)
  {
    var parsed := ParseRegions(input);
    if parsed.Err? {
      return Err(parsed.message);
    }
    var regions := parsed.value;
    var ranges: seq<Range> := [];
    var beacons: seq<int> := [];
    for i := 0 to |regions|
      invariant ranges == RowRanges(regions[..i], ROW)
      invariant beacons == RowBeacons(regions[..i], ROW)
    {
      assert regions[..i + 1][..i] == regions[..i];
      var range := regions[i].RangeAtY(ROW);
      if range.Some? {
        ranges := ranges + [range.value];
        if regions[i].beaconY == ROW {
          beacons := beacons + [regions[i].beaconX];
        }
      }
    }
    assert regions[..|regions|] == regions;
    var sorted := SortByStart(ranges);
    RowRangesAboveMin(regions, ROW);
    assert forall i | 0 <= i < |sorted| :: sorted[i].start > ISIZE_MIN by {
      forall i | 0 <= i < |sorted|
        ensures sorted[i].start > ISIZE_MIN
      {
        assert sorted[i] in multiset(ranges);
      }
    }
    var count := CountCovered(sorted);
    CoveredPermutation(sorted, ranges);
    var distinct := Elements(beacons);
    BeaconsCovered(regions, ROW);
    CardDifference(Covered(ranges), distinct);
    return Ok(count - |distinct|);
  }

  lemma CardDifference(a: set<int>, b: set<int>)
    requires b <= a
    ensures |a - b| == |a| - |b|
  {
    assert (a - b) + b == a;
    assert (a - b) * b == {};
  }

  /** What the original computes: the number of covered positions less the
    * number of distinct beacon y coordinates in the row. */
  function PartAAsWritten(regions: seq<Region>, y: int): int
  {
    |Covered(RowRanges(regions, y))| - |Elements(RowBeaconsAsWritten(regions, y))|
  }

  /** Every value the original collects is the row itself, so it subtracts
    * at most one beacon whatever the number of beacons in the row. */
  lemma {:induction false} BeaconsAsWrittenAreRow(regions: seq<Region>, y: int)
    ensures Elements(RowBeaconsAsWritten(regions, y)) <= {y}
  {
    if regions != [] {
      BeaconsAsWrittenAreRow(regions[..|regions| - 1], y);
    }
  }

  lemma ElementsPair(a: int, b: int)
    ensures Elements([a, b]) == {a, b}
  {
    assert forall x :: x in [a, b] <==> x == a || x == b;
  }

  /** Two sensors in the row, each with its beacon just beside it. */
  function TwoBeaconsInRow(): seq<Region>
  {
    [Region(0, ROW, 1, ROW), Region(10, ROW, 11, ROW)]
  }

  /** A sensor whose beacon is just to its right covers three positions of
    * its own row. */
  lemma BeaconBesideRange(x: int, y: int)
    ensures Region(x, y, x + 1, y).RangeAtY(y) == Some(Range(x - 1, x + 1))
  {
    assert Region(x, y, x + 1, y).Distance() == 1;
  }

  lemma TwoBeaconsInRowSplit()
    ensures TwoBeaconsInRow()[..1] == [Region(0, ROW, 1, ROW)]
    ensures TwoBeaconsInRow()[1] == Region(10, ROW, 11, ROW)
    ensures [Region(0, ROW, 1, ROW)][..0] == []
  {
  }

  lemma TwoBeaconsInRowRanges()
    ensures RowRanges(TwoBeaconsInRow(), ROW) == [Range(-1, 1), Range(9, 11)]
  {
    TwoBeaconsInRowSplit();
    BeaconBesideRange(0, ROW);
    BeaconBesideRange(10, ROW);
    assert RowRanges([Region(0, ROW, 1, ROW)], ROW) == [Range(-1, 1)];
  }

  lemma TwoBeaconsInRowBeacons()
    ensures RowBeacons(TwoBeaconsInRow(), ROW) == [1, 11]
  {
    TwoBeaconsInRowSplit();
    BeaconBesideRange(0, ROW);
    BeaconBesideRange(10, ROW);
    assert RowBeacons([Region(0, ROW, 1, ROW)], ROW) == [1];
  }

  lemma TwoBeaconsInRowBeaconsAsWritten()
    ensures RowBeaconsAsWritten(TwoBeaconsInRow(), ROW) == [ROW, ROW]
  {
    TwoBeaconsInRowSplit();
    BeaconBesideRange(0, ROW);
    BeaconBesideRange(10, ROW);
    assert RowBeaconsAsWritten([Region(0, ROW, 1, ROW)], ROW) == [ROW];
  }

  lemma TwoRangesCover()
    ensures |Covered([Range(-1, 1), Range(9, 11)])| == 6
    ensures {1, 11} <= Covered([Range(-1, 1), Range(9, 11)])
  {
    var ranges := [Range(-1, 1), Range(9, 11)];
    assert ranges[..1] == [Range(-1, 1)];
    assert [Range(-1, 1)][..0] == [];
    assert Covered(ranges) == Interval(-1, 1) + Interval(9, 11);
    IntervalIs(-1, 1);
    IntervalIs(9, 11);
    assert Interval(-1, 1) * Interval(9, 11) == {};
  }

  /** With two beacons in the row, four positions cannot hold a beacon, but
    * the original reports five. */
  lemma BeaconYExample()
    ensures PartAAsWritten(TwoBeaconsInRow(), ROW) == 5
    ensures |NoBeacon(TwoBeaconsInRow(), ROW)| == 4
  {
    ExampleCountAsWritten();
    ExampleNoBeaconCount();
  }

  lemma ExampleCountAsWritten()
    ensures PartAAsWritten(TwoBeaconsInRow(), ROW) == 5
  {
    TwoBeaconsInRowRanges();
    TwoBeaconsInRowBeaconsAsWritten();
    TwoRangesCover();
    AsWrittenFrom(TwoBeaconsInRow(), ROW, [Range(-1, 1), Range(9, 11)], [ROW, ROW]);
    ElementsPair(ROW, ROW);
  }

  lemma AsWrittenFrom(regions: seq<Region>, y: int, ranges: seq<Range>, beacons: seq<int>)
    requires RowRanges(regions, y) == ranges && RowBeaconsAsWritten(regions, y) == beacons
    ensures PartAAsWritten(regions, y) == |Covered(ranges)| - |Elements(beacons)|
  {
  }

  lemma ExampleNoBeaconCount()
    ensures |NoBeacon(TwoBeaconsInRow(), ROW)| == 4
  {
    TwoBeaconsInRowRanges();
    TwoBeaconsInRowBeacons();
    TwoRangesCover();
    var covered := Covered([Range(-1, 1), Range(9, 11)]);
    NoBeaconFrom(TwoBeaconsInRow(), ROW, [Range(-1, 1), Range(9, 11)], [1, 11]);
    ElementsPair(1, 11);
    CardDifference(covered, {1, 11});
  }

  lemma NoBeaconFrom(regions: seq<Region>, y: int, ranges: seq<Range>, beacons: seq<int>)
    requires RowRanges(regions, y) == ranges && RowBeacons(regions, y) == beacons
    ensures NoBeacon(regions, y) == Covered(ranges) - Elements(beacons)
  {
  }

  // ---------------------------------------------------------------------
  // Part B: the one position no sensor covers

  /** The diagonals just outside each region's diamond that rise to the
    * right, `y = n + x`: two per region. */
  function LinesUp(regions: seq<Region>): (r: seq<int>)
    ensures |r| == 2 * |regions|
  {
    if regions == [] then []
    else
      var n := |regions| - 1;
      var region := regions[n];
      var distance := region.Distance() + 1;
      LinesUp(regions[..n]) + [region.sensorY - distance - region.sensorX, region.sensorY + distance - region.sensorX]
  }

  /** The diagonals just outside each region's diamond that fall to the
    * right, `y = n - x`: two per region. */
  function LinesDown(regions: seq<Region>): (r: seq<int>)
    ensures |r| == 2 * |regions|
  {
    if regions == [] then []
    else
      var n := |regions| - 1;
      var region := regions[n];
      var distance := region.Distance() + 1;
      LinesDown(regions[..n]) + [region.sensorY - distance + region.sensorX, region.sensorY + distance + region.sensorX]
  }

  /** Where a rising and a falling diagonal cross, with the original's
    * division rounding toward zero. */
  function Crossing(up: int, down: int): (int, int)
  {
    var x := TruncDiv(down - up, 2);
    (x, x + up)
  }

  /** Inside the search square and contained by no region. */
  predicate Hidden(regions: seq<Region>, x: int, y: int)
  {
    0 <= x <= MAX && 0 <= y <= MAX && !AnyContains(regions, x, y)
  }

  predicate HiddenAt(regions: seq<Region>, ups: seq<int>, downs: seq<int>, i: int, j: int)
    requires 0 <= i < |ups| && 0 <= j < |downs|
  {
    Hidden(regions, Crossing(ups[i], downs[j]).0, Crossing(ups[i], downs[j]).1)
  }

  /** The nested search: the first crossing, rising diagonal by rising
    * diagonal, that is hidden, or `None` when no crossing is. */
  method FindCrossing(regions: seq<Region>, ups: seq<int>, downs: seq<int>) returns (found: Option<(nat, nat)>)
    ensures found.Some? ==> found.value.0 < |ups| && found.value.1 < |downs|
    ensures found.Some? ==> HiddenAt(regions, ups, downs, found.value.0, found.value.1)
    ensures found.Some? ==> forall i, j | 0 <= i < |ups| && 0 <= j < |downs| ::
      (i < found.value.0 || (i == found.value.0 && j < found.value.1)) ==> !HiddenAt(regions, ups, downs, i, j)
    ensures found.None? ==> forall i, j | 0 <= i < |ups| && 0 <= j < |downs| :: !HiddenAt(regions, ups, downs, i, j)
  {
    for i := 0 to |ups|
      invariant forall i', j | 0 <= i' < i && 0 <= j < |downs| :: !HiddenAt(regions, ups, downs, i', j)
    {
      for j := 0 to |downs|
        invariant forall i', j' | 0 <= i' < i && 0 <= j' < |downs| :: !HiddenAt(regions, ups, downs, i', j')
        invariant forall j' | 0 <= j' < j :: !HiddenAt(regions, ups, downs, i, j')
      {
        var (x, y) := Crossing(ups[i], downs[j]);
        if 0 <= x <= MAX && 0 <= y <= MAX && !AnyContains(regions, x, y) {
          return Some((i, j));
        }
      }
    }
    return None;
  }

  /** The loop over the regions that lists their diagonals. */
  method Diagonals(regions: seq<Region>) returns (ups: seq<int>, downs: seq<int>)
    ensures ups == LinesUp(regions) && downs == LinesDown(regions)
  {
    ups, downs := [], [];
    for k := 0 to |regions|
      invariant ups == LinesUp(regions[..k])
      invariant downs == LinesDown(regions[..k])
    {
      assert regions[..k + 1][..k] == regions[..k];
      var region := regions[k];
      var distance := region.Distance() + 1;
      ups := ups + [region.sensorY - distance - region.sensorX, region.sensorY + distance - region.sensorX];
      downs := downs + [region.sensorY - distance + region.sensorX, region.sensorY + distance + region.sensorX];
    }
    assert regions[..|regions|] == regions;
  }

  /** The tuning frequency `x * 4000000 + y` of the first hidden crossing of
    * two diagonals, or an error when no crossing is hidden. */
  method PartB(input: seq<string>) returns (r: Result<int>)
    requires InputFits(input)
    ensures ParseRegions(input).Err? ==> r == Err(ParseRegions(input).message)
    ensures ParseRegions(input).Ok? && r.Err? ==> r.message == "Could not find beacon"
    ensures ParseRegions(input).Ok? && r.Err? ==>
      var regions := ParseRegions(input).value;
      forall i, j | 0 <= i < |LinesUp(regions)| && 0 <= j < |LinesDown(regions)| ::
        !HiddenAt(regions, LinesUp(regions), LinesDown(regions), i, j)
    ensures ParseRegions(input).Ok? && r.Ok? ==>
      var regions := ParseRegions(input).value;
      var ups, downs := LinesUp(regions), LinesDown(regions);
      exists i, j | 0 <= i < |ups| && 0 <= j < |downs| ::
        (HiddenAt(regions, ups, downs, i, j)
        && r.value == Crossing(ups[i], downs[j]).0 * MAX + Crossing(ups[i], downs[j]).1
        && forall i', j' | 0 <= i' < |ups| && 0 <= j' < |downs| ::
          (i' < i || (i' == i && j' < j)) ==> !HiddenAt(regions, ups, downs, i', j'))
  {
    var parsed := ParseRegions(input);
    if parsed.Err? {
      return Err(parsed.message);
    }
    var regions := parsed.value;
    var ups, downs := Diagonals(regions);
    var found := FindCrossing(regions, ups, downs);
    if found.None? {
      return Err("Could not find beacon");
    }
    var (x, y) := Crossing(ups[found.value.0], downs[found.value.1]);
    return Ok(x * MAX + y);
  }

  /** A position just outside a region's diamond lies on one of that
    * region's two rising or two falling diagonals. */
  lemma BorderOnLines(region: Region, x: int, y: int)
    requires Abs(region.sensorX - x) + Abs(region.sensorY - y) == region.Distance() + 1
    ensures var d := region.Distance() + 1;
      y - x == region.sensorY - d - region.sensorX || y - x == region.sensorY + d - region.sensorX
      || y + x == region.sensorY - d + region.sensorX || y + x == region.sensorY + d + region.sensorX
  {
  }

  /** Two diagonals through a position cross exactly there. */
  lemma CrossingAt(up: int, down: int, x: int, y: int)
    requires up == y - x && down == y + x
    ensures Crossing(up, down) == (x, y)
  {
    CrossingIs(x, y);
  }

  lemma CrossingIs(x: int, y: int)
    ensures Crossing(y - x, y + x) == (x, y)
  {
    assert (y + x) - (y - x) == 2 * x;
  }

  /** The diagonals listed for region `k` are its own. */
  lemma {:induction false} LinesOf(regions: seq<Region>, k: int)
    requires 0 <= k < |regions|
    ensures var d := regions[k].Distance() + 1;
      LinesUp(regions)[2 * k] == regions[k].sensorY - d - regions[k].sensorX
      && LinesUp(regions)[2 * k + 1] == regions[k].sensorY + d - regions[k].sensorX
      && LinesDown(regions)[2 * k] == regions[k].sensorY - d + regions[k].sensorX
      && LinesDown(regions)[2 * k + 1] == regions[k].sensorY + d + regions[k].sensorX
  {
    var n := |regions| - 1;
    if k < n {
      LinesOf(regions[..n], k);
      assert regions[..n][k] == regions[k];
    }
  }

  /** A position on a rising diagonal of one region and a falling diagonal
    * of another is one of the crossings the search visits. */
  lemma CrossingVisited(regions: seq<Region>, x: int, y: int, a: int, b: int)
    requires 0 <= a < |regions| && 0 <= b < |regions|
    requires var d := regions[a].Distance() + 1;
      y - x == regions[a].sensorY - d - regions[a].sensorX || y - x == regions[a].sensorY + d - regions[a].sensorX
    requires var d := regions[b].Distance() + 1;
      y + x == regions[b].sensorY - d + regions[b].sensorX || y + x == regions[b].sensorY + d + regions[b].sensorX
    ensures exists i, j | 0 <= i < |LinesUp(regions)| && 0 <= j < |LinesDown(regions)| ::
      Crossing(LinesUp(regions)[i], LinesDown(regions)[j]) == (x, y)
  {
    var ups, downs := LinesUp(regions), LinesDown(regions);
    LinesOf(regions, a);
    LinesOf(regions, b);
    var i := if ups[2 * a] == y - x then 2 * a else 2 * a + 1;
    var j := if downs[2 * b] == y + x then 2 * b else 2 * b + 1;
    assert ups[i] == y - x && downs[j] == y + x;
    CrossingAt(ups[i], downs[j], x, y);
  }
}
