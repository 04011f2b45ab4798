/**
 * Day 1: elves carry snacks; the input lists calories, one elf's
 * inventory after another, separated by empty lines. Part A is the
 * largest inventory total, part B the sum of the three largest.
 */
module Day01 {
  import opened Common

  /** The number of empty lines in `lines`. */
  function EmptyLines(lines: seq<string>): nat
  {
    if lines == [] then 0
    else EmptyLines(lines[..|lines| - 1]) + (if lines[|lines| - 1] == "" then 1 else 0)
  }

  /**
   * `input.split(|line| line.is_empty())`: the runs of lines between empty
   * lines. There is one group more than there are empty lines (so always
   * at least one), and no group holds an empty line.
   */
  function Groups(lines: seq<string>): (r: seq<seq<string>>)
    ensures |r| == EmptyLines(lines) + 1
    ensures forall k, x | 0 <= k < |r| && x in r[k] :: x != ""
  {
    if lines == [] then [[]]
    else
      var g := Groups(lines[..|lines| - 1]);
      var last := lines[|lines| - 1];
      if last == "" then g + [[]]
      else
        assert forall k | 0 <= k < |g| - 1 :: (g[..|g| - 1] + [g[|g| - 1] + [last]])[k] == g[k];
        g[..|g| - 1] + [g[|g| - 1] + [last]]
  }

  /** Groups written back out, an empty line between consecutive groups. */
  function Join(groups: seq<seq<string>>): seq<string>
    requires |groups| >= 1
  {
    if |groups| == 1 then groups[0]
    else Join(groups[..|groups| - 1]) + [""] + groups[|groups| - 1]
  }

  /** Splitting loses nothing: joining the groups gives back the input. */
  lemma {:induction false} JoinGroups(lines: seq<string>)
    ensures Join(Groups(lines)) == lines
  {
    if lines != [] {
      var init := lines[..|lines| - 1];
      var last := lines[|lines| - 1];
      var g := Groups(init);
      JoinGroups(init);
      if last == "" {
        assert (g + [[]])[..|g|] == g;
      } else {
        var r := g[..|g| - 1] + [g[|g| - 1] + [last]];
        if |g| > 1 {
          assert r[..|r| - 1] == g[..|g| - 1];
          assert Join(g) == Join(g[..|g| - 1]) + [""] + g[|g| - 1];
        }
      }
      assert lines == init + [last];
    }
  }

  /** The value a line contributes to a total: its number if it parses as `usize`. */
  function LineCalories(line: string): nat
  {
    match ParseUsize(line)
    case Some(v) => v
    case None => 0
  }

  /**
   * `total_calories`: the sum of the lines that parse as `usize`; the
   * other lines are skipped. It is at least every parsed line, and 0
   * when no line parses.
   */
  function TotalCalories(inventory: seq<string>): (r: nat)
    ensures forall x | x in inventory && ParseUsize(x).Some? :: ParseUsize(x).value <= r
    ensures (forall x | x in inventory :: ParseUsize(x).None?) ==> r == 0
  {
    if inventory == [] then 0
    else
      var init := inventory[..|inventory| - 1];
      assert forall x | x in inventory :: x in init || x == inventory[|inventory| - 1];
      TotalCalories(init) + LineCalories(inventory[|inventory| - 1])
  }

  /** A total splits over concatenated inventories. */
  lemma {:induction false} TotalCaloriesAppend(a: seq<string>, b: seq<string>)
    ensures TotalCalories(a + b) == TotalCalories(a) + TotalCalories(b)
  {
    if b != [] {
      var b' := b[..|b| - 1];
      assert (a + b)[..|a + b| - 1] == a + b';
      TotalCaloriesAppend(a, b');
    } else {
      assert a + b == a;
    }
  }

  /** The total of every group, in input order. */
  function Totals(lines: seq<string>): (r: seq<nat>)
    ensures |r| == |Groups(lines)| && |r| >= 1
    ensures forall k | 0 <= k < |r| :: r[k] == TotalCalories(Groups(lines)[k])
  {
    var groups := Groups(lines);
    seq(|groups|, k requires 0 <= k < |groups| => TotalCalories(groups[k]))
  }

  /** `Iterator::max`: the largest element of a non-empty sequence. */
  function Largest(s: seq<nat>): (r: nat)
    requires |s| > 0
    ensures r in s
    ensures forall x | x in s :: x <= r
  {
    if |s| == 1 then s[0]
    else
      var m := Largest(s[1..]);
      assert forall x | x in s :: x == s[0] || x in s[1..];
      if s[0] > m then s[0] else m
  }

  /**
   * `part_a`: the largest group total. The "Input is empty" error cannot
   * happen, since the split always yields a group.
   */
  function PartA(lines: seq<string>): (r: Result<nat>)
    ensures r.Ok?
    ensures exists k | 0 <= k < |Groups(lines)| :: r.value == TotalCalories(Groups(lines)[k])
    ensures forall k | 0 <= k < |Groups(lines)| :: TotalCalories(Groups(lines)[k]) <= r.value
  {
    var totals := Totals(lines);
    var m := Largest(totals);
    var k :| 0 <= k < |totals| && totals[k] == m;
    assert forall j | 0 <= j < |totals| :: totals[j] in totals;
    Ok(m)
  }

  predicate SortedAsc(s: seq<nat>)
  {
    forall i, j | 0 <= i < j < |s| :: s[i] <= s[j]
  }

  /** Put `x` into `sorted` before the first larger element. */
  function InsertAsc(sorted: seq<nat>, x: nat): (r: seq<nat>)
    requires SortedAsc(sorted)
    ensures SortedAsc(r)
    ensures multiset(r) == multiset(sorted) + multiset{x}
  {
    if sorted == [] then [x]
    else if x <= sorted[0] then
      assert forall j | 0 <= j < |sorted| :: sorted[0] <= sorted[j];
      [x] + sorted
    else
      var rest := InsertAsc(sorted[1..], x);
      InsertAscHead(sorted, x, rest);
      [sorted[0]] + rest
  }

  lemma InsertAscHead(sorted: seq<nat>, x: nat, rest: seq<nat>)
    requires |sorted| > 0 && SortedAsc(sorted) && sorted[0] < x
    requires SortedAsc(rest) && multiset(rest) == multiset(sorted[1..]) + multiset{x}
    ensures SortedAsc([sorted[0]] + rest)
    ensures multiset([sorted[0]] + rest) == multiset(sorted) + multiset{x}
  {
    assert sorted == [sorted[0]] + sorted[1..];
    forall j | 0 <= j < |rest|
      ensures sorted[0] <= rest[j]
    {
      assert rest[j] in multiset(rest);
      assert rest[j] == x || rest[j] in sorted[1..];
    }
  }

  /** `slice::sort`: an ascending permutation of its input. */
  function SortAsc(s: seq<nat>): (r: seq<nat>)
    ensures SortedAsc(r)
    ensures multiset(r) == multiset(s)
  {
    if s == [] then []
    else
      assert s == s[..|s| - 1] + [s[|s| - 1]];
      InsertAsc(SortAsc(s[..|s| - 1]), s[|s| - 1])
  }

  /** `calories.iter().rev().take(3)` on the sorted totals. */
  function TopThree(sorted: seq<nat>): (r: seq<nat>)
    ensures |r| == Min(3, |sorted|)
  {
    Reverse(sorted)[..Min(3, |sorted|)]
  }

  /**
   * `top` is the largest part of `totals`: together with `rest` it makes up
   * `totals`, it has min(3, |totals|) members, and each is at least every
   * member of `rest`.
   */
  predicate TopSplit(totals: seq<nat>, top: seq<nat>, rest: seq<nat>)
  {
    multiset(top) + multiset(rest) == multiset(totals)
    && |top| == Min(3, |totals|)
    && forall x, y | x in rest && y in top :: x <= y
  }

  /** On a sorted list the three taken from the back are its largest part. */
  lemma TopThreeDominates(sorted: seq<nat>)
    requires SortedAsc(sorted)
    ensures TopSplit(sorted, TopThree(sorted), sorted[..|sorted| - Min(3, |sorted|)])
  {
    var n := |sorted|;
    var k := Min(3, n);
    var top := TopThree(sorted);
    var low, high := sorted[..n - k], sorted[n - k..];
    assert top == Reverse(high);
    ReverseMultiset(high);
    assert sorted == low + high;
    SortedSplit(sorted, n - k);
    SplitIsTop(sorted, top, low, high);
  }

  /** In an ascending list nothing before position m exceeds anything from m on. */
  lemma SortedSplit(sorted: seq<nat>, m: nat)
    requires SortedAsc(sorted) && m <= |sorted|
    ensures forall x, y | x in sorted[..m] && y in sorted[m..] :: x <= y
  {
    forall x, y | x in sorted[..m] && y in sorted[m..]
      ensures x <= y
    {
      var i :| 0 <= i < m && sorted[..m][i] == x;
      var j :| 0 <= j < |sorted| - m && sorted[m..][j] == y;
      assert sorted[i] == x && sorted[m + j] == y;
    }
  }

  /** A reordering of the upper part of a split, with min(3, n) members, is the top part. */
  lemma SplitIsTop(totals: seq<nat>, top: seq<nat>, low: seq<nat>, high: seq<nat>)
    requires totals == low + high && multiset(top) == multiset(high)
    requires |top| == Min(3, |totals|)
    requires forall x, y | x in low && y in high :: x <= y
    ensures TopSplit(totals, top, low)
  {
    forall y | y in top
      ensures y in high
    {
      assert y in multiset(high);
    }
  }

  /**
   * `part_b`: sort the totals, take the three largest (all of them when
   * fewer than three) and add them up.
   */
  function PartB(lines: seq<string>): (r: Result<nat>)
    ensures r.Ok?
    ensures exists top: seq<nat>, rest: seq<nat> :: TopSplit(Totals(lines), top, rest) && r.value == Sum(top)
  {
    var totals := Totals(lines);
    var sorted := SortAsc(totals);
    var rest := sorted[..|sorted| - Min(3, |sorted|)];
    TopThreeDominates(sorted);
    SameSplit(sorted, totals, TopThree(sorted), rest);
    Ok(Sum(TopThree(sorted)))
  }

  lemma SameSplit(sorted: seq<nat>, totals: seq<nat>, top: seq<nat>, rest: seq<nat>)
    requires multiset(sorted) == multiset(totals) && TopSplit(sorted, top, rest)
    ensures TopSplit(totals, top, rest)
  {
    assert |sorted| == |multiset(sorted)| == |multiset(totals)| == |totals|;
  }
}
