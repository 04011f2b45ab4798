/**
 * Day 8: a square grid of tree heights, one digit per tree. Part A counts
 * the trees visible from outside the grid (taller than every tree between
 * them and some edge); part B finds the best scenic score, the product
 * of the four viewing distances of a tree.
 */
module Day08 {
  import opened Common

  /** Bit 7 of a tree's byte marks a tree that has been counted. */
  const VISITED_MASK: bv8 := 0x80

  // Grid geometry

  /** The index of column `x`, row `y` in a row-major grid of side `n`. */
  function Idx(n: nat, x: nat, y: nat): (i: nat)
    requires x < n && y < n
    ensures i < n * n
  {
    IdxBound(n, x, y);
    x + y * n
  }

  lemma IdxBound(n: nat, x: nat, y: nat)
    requires x < n && y < n
    ensures x + y * n < n * n
  {
    RowBefore(n, n, x, y);
  }

  /** Distinct cells have distinct indices. */
  lemma IdxInjective(n: nat, x: nat, y: nat, x': nat, y': nat)
    requires x < n && y < n && x' < n && y' < n
    requires Idx(n, x, y) == Idx(n, x', y')
    ensures x == x' && y == y'
  {
    if y < y' {
      RowGap(n, y, y');
    } else if y' < y {
      RowGap(n, y', y);
    }
  }

  /** A later row starts at least a whole row further on. */
  lemma RowGap(n: nat, y: nat, y': nat)
    requires y < y'
    ensures y * n + n <= y' * n
  {
    MulLe(y + 1, y', n);
    MulSucc(y, n);
  }

  lemma {:induction false} MulLe(a: nat, b: nat, n: nat)
    requires a <= b
    ensures a * n <= b * n
    decreases b - a
  {
    if a < b {
      MulLe(a, b - 1, n);
      assert (b - 1) * n + n == b * n;
    }
  }

  // Parsing

  function DigitRow(line: string): (r: seq<bv8>)
    requires AllDigits(line)
    ensures |r| == |line|
    ensures forall i | 0 <= i < |line| :: r[i] as nat == DigitValue(line[i]) && r[i] < 10
  {
    seq(|line|, i requires 0 <= i < |line| => DigitValue(line[i]) as bv8)
  }

  /** `parse_grid`: the digits of all lines, one byte each, row after row. */
  function ParseGrid(lines: seq<string>): seq<bv8>
    requires forall l | l in lines :: AllDigits(l)
  {
    if lines == [] then []
    else
      assert forall l | l in lines[..|lines| - 1] :: l in lines;
      ParseGrid(lines[..|lines| - 1]) + DigitRow(lines[|lines| - 1])
  }

  lemma RowBefore(n: nat, k: nat, x: nat, y: nat)
    requires x < n && y < k
    ensures x + y * n < k * n
  {
    MulLe(y + 1, k, n);
    assert (y + 1) * n == y * n + n;
  }

  lemma MulSucc(k: nat, n: nat)
    ensures (k + 1) * n == k * n + n
  {
  }

  /** `k` rows of `n` and one more are `k + 1` rows. */
  lemma RowsStep(a: nat, k: nat, n: nat, m: nat)
    requires a == k * n && m == k + 1
    ensures a + n == m * n
  {
    MulSucc(k, n);
  }

  lemma {:induction false} ParseGridLength(lines: seq<string>, n: nat)
    requires forall l | l in lines :: AllDigits(l) && |l| == n
    ensures |ParseGrid(lines)| == |lines| * n
  {
    if lines != [] {
      var k := |lines| - 1;
      var init := lines[..k];
      assert forall l | l in init :: l in lines;
      ParseGridLength(init, n);
      assert lines[k] in lines;
      var g := ParseGrid(init);
      assert ParseGrid(lines) == g + DigitRow(lines[k]);
      RowsStep(|g|, k, n, |lines|);
    }
  }

  /** Every byte of the grid is a digit's value. */
  lemma {:induction false} ParseGridDigits(lines: seq<string>)
    requires forall l | l in lines :: AllDigits(l)
    ensures forall i | 0 <= i < |ParseGrid(lines)| :: ParseGrid(lines)[i] < 10
  {
    if lines != [] {
      var k := |lines| - 1;
      var init := lines[..k];
      assert forall l | l in init :: l in lines;
      ParseGridDigits(init);
    }
  }

  lemma ConcatAt(a: seq<bv8>, b: seq<bv8>, i: nat)
    requires i < |a| + |b|
    ensures (a + b)[i] == if i < |a| then a[i] else b[i - |a|]
  {
  }

  /** The grid of all lines but the last is a prefix of the grid. */
  lemma ParseGridPrefixAt(lines: seq<string>, i: nat)
    requires forall l | l in lines :: AllDigits(l)
    requires |lines| > 0
    requires forall l | l in lines[..|lines| - 1] :: AllDigits(l)
    requires i < |ParseGrid(lines[..|lines| - 1])|
    ensures i < |ParseGrid(lines)| && ParseGrid(lines)[i] == ParseGrid(lines[..|lines| - 1])[i]
  {
    ConcatAt(ParseGrid(lines[..|lines| - 1]), DigitRow(lines[|lines| - 1]), i);
  }

  /** The last line's digits end the grid. */
  lemma ParseGridLast(lines: seq<string>, n: nat, x: nat)
    requires forall l | l in lines :: AllDigits(l) && |l| == n
    requires x < n && |lines| > 0
    ensures var y := |lines| - 1;
      x + y * n < |ParseGrid(lines)| && ParseGrid(lines)[x + y * n] as nat == DigitValue(lines[y][x])
  {
    var k := |lines| - 1;
    var init := lines[..k];
    assert forall l | l in init :: l in lines;
    assert lines[k] in lines;
    ParseGridLength(init, n);
    MulNat(k, n);
    ConcatAt(ParseGrid(init), DigitRow(lines[k]), x + k * n);
  }

  /** For lines of equal length `n`, the byte at `x + y * n` is digit `x` of line `y`. */
  lemma {:induction false} ParseGridAt(lines: seq<string>, n: nat, x: nat, y: nat)
    requires forall l | l in lines :: AllDigits(l) && |l| == n
    requires x < n && y < |lines|
    ensures x + y * n < |ParseGrid(lines)| && ParseGrid(lines)[x + y * n] as nat == DigitValue(lines[y][x])
  {
    var k := |lines| - 1;
    if y < k {
      var init := lines[..k];
      assert forall l | l in init :: l in lines;
      ParseGridAt(init, n, x, y);
      assert init[y] == lines[y];
      MulNat(y, n);
      ParseGridPrefixAt(lines, x + y * n);
    } else {
      ParseGridLast(lines, n, x);
    }
  }

  // Visibility

  /** The tree at (x, y) is taller than every tree above it. */
  predicate FromTop(h: seq<bv8>, n: nat, x: nat, y: nat)
    requires |h| == n * n && x < n && y < n
  {
    forall k | 0 <= k < y :: h[Idx(n, x, k)] < h[Idx(n, x, y)]
  }

  predicate FromBottom(h: seq<bv8>, n: nat, x: nat, y: nat)
    requires |h| == n * n && x < n && y < n
  {
    forall k | y < k < n :: h[Idx(n, x, k)] < h[Idx(n, x, y)]
  }

  predicate FromLeft(h: seq<bv8>, n: nat, x: nat, y: nat)
    requires |h| == n * n && x < n && y < n
  {
    forall k | 0 <= k < x :: h[Idx(n, k, y)] < h[Idx(n, x, y)]
  }

  predicate FromRight(h: seq<bv8>, n: nat, x: nat, y: nat)
    requires |h| == n * n && x < n && y < n
  {
    forall k | x < k < n :: h[Idx(n, k, y)] < h[Idx(n, x, y)]
  }

  /** The tree is visible from outside: from some edge every tree on the way is shorter. */
  predicate Visible(h: seq<bv8>, n: nat, x: nat, y: nat)
    requires |h| == n * n && x < n && y < n
  {
    FromTop(h, n, x, y) || FromBottom(h, n, x, y) || FromLeft(h, n, x, y) || FromRight(h, n, x, y)
  }

  /** The indices of the interior trees that are visible. */
  ghost function VisibleInterior(h: seq<bv8>, n: nat): set<nat>
    requires |h| == n * n
  {
    set x, y | 1 <= x < n - 1 && 1 <= y < n - 1 && Visible(h, n, x, y) :: Idx(n, x, y)
  }

  ghost predicate Interior(n: nat, i: nat)
  {
    exists x, y | 1 <= x < n - 1 && 1 <= y < n - 1 :: i == Idx(n, x, y)
  }

  // Scans: a scan is the edge tree followed by the interior trees in the order `count` visits them.

  function Down(n: nat, x: nat): (line: seq<nat>)
    requires x < n
    ensures |line| == n - 1 && forall q | 0 <= q < n - 1 :: line[q] == Idx(n, x, q)
  {
    seq(n - 1, q requires 0 <= q < n - 1 => Idx(n, x, q))
  }

  function Up(n: nat, x: nat): (line: seq<nat>)
    requires x < n
    ensures |line| == n - 1 && forall q | 0 <= q < n - 1 :: line[q] == Idx(n, x, n - 1 - q)
  {
    seq(n - 1, q requires 0 <= q < n - 1 => Idx(n, x, n - 1 - q))
  }

  function Rightward(n: nat, y: nat): (line: seq<nat>)
    requires y < n
    ensures |line| == n - 1 && forall q | 0 <= q < n - 1 :: line[q] == Idx(n, q, y)
  {
    seq(n - 1, q requires 0 <= q < n - 1 => Idx(n, q, y))
  }

  function Leftward(n: nat, y: nat): (line: seq<nat>)
    requires y < n
    ensures |line| == n - 1 && forall q | 0 <= q < n - 1 :: line[q] == Idx(n, n - 1 - q, y)
  {
    seq(n - 1, q requires 0 <= q < n - 1 => Idx(n, n - 1 - q, y))
  }

  predicate InGrid(h: seq<bv8>, line: seq<nat>)
  {
    forall q | 0 <= q < |line| :: line[q] < |h|
  }

  /** The tree at position `q` of a scan is taller than every tree before it. */
  predicate TallerThanBefore(h: seq<bv8>, line: seq<nat>, q: nat)
    requires InGrid(h, line) && q < |line|
  {
    forall p | 0 <= p < q :: h[line[p]] < h[line[q]]
  }

  /** The trees a scan counts among its first `k` positions (the edge tree at 0 is never counted). */
  ghost function ScanSeen(h: seq<bv8>, line: seq<nat>, k: nat): set<nat>
    requires InGrid(h, line) && k <= |line|
  {
    set q | 1 <= q < k && TallerThanBefore(h, line, q) :: line[q]
  }

  lemma ScanSeenStep(h: seq<bv8>, line: seq<nat>, k: nat)
    requires InGrid(h, line) && 1 <= k < |line|
    ensures ScanSeen(h, line, k + 1) ==
      ScanSeen(h, line, k) + (if TallerThanBefore(h, line, k) then {line[k]} else {})
  {
  }

  /** Scanning a column downwards counts the trees visible from the top. */
  lemma DownSeen(h: seq<bv8>, n: nat, x: nat)
    requires |h| == n * n && x < n
    ensures ScanSeen(h, Down(n, x), n - 1) ==
      set y | 1 <= y < n - 1 && FromTop(h, n, x, y) :: Idx(n, x, y)
  {
    var line := Down(n, x);
    forall y | 1 <= y < n - 1
      ensures TallerThanBefore(h, line, y) <==> FromTop(h, n, x, y)
    {
    }
  }

  /** Scanning a column upwards counts the trees visible from the bottom. */
  lemma UpSeen(h: seq<bv8>, n: nat, x: nat)
    requires |h| == n * n && x < n
    ensures ScanSeen(h, Up(n, x), n - 1) ==
      set y | 1 <= y < n - 1 && FromBottom(h, n, x, y) :: Idx(n, x, y)
  {
    var line := Up(n, x);
    var a := ScanSeen(h, line, n - 1);
    var b := set y | 1 <= y < n - 1 && FromBottom(h, n, x, y) :: Idx(n, x, y);
    forall q | 1 <= q < n - 1
      ensures TallerThanBefore(h, line, q) <==> FromBottom(h, n, x, n - 1 - q)
    {
      var y := n - 1 - q;
      if TallerThanBefore(h, line, q) {
        forall k | y < k < n ensures h[Idx(n, x, k)] < h[Idx(n, x, y)] {
          assert line[n - 1 - k] == Idx(n, x, k);
        }
      }
    }
    forall i | i in a ensures i in b {
      var q :| 1 <= q < n - 1 && TallerThanBefore(h, line, q) && i == line[q];
      assert i == Idx(n, x, n - 1 - q);
    }
    forall i | i in b ensures i in a {
      var y :| 1 <= y < n - 1 && FromBottom(h, n, x, y) && i == Idx(n, x, y);
      assert line[n - 1 - y] == i;
    }
  }

  /** Scanning a row rightwards counts the trees visible from the left. */
  lemma RightwardSeen(h: seq<bv8>, n: nat, y: nat)
    requires |h| == n * n && y < n
    ensures ScanSeen(h, Rightward(n, y), n - 1) ==
      set x | 1 <= x < n - 1 && FromLeft(h, n, x, y) :: Idx(n, x, y)
  {
    var line := Rightward(n, y);
    forall x | 1 <= x < n - 1
      ensures TallerThanBefore(h, line, x) <==> FromLeft(h, n, x, y)
    {
    }
  }

  /** Scanning a row leftwards counts the trees visible from the right. */
  lemma LeftwardSeen(h: seq<bv8>, n: nat, y: nat)
    requires |h| == n * n && y < n
    ensures ScanSeen(h, Leftward(n, y), n - 1) ==
      set x | 1 <= x < n - 1 && FromRight(h, n, x, y) :: Idx(n, x, y)
  {
    var line := Leftward(n, y);
    var a := ScanSeen(h, line, n - 1);
    var b := set x | 1 <= x < n - 1 && FromRight(h, n, x, y) :: Idx(n, x, y);
    forall q | 1 <= q < n - 1
      ensures TallerThanBefore(h, line, q) <==> FromRight(h, n, n - 1 - q, y)
    {
      var x := n - 1 - q;
      if TallerThanBefore(h, line, q) {
        forall k | x < k < n ensures h[Idx(n, k, y)] < h[Idx(n, x, y)] {
          assert line[n - 1 - k] == Idx(n, k, y);
        }
      }
    }
    forall i | i in a ensures i in b {
      var q :| 1 <= q < n - 1 && TallerThanBefore(h, line, q) && i == line[q];
      assert i == Idx(n, n - 1 - q, y);
    }
    forall i | i in b ensures i in a {
      var x :| 1 <= x < n - 1 && FromRight(h, n, x, y) && i == Idx(n, x, y);
      assert line[n - 1 - x] == i;
    }
  }

  /** The trees the column passes of `count` see in columns 1..k-1. */
  ghost function ColumnsSeen(h: seq<bv8>, n: nat, k: nat): set<nat>
    requires |h| == n * n
  {
    set x, y | 1 <= x < k && x < n - 1 && 1 <= y < n - 1 && (FromTop(h, n, x, y) || FromBottom(h, n, x, y)) :: Idx(n, x, y)
  }

  /** The trees the row passes of `count` see in rows 1..k-1. */
  ghost function RowsSeen(h: seq<bv8>, n: nat, k: nat): set<nat>
    requires |h| == n * n
  {
    set x, y | 1 <= x < n - 1 && 1 <= y < k && y < n - 1 && (FromLeft(h, n, x, y) || FromRight(h, n, x, y)) :: Idx(n, x, y)
  }

  lemma ColumnStep(h: seq<bv8>, n: nat, x: nat)
    requires |h| == n * n && 1 <= x < n - 1
    ensures ColumnsSeen(h, n, x + 1) ==
      ColumnsSeen(h, n, x) + ScanSeen(h, Down(n, x), n - 1) + ScanSeen(h, Up(n, x), n - 1)
  {
    DownSeen(h, n, x);
    UpSeen(h, n, x);
    var a := ColumnsSeen(h, n, x + 1);
    var b := ColumnsSeen(h, n, x);
    forall i | i in a ensures i in b || i in ScanSeen(h, Down(n, x), n - 1) || i in ScanSeen(h, Up(n, x), n - 1)
    {
      var x', y' :| 1 <= x' < x + 1 && x' < n - 1 && 1 <= y' < n - 1
        && (FromTop(h, n, x', y') || FromBottom(h, n, x', y')) && i == Idx(n, x', y');
      if x' < x {
        assert i in b;
      }
    }
  }

  lemma RowStep(h: seq<bv8>, n: nat, y: nat)
    requires |h| == n * n && 1 <= y < n - 1
    ensures RowsSeen(h, n, y + 1) ==
      RowsSeen(h, n, y) + ScanSeen(h, Rightward(n, y), n - 1) + ScanSeen(h, Leftward(n, y), n - 1)
  {
    RightwardSeen(h, n, y);
    LeftwardSeen(h, n, y);
    var a := RowsSeen(h, n, y + 1);
    var b := RowsSeen(h, n, y);
    forall i | i in a ensures i in b || i in ScanSeen(h, Rightward(n, y), n - 1) || i in ScanSeen(h, Leftward(n, y), n - 1)
    {
      var x', y' :| 1 <= x' < n - 1 && 1 <= y' < y + 1 && y' < n - 1
        && (FromLeft(h, n, x', y') || FromRight(h, n, x', y')) && i == Idx(n, x', y');
      if y' < y {
        assert i in b;
      }
    }
  }

  lemma ColumnsSeenFrom(h: seq<bv8>, n: nat, k: nat)
    requires |h| == n * n && n >= 1 && k >= n - 1
    ensures ColumnsSeen(h, n, k) == ColumnsSeen(h, n, n - 1)
  {
    forall i | i in ColumnsSeen(h, n, k) ensures i in ColumnsSeen(h, n, n - 1) {
      var x, y :| 1 <= x < k && x < n - 1 && 1 <= y < n - 1
        && (FromTop(h, n, x, y) || FromBottom(h, n, x, y)) && i == Idx(n, x, y);
    }
  }

  lemma RowsSeenFrom(h: seq<bv8>, n: nat, k: nat)
    requires |h| == n * n && n >= 1 && k >= n - 1
    ensures RowsSeen(h, n, k) == RowsSeen(h, n, n - 1)
  {
    forall i | i in RowsSeen(h, n, k) ensures i in RowsSeen(h, n, n - 1) {
      var x, y :| 1 <= x < n - 1 && 1 <= y < k && y < n - 1
        && (FromLeft(h, n, x, y) || FromRight(h, n, x, y)) && i == Idx(n, x, y);
    }
  }

  /** All column passes and all row passes together see exactly the visible interior trees. */
  lemma AllPassesSeeVisible(h: seq<bv8>, n: nat, k: nat, l: nat)
    requires |h| == n * n && k >= n - 1 && l >= n - 1
    ensures ColumnsSeen(h, n, k) + RowsSeen(h, n, l) == VisibleInterior(h, n)
  {
    forall i | i in VisibleInterior(h, n) ensures i in ColumnsSeen(h, n, k) + RowsSeen(h, n, l)
    {
      var x, y :| 1 <= x < n - 1 && 1 <= y < n - 1 && Visible(h, n, x, y) && i == Idx(n, x, y);
      if FromTop(h, n, x, y) || FromBottom(h, n, x, y) {
        assert i in ColumnsSeen(h, n, k);
      } else {
        assert i in RowsSeen(h, n, l);
      }
    }
  }

  /** An edge tree is not an interior tree. */
  lemma EdgeNotInterior(n: nat, x: nat, y: nat)
    requires x < n && y < n && (x == 0 || y == 0 || x == n - 1 || y == n - 1)
    ensures !Interior(n, Idx(n, x, y))
  {
    if Interior(n, Idx(n, x, y)) {
      var x', y' :| 1 <= x' < n - 1 && 1 <= y' < n - 1 && Idx(n, x, y) == Idx(n, x', y');
      IdxInjective(n, x, y, x', y');
    }
  }

  /** The four scans through index `k` (column `k` both ways, row `k` both ways) start on an edge and then stay inside. */
  lemma ScansWellPlaced(n: nat, k: nat)
    requires 1 <= k < n - 1
    ensures !Interior(n, Down(n, k)[0]) && !Interior(n, Up(n, k)[0])
    ensures !Interior(n, Rightward(n, k)[0]) && !Interior(n, Leftward(n, k)[0])
    ensures forall q | 1 <= q < n - 1 :: Interior(n, Down(n, k)[q]) && Interior(n, Up(n, k)[q])
    ensures forall q | 1 <= q < n - 1 :: Interior(n, Rightward(n, k)[q]) && Interior(n, Leftward(n, k)[q])
  {
    EdgeNotInterior(n, k, 0);
    EdgeNotInterior(n, k, n - 1);
    EdgeNotInterior(n, 0, k);
    EdgeNotInterior(n, n - 1, k);
    forall q | 1 <= q < n - 1
      ensures Interior(n, Down(n, k)[q]) && Interior(n, Up(n, k)[q])
      ensures Interior(n, Rightward(n, k)[q]) && Interior(n, Leftward(n, k)[q])
    {
      assert Down(n, k)[q] == Idx(n, k, q);
      assert Up(n, k)[q] == Idx(n, k, n - 1 - q);
      assert Rightward(n, k)[q] == Idx(n, q, k);
      assert Leftward(n, k)[q] == Idx(n, n - 1 - q, k);
    }
  }

  /** Both passes over column `x` extend the columns seen to `x + 1`. */
  lemma ColumnAdvance(h: seq<bv8>, n: nat, x: nat, before: set<nat>, middle: set<nat>, after: set<nat>)
    requires |h| == n * n && 1 <= x < n - 1
    requires before == ColumnsSeen(h, n, x)
    requires middle == before + ScanSeen(h, Down(n, x), n - 1)
    requires after == middle + ScanSeen(h, Up(n, x), n - 1)
    ensures after == ColumnsSeen(h, n, x + 1)
  {
    ColumnStep(h, n, x);
    AddTwo(after, before, {}, ColumnsSeen(h, n, x), ColumnsSeen(h, n, x + 1),
      ScanSeen(h, Down(n, x), n - 1), ScanSeen(h, Up(n, x), n - 1));
  }

  /** Both passes over row `y` extend the rows seen to `y + 1`. */
  lemma RowAdvance(h: seq<bv8>, n: nat, y: nat, start: set<nat>, before: set<nat>, middle: set<nat>, after: set<nat>)
    requires |h| == n * n && 1 <= y < n - 1
    requires before == start + RowsSeen(h, n, y)
    requires middle == before + ScanSeen(h, Rightward(n, y), n - 1)
    requires after == middle + ScanSeen(h, Leftward(n, y), n - 1)
    ensures after == start + RowsSeen(h, n, y + 1)
  {
    RowStep(h, n, y);
    AddTwo(after, before, start, RowsSeen(h, n, y), RowsSeen(h, n, y + 1),
      ScanSeen(h, Rightward(n, y), n - 1), ScanSeen(h, Leftward(n, y), n - 1));
  }

  lemma AddTwo(now: set<nat>, before: set<nat>, fixed: set<nat>, s: set<nat>, s': set<nat>, a: set<nat>, b: set<nat>)
    requires now == before + a + b && before == fixed + s && s' == s + a + b
    ensures now == fixed + s'
  {
  }

  /**
   * A scan of `line` with position `p` next: `max` is the tallest tree so
   * far, and `seen` is `start` plus the trees so far that are taller than
   * all before them.
   */
  ghost predicate ScanState(h: seq<bv8>, line: seq<nat>, p: nat, start: set<nat>, seen: set<nat>, max: bv8)
  {
    InGrid(h, line) && 1 <= p <= |line|
    && seen == start + ScanSeen(h, line, p)
    && (forall q | 0 <= q < p :: h[line[q]] <= max)
    && (exists q | 0 <= q < p :: h[line[q]] == max)
  }

  /**
   * One step of a scan: checking the tree at position `p` keeps the
   * running maximum equal to the tallest tree so far and adds the tree to
   * the counted set exactly when it is taller than all before it.
   */
  lemma ScanAdvance(h: seq<bv8>, line: seq<nat>, p: nat, start: set<nat>,
                    seen0: set<nat>, seen1: set<nat>, max0: bv8, max1: bv8)
    requires ScanState(h, line, p, start, seen0, max0) && p < |line|
    requires h[line[p]] > max0 ==> max1 == h[line[p]] && seen1 == seen0 + {line[p]}
    requires h[line[p]] <= max0 ==> max1 == max0 && seen1 == seen0
    ensures ScanState(h, line, p + 1, start, seen1, max1)
  {
    TallerIff(h, line, p, max0);
    MaxAdvance(h, line, p, max0, max1);
    ScanSeenStep(h, line, p);
    AddMaybe(seen0, seen1, start, ScanSeen(h, line, p), ScanSeen(h, line, p + 1),
      line[p], TallerThanBefore(h, line, p));
  }

  /** Against the running maximum of the trees before it, a tree is taller than all of them exactly when it beats the maximum. */
  lemma TallerIff(h: seq<bv8>, line: seq<nat>, p: nat, max0: bv8)
    requires InGrid(h, line) && p < |line|
    requires forall q | 0 <= q < p :: h[line[q]] <= max0
    requires exists q | 0 <= q < p :: h[line[q]] == max0
    ensures TallerThanBefore(h, line, p) <==> h[line[p]] > max0
  {
    var w :| 0 <= w < p && h[line[w]] == max0;
    if TallerThanBefore(h, line, p) {
      assert h[line[w]] < h[line[p]];
    }
  }

  /** The running maximum after position `p` is the tallest of the first `p + 1` trees. */
  lemma MaxAdvance(h: seq<bv8>, line: seq<nat>, p: nat, max0: bv8, max1: bv8)
    requires InGrid(h, line) && p < |line|
    requires forall q | 0 <= q < p :: h[line[q]] <= max0
    requires exists q | 0 <= q < p :: h[line[q]] == max0
    requires max1 == if h[line[p]] > max0 then h[line[p]] else max0
    ensures forall q | 0 <= q < p + 1 :: h[line[q]] <= max1
    ensures exists q | 0 <= q < p + 1 :: h[line[q]] == max1
  {
    if h[line[p]] <= max0 {
      var w :| 0 <= w < p && h[line[w]] == max0;
      assert h[line[w]] == max1;
    } else {
      assert h[line[p]] == max1;
    }
  }

  lemma AddMaybe(seen0: set<nat>, seen1: set<nat>, start: set<nat>, a: set<nat>, b: set<nat>,
                 x: nat, add: bool)
    requires seen0 == start + a
    requires b == a + (if add then {x} else {})
    requires add ==> seen1 == seen0 + {x}
    requires !add ==> seen1 == seen0
    ensures seen1 == start + b
  {
  }

  lemma SameUnion(now: set<nat>, start: set<nat>, a: set<nat>, b: set<nat>)
    requires now == start + a && a == b
    ensures now == start + b
  {
  }

  lemma SameSize(now: set<nat>, a: set<nat>, b: set<nat>, all: set<nat>)
    requires now == a + b && a + b == all
    ensures |now| == |all|
  {
  }

  /** A tree's byte: its height, with the visited bit set once the tree has been counted. */
  function TreeByte(height: bv8, visited: bool): bv8
  {
    if visited then height | VISITED_MASK else height
  }

  /** The low nibble is the height, bit 7 is the visited mark, and marking sets only that bit. */
  lemma TreeByteFacts(height: bv8, visited: bool)
    requires height < 10
    ensures TreeByte(height, visited) & 0xf == height
    ensures (TreeByte(height, visited) & VISITED_MASK == VISITED_MASK) == visited
    ensures TreeByte(height, false) | VISITED_MASK == TreeByte(height, true)
    ensures TreeByte(height, true) | VISITED_MASK == TreeByte(height, true)
  {
  }

  /**
   * `TreeCounter`: the tree bytes, the running count, and the running
   * maximum of the current pass.
   */
  class TreeCounter {
    var count: nat
    var maxHeight: bv8
    const size: nat
    const trees: array<bv8>
    /** The heights the grid was built from. */
    ghost const heights: seq<bv8>
    /** The interior trees counted so far. */
    ghost var seen: set<nat>

    /** The fixed facts: a square grid of digit heights. */
    ghost predicate Shape()
    {
      size >= 1 && |heights| == size * size && trees.Length == size * size
      && forall i | 0 <= i < |heights| :: heights[i] < 10
    }

    /**
     * Every byte is its tree's height plus the visited bit exactly for the
     * counted trees, only interior trees are counted, and `count` is the
     * perimeter plus the counted trees.
     */
    ghost predicate Valid()
      reads this, trees
    {
      Shape()
      && (forall i | 0 <= i < trees.Length :: trees[i] == TreeByte(heights[i], i in seen))
      && (forall i | i in seen :: Interior(size, i))
      && count == 4 * (size - 1) + |seen|
    }

    /** `TreeCounter::new`: the perimeter count, and the parsed grid with nothing marked. */
    constructor(input: seq<string>)
      requires |input| >= 1
      requires forall l | l in input :: AllDigits(l) && |l| == |input|
      ensures Valid() && fresh(trees)
      ensures size == |input| && heights == ParseGrid(input) && seen == {}
      ensures count == 4 * (size - 1)
    {
      var grid := ParseGrid(input);
      ParseGridLength(input, |input|);
      ParseGridDigits(input);
      count := 4 * (|input| - 1);
      maxHeight := 0;
      size := |input|;
      trees := new bv8[|grid|](i requires 0 <= i < |grid| => grid[i]);
      heights := grid;
      seen := {};
    }

    /**
     * `check_tree`: a tree strictly taller than the running maximum raises
     * it, and is counted unless it was counted before.
     */
    method CheckTree(index: nat)
      requires Valid() && index < trees.Length && Interior(size, index)
      modifies this, trees
      ensures Valid()
      ensures maxHeight >= old(maxHeight)
      ensures heights[index] > old(maxHeight) ==> maxHeight == heights[index] && seen == old(seen) + {index}
      ensures heights[index] <= old(maxHeight) ==> maxHeight == old(maxHeight) && seen == old(seen)
    {
      TreeByteFacts(heights[index], index in seen);
      var height := trees[index] & 0xf;
      if height > maxHeight {
        maxHeight := height;
        if trees[index] & VISITED_MASK != VISITED_MASK {
          trees[index] := trees[index] | VISITED_MASK;
          count := count + 1;
          seen := seen + {index};
        }
      }
    }

    /**
     * Part way through a pass over `line`: position `p` is next,
     * `maxHeight` is the tallest tree so far, and the pass has counted the
     * trees taller than all before them.
     */
    ghost predicate Scanning(line: seq<nat>, p: nat, start: set<nat>)
      reads this, trees
    {
      Valid()
      && (forall q | 1 <= q < |line| :: Interior(size, line[q]))
      && ScanState(heights, line, p, start, seen, maxHeight)
    }

    /** The body of a pass: check the tree at position `p`. */
    method CheckNext(line: seq<nat>, p: nat, ghost start: set<nat>)
      requires Scanning(line, p, start) && p < |line|
      modifies this, trees
      ensures Scanning(line, p + 1, start)
    {
      ghost var seenBefore := seen;
      ghost var before := maxHeight;
      CheckTree(line[p]);
      ScanAdvance(heights, line, p, start, seenBefore, seen, before, maxHeight);
    }

    /** The start of a pass: the running maximum is the edge tree's height. */
    method StartScan(line: seq<nat>)
      requires Valid() && |line| >= 1 && InGrid(heights, line)
      requires !Interior(size, line[0])
      requires forall q | 1 <= q < |line| :: Interior(size, line[q])
      modifies this
      ensures Scanning(line, 1, old(seen))
    {
      TreeByteFacts(heights[line[0]], false);
      maxHeight := trees[line[0]];
      assert ScanSeen(heights, line, 1) == {};
    }

    /**
     * One pass of `count`: the running maximum starts at the edge tree
     * that begins the line, then every later tree of the line is checked.
     */
    method Scan(line: seq<nat>)
      requires Valid() && |line| >= 1 && InGrid(heights, line)
      requires !Interior(size, line[0])
      requires forall q | 1 <= q < |line| :: Interior(size, line[q])
      modifies this, trees
      ensures Valid() && seen == old(seen) + ScanSeen(heights, line, |line|)
    {
      ghost var start := seen;
      StartScan(line);
      for p := 1 to |line|
        invariant Scanning(line, p, start)
      {
        CheckNext(line, p, start);
      }
    }

    /** The column passes have covered columns 1..x-1. */
    ghost predicate ColumnsDone(x: nat)
      reads this, trees
    {
      Valid() && 1 <= x && seen == ColumnsSeen(heights, size, x)
    }

    /** The row passes have covered rows 1..y-1 on top of `start`. */
    ghost predicate RowsDone(y: nat, start: set<nat>)
      reads this, trees
    {
      Valid() && 1 <= y && seen == start + RowsSeen(heights, size, y)
    }

    /** Column `x` down from the top edge, then up from the bottom edge. */
    method ScanColumn(x: nat)
      requires ColumnsDone(x) && x < size - 1
      modifies this, trees
      ensures ColumnsDone(x + 1)
    {
      ScansWellPlaced(size, x);
      ghost var before := seen;
      Scan(Down(size, x));
      ghost var middle := seen;
      Scan(Up(size, x));
      ColumnAdvance(heights, size, x, before, middle, seen);
    }

    /** Row `y` rightwards from the left edge, then leftwards from the right edge. */
    method ScanRow(y: nat, ghost start: set<nat>)
      requires RowsDone(y, start) && y < size - 1
      modifies this, trees
      ensures RowsDone(y + 1, start)
    {
      ScansWellPlaced(size, y);
      ghost var before := seen;
      Scan(Rightward(size, y));
      ghost var middle := seen;
      Scan(Leftward(size, y));
      RowAdvance(heights, size, y, start, before, middle, seen);
    }

    /**
     * `count`: scan every interior column down and up, then every interior
     * row right and left. The result is the perimeter plus the visible
     * interior trees.
     */
    method Count() returns (r: nat)
      requires Valid() && seen == {}
      modifies this, trees
      ensures r == 4 * (size - 1) + |VisibleInterior(heights, size)|
    {
      ScanColumns();
      ghost var columns := seen;
      ScanRows();
      AllPassesSeeVisible(heights, size, size - 1, size - 1);
      SameSize(seen, columns, RowsSeen(heights, size, size - 1), VisibleInterior(heights, size));
      r := count;
    }

    /** The column passes of `count`. */
    method ScanColumns()
      requires Valid() && seen == {}
      modifies this, trees
      ensures Valid() && seen == ColumnsSeen(heights, size, size - 1)
    {
      var x := 1;
      assert ColumnsSeen(heights, size, 1) == {};
      while x < size - 1
        invariant ColumnsDone(x)
        decreases size - x
      {
        ScanColumn(x);
        x := x + 1;
      }
      ColumnsSeenFrom(heights, size, x);
      SameUnion(seen, {}, ColumnsSeen(heights, size, x), ColumnsSeen(heights, size, size - 1));
    }

    /** The row passes of `count`. */
    method ScanRows()
      requires Valid()
      modifies this, trees
      ensures Valid() && seen == old(seen) + RowsSeen(heights, size, size - 1)
    {
      var y := 1;
      assert RowsSeen(heights, size, 1) == {};
      while y < size - 1
        invariant RowsDone(y, old(seen))
        decreases size - y
      {
        ScanRow(y, old(seen));
        y := y + 1;
      }
      RowsSeenFrom(heights, size, y);
      SameUnion(seen, old(seen), RowsSeen(heights, size, y), RowsSeen(heights, size, size - 1));
    }
  }

  /** `part_a`: the visible trees, counting the whole perimeter. */
  method PartA(input: seq<string>) returns (r: Result<nat>)
    requires forall l | l in input :: AllDigits(l) && |l| == |input|
    ensures |ParseGrid(input)| == |input| * |input|
    ensures r.Err? <==> input == []
    ensures r.Err? ==> r == Err("attempt to subtract with overflow")
    ensures r.Ok? ==> r.value == 4 * (|input| - 1) + |VisibleInterior(ParseGrid(input), |input|)|
  {
    ParseGridLength(input, |input|);
    if |input| == 0 {
      // `4 * (input.len() - 1)` underflows
      return Err("attempt to subtract with overflow");
    }
    var counter := new TreeCounter(input);
    var count := counter.Count();
    r := Ok(count);
  }

  // Scenic scores

  /**
   * The viewing distance along `view` (nearest tree first) for a tree of
   * height `height`: `position` of the first tree at least as tall, plus
   * one, or the whole view when there is none.
   */
  function ViewingDistance(view: seq<bv8>, height: bv8): (r: nat)
    ensures r <= |view|
    ensures forall k | 0 <= k < r - 1 :: !Blocks(view[k], height)
    ensures (exists k | 0 <= k < |view| :: Blocks(view[k], height)) ==> 1 <= r && Blocks(view[r - 1], height)
    ensures (forall k | 0 <= k < |view| :: !Blocks(view[k], height)) ==> r == |view|
  {
    if view == [] then 0
    else if Blocks(view[0], height) then 1
    else
      var rest := ViewingDistance(view[1..], height);
      assert forall k | 1 <= k < |view| :: view[k] == view[1..][k - 1];
      1 + rest
  }

  /** A tree at least as tall as the one looking ends the view. */
  predicate Blocks(tree: bv8, height: bv8) { tree >= height }

  /** The trees above (x, y), nearest first. */
  function Above(h: seq<bv8>, n: nat, x: nat, y: nat): (r: seq<bv8>)
    requires |h| == n * n && x < n && y < n
    ensures |r| == y && forall k | 0 <= k < y :: r[k] == h[Idx(n, x, y - 1 - k)]
  {
    seq(y, k requires 0 <= k < y => h[Idx(n, x, y - 1 - k)])
  }

  /** The trees below (x, y), nearest first. */
  function Below(h: seq<bv8>, n: nat, x: nat, y: nat): (r: seq<bv8>)
    requires |h| == n * n && x < n && y < n
    ensures |r| == n - 1 - y && forall k | 0 <= k < n - 1 - y :: r[k] == h[Idx(n, x, y + 1 + k)]
  {
    seq(n - 1 - y, k requires 0 <= k < n - 1 - y => h[Idx(n, x, y + 1 + k)])
  }

  /** The trees left of (x, y), nearest first. */
  function LeftOf(h: seq<bv8>, n: nat, x: nat, y: nat): (r: seq<bv8>)
    requires |h| == n * n && x < n && y < n
    ensures |r| == x && forall k | 0 <= k < x :: r[k] == h[Idx(n, x - 1 - k, y)]
  {
    seq(x, k requires 0 <= k < x => h[Idx(n, x - 1 - k, y)])
  }

  /** The trees right of (x, y), nearest first. */
  function RightOf(h: seq<bv8>, n: nat, x: nat, y: nat): (r: seq<bv8>)
    requires |h| == n * n && x < n && y < n
    ensures |r| == n - 1 - x && forall k | 0 <= k < n - 1 - x :: r[k] == h[Idx(n, x + 1 + k, y)]
  {
    seq(n - 1 - x, k requires 0 <= k < n - 1 - x => h[Idx(n, x + 1 + k, y)])
  }

  /** The scenic score: the product of the four viewing distances. */
  function ScenicScore(h: seq<bv8>, n: nat, x: nat, y: nat): nat
    requires |h| == n * n && x < n && y < n
  {
    var height := h[Idx(n, x, y)];
    Product(Product(Product(ViewingDistance(Above(h, n, x, y), height), ViewingDistance(Below(h, n, x, y), height)),
      ViewingDistance(LeftOf(h, n, x, y), height)), ViewingDistance(RightOf(h, n, x, y), height))
  }

  function Product(a: nat, b: nat): nat
  {
    MulNat(a, b);
    a * b
  }

  /** A tree `select` scores: an interior tree at least `minHeight` tall. */
  predicate Candidate(h: seq<bv8>, n: nat, minHeight: bv8, x: nat, y: nat)
    requires |h| == n * n
  {
    1 <= x < n - 1 && 1 <= y < n - 1 && h[Idx(n, x, y)] >= minHeight
  }

  /** Column `x'`, row `y'` comes before column `x`, row `y` in `select`'s order. */
  predicate Before(x': nat, y': nat, x: nat, y: nat)
  {
    x' < x || (x' == x && y' < y)
  }

  /** `best` is the best score of the candidates visited before (x, y), or 0 when none scores. */
  ghost predicate BestSoFar(h: seq<bv8>, n: nat, minHeight: bv8, x: nat, y: nat, best: nat)
    requires |h| == n * n
  {
    (forall x', y' | 0 <= x' < n && 0 <= y' < n && Before(x', y', x, y) && Candidate(h, n, minHeight, x', y') ::
      ScenicScore(h, n, x', y') <= best)
    && (best == 0 || exists x', y' | 0 <= x' < n && 0 <= y' < n && Before(x', y', x, y)
      && Candidate(h, n, minHeight, x', y') :: ScenicScore(h, n, x', y') == best)
  }

  /** A finished column counts as the start of the next one. */
  lemma NextColumn(h: seq<bv8>, n: nat, minHeight: bv8, x: nat, best: nat)
    requires |h| == n * n && n >= 2
    requires BestSoFar(h, n, minHeight, x, n - 1, best)
    ensures BestSoFar(h, n, minHeight, x + 1, 1, best)
  {
    forall x', y' | 0 <= x' < n && 0 <= y' < n && Candidate(h, n, minHeight, x', y')
      ensures Before(x', y', x, n - 1) <==> Before(x', y', x + 1, 1)
    {
    }
  }

  /** Visiting (x, y) extends the trees visited by one. */
  lemma Visit(h: seq<bv8>, n: nat, minHeight: bv8, x: nat, y: nat, best: nat, best': nat)
    requires |h| == n * n && 1 <= x < n - 1 && 1 <= y < n - 1
    requires BestSoFar(h, n, minHeight, x, y, best)
    requires best' == if Candidate(h, n, minHeight, x, y) && ScenicScore(h, n, x, y) > best
      then ScenicScore(h, n, x, y) else best
    ensures BestSoFar(h, n, minHeight, x, y + 1, best')
  {
    forall x', y' | 0 <= x' < n && 0 <= y' < n
      ensures Before(x', y', x, y + 1) <==> Before(x', y', x, y) || (x' == x && y' == y)
    {
    }
  }

  /** The body of `select`'s inner loop: score the tree at (x, y) if it is tall enough. */
  method VisitTree(h: seq<bv8>, n: nat, minHeight: bv8, x: nat, y: nat, best: nat) returns (best': nat)
    requires |h| == n * n && 1 <= x < n - 1 && 1 <= y < n - 1
    requires BestSoFar(h, n, minHeight, x, y, best)
    ensures BestSoFar(h, n, minHeight, x, y + 1, best')
  {
    best' := best;
    var height := h[Idx(n, x, y)];
    if height >= minHeight {
      assert Candidate(h, n, minHeight, x, y);
      var score := ScenicScore(h, n, x, y);
      if score > best' {
        best' := score;
      }
    } else {
      assert !Candidate(h, n, minHeight, x, y);
    }
    Visit(h, n, minHeight, x, y, best, best');
  }

  /** The inner loop of `select`: the interior trees of column `x`. */
  method SelectColumn(h: seq<bv8>, n: nat, minHeight: bv8, x: nat, best: nat) returns (best': nat)
    requires |h| == n * n && 1 <= x < n - 1
    requires BestSoFar(h, n, minHeight, x, 1, best)
    ensures BestSoFar(h, n, minHeight, x, n - 1, best')
  {
    best' := best;
    for y := 1 to n - 1
      invariant BestSoFar(h, n, minHeight, x, y, best')
    {
      best' := VisitTree(h, n, minHeight, x, y, best');
    }
  }

  /**
   * `SpotSelector::select`: the best scenic score over the interior trees
   * at least `minHeight` tall, 0 when there is none.
   */
  method Select(h: seq<bv8>, n: nat, minHeight: bv8) returns (best: nat)
    requires |h| == n * n && n >= 1
    ensures forall x, y | 0 <= x < n && 0 <= y < n && Candidate(h, n, minHeight, x, y) ::
      ScenicScore(h, n, x, y) <= best
    ensures best == 0 || exists x, y | 0 <= x < n && 0 <= y < n && Candidate(h, n, minHeight, x, y) ::
      ScenicScore(h, n, x, y) == best
  {
    best := 0;
    if n < 3 {
      return;
    }
    for x := 1 to n - 1
      invariant BestSoFar(h, n, minHeight, x, 1, best)
    {
      best := SelectColumn(h, n, minHeight, x, best);
      NextColumn(h, n, minHeight, x, best);
    }
    assert BestSoFar(h, n, minHeight, n - 1, 1, best);
  }

  /** `part_b`: the best scenic score among trees of height at least 6. */
  method PartB(input: seq<string>) returns (r: Result<nat>)
    requires forall l | l in input :: AllDigits(l) && |l| == |input|
    ensures |ParseGrid(input)| == |input| * |input|
    ensures r.Err? <==> input == []
    ensures r.Err? ==> r == Err("attempt to subtract with overflow")
    ensures r.Ok? ==> forall x, y | 0 <= x < |input| && 0 <= y < |input| && Candidate(ParseGrid(input), |input|, 6, x, y) ::
      ScenicScore(ParseGrid(input), |input|, x, y) <= r.value
    ensures r.Ok? ==> r.value == 0 || exists x, y | 0 <= x < |input| && 0 <= y < |input| && Candidate(ParseGrid(input), |input|, 6, x, y) ::
      ScenicScore(ParseGrid(input), |input|, x, y) == r.value
  {
    ParseGridLength(input, |input|);
    if |input| == 0 {
      // `self.size - 1` underflows in `select`
      return Err("attempt to subtract with overflow");
    }
    var best := Select(ParseGrid(input), |input|, 6);
    r := Ok(best);
  }
}
