/**
 * Day 14: rock paths are drawn into a cave, then sand is poured in from a
 * source at (500, 0). Part A counts the grains that come to rest before one
 * falls below the lowest horizontal rock; part B puts a floor under that row
 * and counts the cells the sand fills until the source is blocked.
 */
module Day14 {
  import opened Common

  // The cave spans x in [MIN_X, MAX_X] and y in [0, MAX_Y].
  const MIN_X: nat := 300
  const MAX_X: nat := 700
  const MAX_Y: nat := 180
  const WIDTH: nat := MAX_X - MIN_X + 1
  const HEIGHT: nat := MAX_Y + 1
  /** The grid column of the sand source at x = 500. */
  const SOURCE_X: nat := 500 - MIN_X

  datatype Coordinate = Coordinate(x: nat, y: nat)

  /** The cave's cells, row by row: true where rock or sand is. */
  type Grid = seq<seq<bool>>

  predicate Shaped(g: Grid)
  {
    |g| == HEIGHT && forall y | 0 <= y < HEIGHT :: |g[y]| == WIDTH
  }

  function Empty(): (g: Grid)
    ensures Shaped(g)
  {
    seq(HEIGHT, _ => seq(WIDTH, _ => false))
  }

  /** `build_range`: the inclusive range between two ends, lower end first. */
  function BuildRange(a: nat, b: nat): (r: (nat, nat))
    ensures r.0 <= r.1 && {r.0, r.1} == {a, b}
  {
    if a < b then (a, b) else (b, a)
  }

  // ---------------------------------------------------------------------
  // Parsing

  /** `Coordinate::from_str`: "x,y", split at the first comma, both `usize`. */
  function ParseCoordinate(token: string): (r: Result<Coordinate>)
    ensures ',' !in token ==> r.Err?
    ensures r.Ok? ==> r.value.x <= USIZE_MAX && r.value.y <= USIZE_MAX
  {
    match SplitOnce(token, ',')
    case None => Err("Could not find , in " + token)
    case Some((x, y)) =>
      match ParseUsize(x)
      case None => Err("invalid digit found in string")
      case Some(x) =>
        match ParseUsize(y)
        case None => Err("invalid digit found in string")
        case Some(y) => Ok(Coordinate(x, y))
  }

  function FormatCoordinate(c: Coordinate): string
  {
    NatToString(c.x) + "," + NatToString(c.y)
  }

  /** Parsing a written coordinate gives it back. */
  lemma ParseFormatCoordinate(c: Coordinate)
    requires c.x <= USIZE_MAX && c.y <= USIZE_MAX
    ensures ParseCoordinate(FormatCoordinate(c)) == Ok(c)
  {
    NoSeparatorInNumber(c.x, ',');
    SplitAtFirst(NatToString(c.x), ',', NatToString(c.y));
    ParseNatToString(c.x, USIZE_MAX);
    ParseNatToString(c.y, USIZE_MAX);
  }

  /** The coordinate tokens of a line: every other word, skipping the arrows. */
  function Points(line: string): seq<string>
  {
    var w := Words(line);
    seq((|w| + 1) / 2, k requires 0 <= k < (|w| + 1) / 2 => w[2 * k])
  }

  /** The coordinates of the tokens of a path. */
  function ParsePath(tokens: seq<string>): Result<seq<Coordinate>>
  {
    ParseEach(tokens, ParseCoordinate)
  }

  /** One rock path: at least one coordinate, else "Unexpected end of input". */
  function ParseLine(line: string): (r: Result<seq<Coordinate>>)
    ensures r.Ok? ==> |r.value| > 0 && r == ParsePath(Points(line))
    ensures Points(line) == [] ==> r == Err("Unexpected end of input")
  {
    var tokens := Points(line);
    if tokens == [] then Err("Unexpected end of input") else ParsePath(tokens)
  }

  /** The paths of all lines. */
  function ParsePaths(lines: seq<string>): Result<seq<seq<Coordinate>>>
  {
    ParseEach(lines, ParseLine)
  }

  /** A failing line after lines that parse is the error of the whole input. */
  lemma LineFails(lines: seq<string>, i: nat)
    requires i < |lines| && ParsePaths(lines[..i]).Ok? && ParseLine(lines[i]).Err?
    ensures ParsePaths(lines) == Err(ParseLine(lines[i]).message)
  {
    assert lines[..i + 1][..i] == lines[..i];
    ParseEachSticky(lines, ParseLine, i + 1);
  }

  // ---------------------------------------------------------------------
  // Bounds

  /** A cave point that the grid holds. */
  predicate InBounds(c: Coordinate)
  {
    MIN_X <= c.x <= MAX_X && c.y <= MAX_Y
  }

  predicate Fits(token: string)
  {
    ParseCoordinate(token).Ok? ==> InBounds(ParseCoordinate(token).value)
  }

  /** Every coordinate written on the line lies inside the grid. */
  predicate LineFits(line: string)
  {
    forall k | 0 <= k < |Points(line)| :: Fits(Points(line)[k])
  }

  /** Every coordinate written in the input lies inside the grid. */
  predicate CoordinatesFit(input: seq<string>)
  {
    forall i | 0 <= i < |input| :: LineFits(input[i])
  }

  predicate PathFits(path: seq<Coordinate>)
  {
    forall k | 0 <= k < |path| :: InBounds(path[k])
  }

  predicate PathsFit(paths: seq<seq<Coordinate>>)
  {
    forall i | 0 <= i < |paths| :: PathFits(paths[i])
  }

  lemma ParsedFit(input: seq<string>, paths: seq<seq<Coordinate>>)
    requires CoordinatesFit(input) && ParsePaths(input) == Ok(paths)
    ensures PathsFit(paths)
  {
    ParseEachOk(input, ParseLine);
    forall i | 0 <= i < |paths|
      ensures PathFits(paths[i])
    {
      assert ParseLine(input[i]) == Ok(paths[i]);
      var tokens := Points(input[i]);
      assert LineFits(input[i]);
      ParseEachOk(tokens, ParseCoordinate);
      forall k | 0 <= k < |paths[i]|
        ensures InBounds(paths[i][k])
      {
        assert ParseCoordinate(tokens[k]) == Ok(paths[i][k]);
        assert Fits(tokens[k]);
      }
    }
  }

  // ---------------------------------------------------------------------
  // Drawing the rock

  /** Row y with the columns lo <= x < end set. */
  function PaintRow(g: Grid, y: nat, lo: nat, end: nat): (r: Grid)
    requires Shaped(g) && y < HEIGHT
    ensures Shaped(r)
  {
    g[y := seq(WIDTH, x requires 0 <= x < WIDTH => g[y][x] || lo <= x < end)]
  }

  /** Column x with the rows lo <= y < end set. */
  function PaintColumn(g: Grid, x: nat, lo: nat, end: nat): (r: Grid)
    requires Shaped(g) && x < WIDTH
    ensures Shaped(r)
  {
    seq(HEIGHT, y requires 0 <= y < HEIGHT => if lo <= y < end then g[y][x := true] else g[y])
  }

  lemma PaintRowStep(g: Grid, y: nat, lo: nat, x: nat)
    requires Shaped(g) && y < HEIGHT && lo <= x < WIDTH
    ensures (var p := PaintRow(g, y, lo, x); p[y := p[y][x := true]]) == PaintRow(g, y, lo, x + 1)
  {
    var p := PaintRow(g, y, lo, x);
    assert p[y][x := true] == PaintRow(g, y, lo, x + 1)[y];
  }

  lemma PaintRowNone(g: Grid, y: nat, lo: nat)
    requires Shaped(g) && y < HEIGHT
    ensures PaintRow(g, y, lo, lo) == g
  {
    assert PaintRow(g, y, lo, lo)[y] == g[y];
  }

  lemma PaintColumnStep(g: Grid, x: nat, lo: nat, y: nat)
    requires Shaped(g) && x < WIDTH && lo <= y < HEIGHT
    ensures (var p := PaintColumn(g, x, lo, y); p[y := p[y][x := true]]) == PaintColumn(g, x, lo, y + 1)
  {
  }

  lemma PaintColumnNone(g: Grid, x: nat, lo: nat)
    requires Shaped(g) && x < WIDTH
    ensures PaintColumn(g, x, lo, lo) == g
  {
  }

  /**
   * One segment as the cave draws it: a segment whose ends differ in x is
   * drawn along the row of its start, any other along its column.
   */
  function DrawSegment(g: Grid, s: Coordinate, e: Coordinate): (r: Grid)
    requires Shaped(g) && InBounds(s) && InBounds(e)
    ensures Shaped(r)
  {
    if s.x != e.x then
      var (lo, hi) := BuildRange(s.x - MIN_X, e.x - MIN_X);
      PaintRow(g, s.y, lo, hi + 1)
    else
      var (lo, hi) := BuildRange(s.y, e.y);
      PaintColumn(g, s.x - MIN_X, lo, hi + 1)
  }

  /** Each segment of the path in turn, from the first. */
  function DrawPath(g: Grid, path: seq<Coordinate>): (r: Grid)
    requires Shaped(g) && PathFits(path)
    ensures Shaped(r)
  {
    if |path| < 2 then g
    else
      var n := |path| - 1;
      DrawSegment(DrawPath(g, path[..n]), path[n - 1], path[n])
  }

  /** Extending a path by one point draws one more segment and raises the max by its row. */
  lemma ExtendPath(g: Grid, path: seq<Coordinate>, e: Coordinate, b: nat)
    requires Shaped(g) && PathFits(path) && |path| > 0 && InBounds(e)
    ensures PathFits(path + [e])
    ensures DrawPath(g, path + [e]) == DrawSegment(DrawPath(g, path), path[|path| - 1], e)
    ensures HorizontalMax(path + [e])
      == Max(HorizontalMax(path), if path[|path| - 1].x != e.x then path[|path| - 1].y else 0)
    ensures Max(b, HorizontalMax(path + [e]))
      == if path[|path| - 1].x != e.x && path[|path| - 1].y > Max(b, HorizontalMax(path))
        then path[|path| - 1].y else Max(b, HorizontalMax(path))
  {
    assert (path + [e])[..|path|] == path;
  }

  /** Extending the paths by one draws it last and lowers the bottom to its rows. */
  lemma ExtendPaths(g: Grid, paths: seq<seq<Coordinate>>, path: seq<Coordinate>)
    requires Shaped(g) && PathsFit(paths) && PathFits(path)
    ensures PathsFit(paths + [path])
    ensures DrawPaths(g, paths + [path]) == DrawPath(DrawPaths(g, paths), path)
    ensures Lowest(paths + [path]) == Max(Lowest(paths), HorizontalMax(path))
  {
    assert (paths + [path])[..|paths|] == paths;
  }

  function DrawPaths(g: Grid, paths: seq<seq<Coordinate>>): (r: Grid)
    requires Shaped(g) && PathsFit(paths)
    ensures Shaped(r)
  {
    if paths == [] then g
    else
      var n := |paths| - 1;
      DrawPath(DrawPaths(g, paths[..n]), paths[n])
  }

  /** The cell of cave point c. */
  predicate Rock(g: Grid, c: Coordinate)
    requires Shaped(g) && InBounds(c)
  {
    g[c.y][c.x - MIN_X]
  }

  /** Whether cave point c lies on the segment from s to e, as it is drawn. */
  predicate OnSegment(s: Coordinate, e: Coordinate, c: Coordinate)
  {
    if s.x != e.x then c.y == s.y && Min(s.x, e.x) <= c.x <= Max(s.x, e.x)
    else c.x == s.x && Min(s.y, e.y) <= c.y <= Max(s.y, e.y)
  }

  predicate OnPath(path: seq<Coordinate>, c: Coordinate)
  {
    exists k | 0 <= k < |path| - 1 :: OnSegment(path[k], path[k + 1], c)
  }

  predicate OnAnyPath(paths: seq<seq<Coordinate>>, c: Coordinate)
  {
    exists i | 0 <= i < |paths| :: OnPath(paths[i], c)
  }

  /** Drawing a segment sets exactly its points and keeps every other cell. */
  lemma DrawSegmentCells(g: Grid, s: Coordinate, e: Coordinate, c: Coordinate)
    requires Shaped(g) && InBounds(s) && InBounds(e) && InBounds(c)
    ensures Rock(DrawSegment(g, s, e), c) == (Rock(g, c) || OnSegment(s, e, c))
  {
  }

  lemma {:induction false} DrawPathCells(g: Grid, path: seq<Coordinate>, c: Coordinate)
    requires Shaped(g) && PathFits(path) && InBounds(c)
    ensures Rock(DrawPath(g, path), c) == (Rock(g, c) || OnPath(path, c))
  {
    if |path| >= 2 {
      var n := |path| - 1;
      var prefix := path[..n];
      DrawPathCells(g, prefix, c);
      DrawSegmentCells(DrawPath(g, prefix), path[n - 1], path[n], c);
      if OnPath(path, c) {
        var k :| 0 <= k < |path| - 1 && OnSegment(path[k], path[k + 1], c);
        if k < n - 1 {
          assert OnSegment(prefix[k], prefix[k + 1], c);
        }
      }
      if OnPath(prefix, c) {
        var k :| 0 <= k < |prefix| - 1 && OnSegment(prefix[k], prefix[k + 1], c);
        assert OnSegment(path[k], path[k + 1], c);
      }
      if OnSegment(path[n - 1], path[n], c) {
        assert OnSegment(path[n - 1], path[(n - 1) + 1], c);
      }
    } else {
      assert !OnPath(path, c);
    }
  }

  lemma {:induction false} DrawPathsCells(g: Grid, paths: seq<seq<Coordinate>>, c: Coordinate)
    requires Shaped(g) && PathsFit(paths) && InBounds(c)
    ensures Rock(DrawPaths(g, paths), c) == (Rock(g, c) || OnAnyPath(paths, c))
  {
    if paths != [] {
      var n := |paths| - 1;
      var prefix := paths[..n];
      DrawPathsCells(g, prefix, c);
      DrawPathCells(DrawPaths(g, prefix), paths[n], c);
      if OnAnyPath(paths, c) {
        var i :| 0 <= i < |paths| && OnPath(paths[i], c);
        if i < n {
          assert OnPath(prefix[i], c);
        }
      }
      if OnAnyPath(prefix, c) {
        var i :| 0 <= i < |prefix| && OnPath(prefix[i], c);
        assert OnPath(paths[i], c);
      }
    } else {
      assert !OnAnyPath(paths, c);
    }
  }

  /** Whether segment k of the path is drawn along a row. */
  predicate Horizontal(path: seq<Coordinate>, k: int)
  {
    0 <= k < |path| - 1 && path[k].x != path[k + 1].x
  }

  /** The largest y of a horizontal segment of the path, 0 when there is none. */
  function HorizontalMax(path: seq<Coordinate>): nat
  {
    if |path| < 2 then 0
    else
      var n := |path| - 1;
      Max(HorizontalMax(path[..n]), if path[n - 1].x != path[n].x then path[n - 1].y else 0)
  }

  function Lowest(paths: seq<seq<Coordinate>>): nat
  {
    if paths == [] then 0
    else Max(Lowest(paths[..|paths| - 1]), HorizontalMax(paths[|paths| - 1]))
  }

  /** HorizontalMax is the y of the lowest horizontal segment, or 0. */
  lemma {:induction false} HorizontalMaxIs(path: seq<Coordinate>)
    ensures forall k | Horizontal(path, k) :: path[k].y <= HorizontalMax(path)
    ensures HorizontalMax(path) == 0
      || exists k | Horizontal(path, k) :: path[k].y == HorizontalMax(path)
  {
    if |path| >= 2 {
      var n := |path| - 1;
      var prefix := path[..n];
      HorizontalMaxIs(prefix);
      forall k | Horizontal(path, k)
        ensures path[k].y <= HorizontalMax(path)
      {
        if k < n - 1 {
          assert Horizontal(prefix, k);
        }
      }
      if HorizontalMax(path) != 0 {
        if HorizontalMax(path) == HorizontalMax(prefix) {
          var k :| Horizontal(prefix, k) && prefix[k].y == HorizontalMax(prefix);
          assert Horizontal(path, k);
        } else {
          assert Horizontal(path, n - 1);
        }
      }
    }
  }

  lemma {:induction false} LowestIs(paths: seq<seq<Coordinate>>)
    ensures forall i, k | 0 <= i < |paths| && Horizontal(paths[i], k) :: paths[i][k].y <= Lowest(paths)
    ensures Lowest(paths) == 0
      || exists i, k | 0 <= i < |paths| && Horizontal(paths[i], k) :: paths[i][k].y == Lowest(paths)
  {
    if paths != [] {
      var n := |paths| - 1;
      var prefix := paths[..n];
      LowestIs(prefix);
      HorizontalMaxIs(paths[n]);
      forall i, k | 0 <= i < |paths| && Horizontal(paths[i], k)
        ensures paths[i][k].y <= Lowest(paths)
      {
        if i < n {
          assert Horizontal(prefix[i], k);
        }
      }
      if Lowest(paths) != 0 {
        if Lowest(paths) == Lowest(prefix) {
          var i, k :| 0 <= i < |prefix| && Horizontal(prefix[i], k) && prefix[i][k].y == Lowest(prefix);
          assert Horizontal(paths[i], k);
        } else {
          var k :| Horizontal(paths[n], k) && paths[n][k].y == HorizontalMax(paths[n]);
          assert paths[n][k].y == Lowest(paths);
        }
      }
    }
  }

  /** The body of the loop of `Cave::new` over the lines: one path drawn, segment by segment. */
  method DrawLine(grid: Grid, bottom: nat, line: string) returns (r: Result<(Grid, nat)>)
    requires Shaped(grid) && LineFits(line)
    ensures r.Ok? <==> ParseLine(line).Ok?
    ensures r.Err? ==> r.message == ParseLine(line).message
    ensures r.Ok? ==> (PathFits(ParseLine(line).value)
      && r.value.0 == DrawPath(grid, ParseLine(line).value)
      && r.value.1 == Max(bottom, HorizontalMax(ParseLine(line).value)))
  {
    var tokens := Points(line);
    if |tokens| == 0 {
      return Err("Unexpected end of input");
    }
    var first := ParseCoordinate(tokens[0]);
    if first.Err? {
      ParseEachStep(tokens, ParseCoordinate, 0, []);
      ParseEachSticky(tokens, ParseCoordinate, 1);
      return Err(first.message);
    }
    var start := first.value;
    assert Fits(tokens[0]);
    ghost var path := [start];
    ParseEachStep(tokens, ParseCoordinate, 0, []);
    assert [] + [start] == path;
    var marked, lowest := grid, bottom;
    for k := 1 to |tokens|
      invariant ParsePath(tokens[..k]) == Ok(path)
      invariant |path| == k && path[k - 1] == start && PathFits(path)
      invariant marked == DrawPath(grid, path)
      invariant lowest == Max(bottom, HorizontalMax(path))
    {
      var next := ParseCoordinate(tokens[k]);
      ParseEachStep(tokens, ParseCoordinate, k, path);
      if next.Err? {
        ParseEachSticky(tokens, ParseCoordinate, k + 1);
        return Err(next.message);
      }
      var end := next.value;
      assert Fits(tokens[k]);
      if start.x != end.x {
        var y := start.y;
        if y > lowest {
          lowest := y;
        }
      }
      marked := Mark(marked, start, end);
      ExtendPath(grid, path, end, bottom);
      path := path + [end];
      start := end;
    }
    assert tokens[..|tokens|] == tokens;
    return Ok((marked, lowest));
  }

  /** The loops of `Cave::new` that set the cells of one segment. */
  method Mark(grid: Grid, start: Coordinate, end: Coordinate) returns (marked: Grid)
    requires Shaped(grid) && InBounds(start) && InBounds(end)
    ensures marked == DrawSegment(grid, start, end)
  {
    marked := grid;
    if start.x != end.x {
      var y := start.y;
      var (lo, hi) := BuildRange(start.x - MIN_X, end.x - MIN_X);
      PaintRowNone(grid, y, lo);
      for x := lo to hi + 1
        invariant marked == PaintRow(grid, y, lo, x)
      {
        PaintRowStep(grid, y, lo, x);
        marked := marked[y := marked[y][x := true]];
      }
    } else {
      var x := start.x - MIN_X;
      var (lo, hi) := BuildRange(start.y, end.y);
      PaintColumnNone(grid, x, lo);
      for y := lo to hi + 1
        invariant marked == PaintColumn(grid, x, lo, y)
      {
        PaintColumnStep(grid, x, lo, y);
        marked := marked[y := marked[y][x := true]];
      }
    }
  }

  /** `Cave::new` as values: the drawn grid and the row below the lowest horizontal rock. */
  function Build(input: seq<string>): (r: Result<(Grid, nat)>)
    requires CoordinatesFit(input)
    ensures r.Ok? ==> Shaped(r.value.0) && r.value.1 >= 1
  {
    match ParsePaths(input)
    case Err(e) => Err(e)
    case Ok(paths) =>
      ParsedFit(input, paths);
      Ok((DrawPaths(Empty(), paths), Lowest(paths) + 1))
  }

  /** The built cave holds rock exactly on the points of the input's segments. */
  lemma BuildMarksSegments(input: seq<string>, c: Coordinate)
    requires CoordinatesFit(input) && Build(input).Ok? && InBounds(c)
    ensures Rock(Build(input).value.0, c) <==> OnAnyPath(ParsePaths(input).value, c)
  {
    var paths := ParsePaths(input).value;
    ParsedFit(input, paths);
    DrawPathsCells(Empty(), paths, c);
  }

  /**
   * The built cave's bottom is one below the lowest horizontal segment, or 1
   * when there is none; vertical segments do not count.
   */
  lemma BuildBottom(input: seq<string>)
    requires CoordinatesFit(input) && Build(input).Ok?
    ensures var paths := ParsePaths(input).value;
      forall i, k | 0 <= i < |paths| && Horizontal(paths[i], k) :: paths[i][k].y < Build(input).value.1
    ensures var paths := ParsePaths(input).value;
      Build(input).value.1 == 1
      || exists i, k | 0 <= i < |paths| && Horizontal(paths[i], k) :: paths[i][k].y + 1 == Build(input).value.1
  {
    LowestIs(ParsePaths(input).value);
  }

  // ---------------------------------------------------------------------
  // Falling sand

  /** The cells below the source that a grain can reach: one column sideways per row. */
  predicate InCone(x: nat, y: nat)
  {
    SOURCE_X <= x + y && x <= SOURCE_X + y
  }

  /**
   * Where a grain at (x, y) ends up. It falls straight down if it can, else
   * down-left, else down-right; a move that reaches row `bottom` loses the
   * grain (None); a grain that cannot move rests where it is.
   */
  function Fall(g: Grid, bottom: nat, x: nat, y: nat): Option<Coordinate>
    requires Shaped(g) && bottom < HEIGHT && y < bottom && InCone(x, y)
    decreases bottom - y
  {
    if g[y + 1][x] && g[y + 1][x - 1] && g[y + 1][x + 1] then Some(Coordinate(x, y))
    else
      var next: nat := if !g[y + 1][x] then x else if !g[y + 1][x - 1] then x - 1 else x + 1;
      if y + 1 == bottom then None else Fall(g, bottom, next, y + 1)
  }

  /** A grain at rest: on an empty cell above `bottom`, with all three cells below it full. */
  predicate Resting(g: Grid, bottom: nat, c: Coordinate)
  {
    Shaped(g) && bottom < HEIGHT && c.y < bottom && InCone(c.x, c.y)
    && !g[c.y][c.x]
    && g[c.y + 1][c.x] && g[c.y + 1][c.x - 1] && g[c.y + 1][c.x + 1]
  }

  lemma {:induction false} FallRests(g: Grid, bottom: nat, x: nat, y: nat)
    requires Shaped(g) && bottom < HEIGHT && y < bottom && InCone(x, y) && !g[y][x]
    ensures Fall(g, bottom, x, y).Some? ==> Resting(g, bottom, Fall(g, bottom, x, y).value)
    decreases bottom - y
  {
    if !(g[y + 1][x] && g[y + 1][x - 1] && g[y + 1][x + 1]) && y + 1 != bottom {
      var next: nat := if !g[y + 1][x] then x else if !g[y + 1][x - 1] then x - 1 else x + 1;
      FallRests(g, bottom, next, y + 1);
    }
  }

  /** `drop_sand` as a value: where a grain from the source rests, if it does. */
  function Drop(g: Grid, bottom: nat): (r: Option<Coordinate>)
    requires Shaped(g) && 1 <= bottom < HEIGHT
    ensures g[0][SOURCE_X] ==> r.None?
    ensures r.Some? ==> Resting(g, bottom, r.value)
  {
    if g[0][SOURCE_X] then None
    else
      FallRests(g, bottom, SOURCE_X, 0);
      Fall(g, bottom, SOURCE_X, 0)
  }

  /** The grid with the cell at c set. */
  function Fill(g: Grid, c: Coordinate): (r: Grid)
    requires Shaped(g) && c.y < HEIGHT && c.x < WIDTH
    ensures Shaped(r)
  {
    g[c.y := g[c.y][c.x := true]]
  }

  function CountEmpty(row: seq<bool>): (n: nat)
    ensures n <= |row|
  {
    if row == [] then 0
    else CountEmpty(row[..|row| - 1]) + (if row[|row| - 1] then 0 else 1)
  }

  lemma {:induction false} CountEmptyFill(row: seq<bool>, x: nat)
    requires x < |row| && !row[x]
    ensures CountEmpty(row[x := true]) + 1 == CountEmpty(row)
  {
    var n := |row| - 1;
    if x < n {
      CountEmptyFill(row[..n], x);
      assert row[x := true][..n] == row[..n][x := true];
    } else {
      assert row[x := true][..n] == row[..n];
    }
  }

  /** How many cells of the grid are empty. */
  function Unfilled(g: Grid): nat
  {
    Sum(seq(|g|, y requires 0 <= y < |g| => CountEmpty(g[y])))
  }

  /** Setting an empty cell leaves one empty cell fewer. */
  lemma UnfilledFill(g: Grid, c: Coordinate)
    requires Shaped(g) && c.y < HEIGHT && c.x < WIDTH && !g[c.y][c.x]
    ensures Unfilled(Fill(g, c)) + 1 == Unfilled(g)
  {
    var counts := seq(|g|, y requires 0 <= y < |g| => CountEmpty(g[y]));
    var filled := Fill(g, c);
    CountEmptyFill(g[c.y], c.x);
    SumUpdate(counts, c.y, CountEmpty(filled[c.y]));
    assert seq(|filled|, y requires 0 <= y < |filled| => CountEmpty(filled[y]))
      == counts[c.y := CountEmpty(filled[c.y])];
  }

  /** Every cell full in a is full in b. */
  predicate Grows(a: Grid, b: Grid)
    requires Shaped(a) && Shaped(b)
  {
    forall y, x | 0 <= y < HEIGHT && 0 <= x < WIDTH :: a[y][x] ==> b[y][x]
  }

  /**
   * Dropping grains one at a time until one does not come to rest: how many
   * came to rest, and the grid after them. Each rested grain filled one empty
   * cell, and the next grain would not come to rest.
   */
  function Pour(g: Grid, bottom: nat): (r: (nat, Grid))
    requires Shaped(g) && 1 <= bottom < HEIGHT
    ensures Shaped(r.1) && Grows(g, r.1)
    ensures r.0 + Unfilled(r.1) == Unfilled(g)
    ensures Drop(r.1, bottom).None?
    decreases Unfilled(g)
  {
    match Drop(g, bottom)
    case None => (0, g)
    case Some(c) =>
      UnfilledFill(g, c);
      var r := Pour(Fill(g, c), bottom);
      (r.0 + 1, r.1)
  }

  // ---------------------------------------------------------------------
  // Sand on a floor

  /** A cell that the sand filled: full in g, empty at the start. */
  predicate Added(start: Grid, g: Grid, x: nat, y: nat)
    requires Shaped(start) && Shaped(g) && y < HEIGHT && x < WIDTH
  {
    g[y][x] && !start[y][x]
  }

  /** Each of the three cells below (x, y) is full or waiting in the queue. */
  predicate Covered(g: Grid, queue: seq<Coordinate>, x: nat, y: nat)
    requires Shaped(g) && 1 <= x && x + 1 < WIDTH && y + 1 < HEIGHT
  {
    (g[y + 1][x] || Coordinate(x, y + 1) in queue)
    && (g[y + 1][x - 1] || Coordinate(x - 1, y + 1) in queue)
    && (g[y + 1][x + 1] || Coordinate(x + 1, y + 1) in queue)
  }

  /** Every queued cell lies in the cone, no lower than `bottom`. */
  ghost predicate Queued(queue: seq<Coordinate>, bottom: nat)
  {
    forall i | 0 <= i < |queue| :: queue[i].y <= bottom && InCone(queue[i].x, queue[i].y)
  }

  /**
   * Every added cell lies in the cone no lower than `bottom`, and one above
   * `bottom` has the cells below it full or queued.
   */
  ghost predicate Supported(start: Grid, g: Grid, bottom: nat, queue: seq<Coordinate>)
    requires Shaped(start) && Shaped(g) && bottom < HEIGHT
  {
    forall y, x | 0 <= y < HEIGHT && 0 <= x < WIDTH && Added(start, g, x, y) ::
      y <= bottom && InCone(x, y) && (y < bottom ==> Covered(g, queue, x, y))
  }

  /**
   * The state of the floor run: the grid only grows, the queue and the added
   * cells are as above, and the source is full or queued.
   */
  ghost predicate Heap(start: Grid, g: Grid, bottom: nat, queue: seq<Coordinate>)
  {
    Shaped(start) && Shaped(g) && 1 <= bottom < HEIGHT && Grows(start, g)
    && Queued(queue, bottom) && Supported(start, g, bottom, queue)
    && (g[0][SOURCE_X] || Coordinate(SOURCE_X, 0) in queue)
  }

  /** The three cells a grain at p could move to, in the order they are pushed. */
  function Below(p: Coordinate): seq<Coordinate>
    requires p.x >= 1
  {
    [Coordinate(p.x, p.y + 1), Coordinate(p.x - 1, p.y + 1), Coordinate(p.x + 1, p.y + 1)]
  }

  lemma QueuedPop(queue: seq<Coordinate>, p: Coordinate, bottom: nat)
    requires Queued(queue + [p], bottom)
    ensures Queued(queue, bottom) && p.y <= bottom && InCone(p.x, p.y)
  {
    assert (queue + [p])[|queue|] == p;
    assert forall i | 0 <= i < |queue| :: queue[i] == (queue + [p])[i];
  }

  lemma QueuedPush(queue: seq<Coordinate>, p: Coordinate, bottom: nat)
    requires Queued(queue, bottom) && p.y < bottom && InCone(p.x, p.y) && p.x >= 1
    ensures Queued(queue + Below(p), bottom)
  {
  }

  lemma GrowsFill(start: Grid, g: Grid, p: Coordinate)
    requires Shaped(start) && Shaped(g) && Grows(start, g) && p.y < HEIGHT && p.x < WIDTH
    ensures Grows(start, Fill(g, p))
  {
  }

  lemma SupportedPopFull(start: Grid, g: Grid, bottom: nat, queue: seq<Coordinate>, p: Coordinate)
    requires Shaped(start) && Shaped(g) && bottom < HEIGHT && p.y < HEIGHT && p.x < WIDTH
    requires Supported(start, g, bottom, queue + [p]) && g[p.y][p.x]
    ensures Supported(start, g, bottom, queue)
  {
    forall y, x | 0 <= y < HEIGHT && 0 <= x < WIDTH && Added(start, g, x, y) && y < bottom
      ensures Covered(g, queue, x, y)
    {
      assert Covered(g, queue + [p], x, y);
    }
  }

  lemma SupportedPopEmpty(start: Grid, g: Grid, bottom: nat, queue: seq<Coordinate>, p: Coordinate)
    requires Shaped(start) && Shaped(g) && bottom < HEIGHT && p.y <= bottom && InCone(p.x, p.y)
    requires Supported(start, g, bottom, queue + [p]) && !g[p.y][p.x]
    ensures Supported(start, Fill(g, p), bottom, if p.y == bottom then queue else queue + Below(p))
  {
    var g' := Fill(g, p);
    var q' := if p.y == bottom then queue else queue + Below(p);
    forall y, x | 0 <= y < HEIGHT && 0 <= x < WIDTH && Added(start, g', x, y)
      ensures y <= bottom && InCone(x, y) && (y < bottom ==> Covered(g', q', x, y))
    {
      if y != p.y || x != p.x {
        assert Added(start, g, x, y);
        if y < bottom {
          CoveredAfterPop(g, bottom, queue, p, x, y);
        }
      } else if y < bottom {
        assert Covered(g', q', x, y);
      }
    }
  }

  /** A cell covered before `p` is popped and filled stays covered. */
  lemma CoveredAfterPop(g: Grid, bottom: nat, queue: seq<Coordinate>, p: Coordinate, x: nat, y: nat)
    requires Shaped(g) && bottom < HEIGHT && p.y <= bottom && InCone(p.x, p.y)
    requires y < bottom && InCone(x, y) && Covered(g, queue + [p], x, y)
    ensures Covered(Fill(g, p), if p.y == bottom then queue else queue + Below(p), x, y)
  {
  }

  lemma PopFull(start: Grid, g: Grid, bottom: nat, queue: seq<Coordinate>, p: Coordinate)
    requires Heap(start, g, bottom, queue + [p]) && p.y < HEIGHT && p.x < WIDTH && g[p.y][p.x]
    ensures Heap(start, g, bottom, queue)
  {
    QueuedPop(queue, p, bottom);
    SupportedPopFull(start, g, bottom, queue, p);
  }

  lemma PopEmpty(start: Grid, g: Grid, bottom: nat, queue: seq<Coordinate>, p: Coordinate)
    requires Heap(start, g, bottom, queue + [p]) && p.y < HEIGHT && p.x < WIDTH && !g[p.y][p.x]
    ensures p.y <= bottom && InCone(p.x, p.y)
    ensures Heap(start, Fill(g, p), bottom, if p.y == bottom then queue else queue + Below(p))
  {
    QueuedPop(queue, p, bottom);
    if p.y < bottom {
      QueuedPush(queue, p, bottom);
    }
    GrowsFill(start, g, p);
    SupportedPopEmpty(start, g, bottom, queue, p);
  }

  /**
   * A fall from the source: each cell lies in the cone no lower than
   * `bottom`, and each but the last is above `bottom`, empty at the start,
   * and has the next one among the three cells below it.
   */
  ghost predicate Chain(start: Grid, bottom: nat, p: seq<Coordinate>)
    requires Shaped(start) && bottom < HEIGHT
  {
    |p| > 0 && p[0] == Coordinate(SOURCE_X, 0)
    && (forall k | 0 <= k < |p| :: p[k].y <= bottom && InCone(p[k].x, p[k].y))
    && (forall k | 0 <= k < |p| - 1 :: p[k].y < bottom && !start[p[k].y][p[k].x] && p[k + 1] in Below(p[k]))
  }

  /** A fall from the source whose last cell is empty at the start too. */
  ghost predicate FallPath(start: Grid, bottom: nat, p: seq<Coordinate>)
    requires Shaped(start) && bottom < HEIGHT
  {
    Chain(start, bottom, p) && !start[p[|p| - 1].y][p[|p| - 1].x]
  }

  /** Sand can reach (x, y): some fall from the source through empty cells ends there. */
  ghost predicate Reach(start: Grid, bottom: nat, x: nat, y: nat)
    requires Shaped(start) && bottom < HEIGHT
  {
    exists p | FallPath(start, bottom, p) :: p[|p| - 1] == Coordinate(x, y)
  }

  /** The cells the sand added to `start` are exactly the cells it can reach. */
  ghost predicate FilledExactly(start: Grid, g: Grid, bottom: nat)
    requires Shaped(start) && Shaped(g) && bottom < HEIGHT
  {
    forall y, x | 0 <= y < HEIGHT && 0 <= x < WIDTH :: Added(start, g, x, y) <==> Reach(start, bottom, x, y)
  }

  /** Each queued cell is the end of a fall recorded beside it. */
  ghost predicate QueuePaths(start: Grid, bottom: nat, queue: seq<Coordinate>, paths: seq<seq<Coordinate>>)
    requires Shaped(start) && bottom < HEIGHT
  {
    |paths| == |queue|
    && forall i | 0 <= i < |queue| :: Chain(start, bottom, paths[i]) && paths[i][|paths[i]| - 1] == queue[i]
  }

  /** Each added cell is the end of a recorded fall through empty cells. */
  ghost predicate AddedPaths(start: Grid, g: Grid, bottom: nat, paths: map<Coordinate, seq<Coordinate>>)
    requires Shaped(start) && Shaped(g) && bottom < HEIGHT
  {
    forall y, x | 0 <= y < HEIGHT && 0 <= x < WIDTH && Added(start, g, x, y) ::
      Coordinate(x, y) in paths && FallPath(start, bottom, paths[Coordinate(x, y)])
      && paths[Coordinate(x, y)][|paths[Coordinate(x, y)]| - 1] == Coordinate(x, y)
  }

  /** Popping the last queued cell pops its fall. */
  lemma QueuePathsPop(start: Grid, bottom: nat, queue: seq<Coordinate>, p: Coordinate, paths: seq<seq<Coordinate>>)
    requires Shaped(start) && bottom < HEIGHT && QueuePaths(start, bottom, queue + [p], paths)
    ensures QueuePaths(start, bottom, queue, paths[..|paths| - 1])
    ensures Chain(start, bottom, paths[|paths| - 1]) && paths[|paths| - 1][|paths[|paths| - 1]| - 1] == p
  {
    assert (queue + [p])[|queue|] == p;
    forall i | 0 <= i < |queue|
      ensures Chain(start, bottom, paths[i]) && paths[i][|paths[i]| - 1] == queue[i]
    {
      assert (queue + [p])[i] == queue[i];
    }
  }

  /** A fall to an empty cell above `bottom` goes on to each of the three cells below it. */
  lemma ChainExtend(start: Grid, bottom: nat, path: seq<Coordinate>, c: Coordinate)
    requires Shaped(start) && bottom < HEIGHT && FallPath(start, bottom, path)
    requires path[|path| - 1].y < bottom && c in Below(path[|path| - 1])
    ensures Chain(start, bottom, path + [c])
  {
    var q := path + [c];
    forall k | 0 <= k < |q| - 1
      ensures q[k].y < bottom && !start[q[k].y][q[k].x] && q[k + 1] in Below(q[k])
    {
      assert q[k] == path[k];
    }
  }

  /** Pushing the three cells below a reached cell records their falls. */
  lemma QueuePathsPush(start: Grid, bottom: nat, queue: seq<Coordinate>, paths: seq<seq<Coordinate>>,
                       p: Coordinate, path: seq<Coordinate>)
    requires Shaped(start) && bottom < HEIGHT && QueuePaths(start, bottom, queue, paths)
    requires FallPath(start, bottom, path) && path[|path| - 1] == p && p.y < bottom
    ensures QueuePaths(start, bottom, queue + Below(p),
      paths + [path + [Below(p)[0]], path + [Below(p)[1]], path + [Below(p)[2]]])
  {
    var below := Below(p);
    ChainExtend(start, bottom, path, below[0]);
    ChainExtend(start, bottom, path, below[1]);
    ChainExtend(start, bottom, path, below[2]);
    var q := queue + below;
    var ps := paths + [path + [below[0]], path + [below[1]], path + [below[2]]];
    forall i | 0 <= i < |q|
      ensures Chain(start, bottom, ps[i]) && ps[i][|ps[i]| - 1] == q[i]
    {
      if i < |queue| {
        assert ps[i] == paths[i] && q[i] == queue[i];
      }
    }
  }

  /** Filling the end of a fall through empty cells records that fall. */
  lemma AddedPathsFill(start: Grid, g: Grid, bottom: nat, paths: map<Coordinate, seq<Coordinate>>,
                       p: Coordinate, path: seq<Coordinate>)
    requires Shaped(start) && Shaped(g) && bottom < HEIGHT && p.y < HEIGHT && p.x < WIDTH
    requires AddedPaths(start, g, bottom, paths) && !g[p.y][p.x]
    requires FallPath(start, bottom, path) && path[|path| - 1] == p
    ensures AddedPaths(start, Fill(g, p), bottom, paths[p := path])
  {
    var g' := Fill(g, p);
    forall y, x | 0 <= y < HEIGHT && 0 <= x < WIDTH && Added(start, g', x, y)
      ensures Coordinate(x, y) in paths[p := path]
    {
      if Coordinate(x, y) != p {
        assert Added(start, g, x, y);
      }
    }
  }

  /**
   * Once the queue is empty, every cell a fall through empty cells reaches
   * was added: the source is full, and each added cell above `bottom` has
   * the three cells below it full.
   */
  lemma {:induction false} ReachAdded(start: Grid, g: Grid, bottom: nat, p: seq<Coordinate>, k: nat)
    requires Heap(start, g, bottom, []) && FallPath(start, bottom, p) && k < |p|
    ensures Added(start, g, p[k].x, p[k].y)
  {
    if k > 0 {
      ReachAdded(start, g, bottom, p, k - 1);
      var c := p[k - 1];
      assert Covered(g, [], c.x, c.y);
    }
  }

  /** With the queue empty and every added cell's fall recorded, the sand filled exactly the reachable cells. */
  lemma FloorExact(start: Grid, g: Grid, bottom: nat, paths: map<Coordinate, seq<Coordinate>>)
    requires Heap(start, g, bottom, []) && AddedPaths(start, g, bottom, paths)
    ensures FilledExactly(start, g, bottom)
  {
    forall y, x | 0 <= y < HEIGHT && 0 <= x < WIDTH
      ensures Added(start, g, x, y) <==> Reach(start, bottom, x, y)
    {
      if Added(start, g, x, y) {
        var p := paths[Coordinate(x, y)];
        assert FallPath(start, bottom, p) && p[|p| - 1] == Coordinate(x, y);
      }
      if Reach(start, bottom, x, y) {
        var p :| FallPath(start, bottom, p) && p[|p| - 1] == Coordinate(x, y);
        ReachAdded(start, g, bottom, p, |p| - 1);
      }
    }
  }

  /**
   * The state of the floor run with the falls that justify it: the heap
   * shape, the count of filled cells, and a recorded fall for every queued
   * and every added cell.
   */
  ghost predicate FloorRun(start: Grid, g: Grid, bottom: nat, count: nat, queue: seq<Coordinate>,
                           falls: seq<seq<Coordinate>>, reached: map<Coordinate, seq<Coordinate>>)
  {
    Heap(start, g, bottom, queue) && count + Unfilled(g) == Unfilled(start)
    && QueuePaths(start, bottom, queue, falls) && AddedPaths(start, g, bottom, reached)
  }

  /** Popping a full cell drops it and its fall. */
  lemma FloorPopFull(start: Grid, g: Grid, bottom: nat, count: nat, queue: seq<Coordinate>, p: Coordinate,
                     falls: seq<seq<Coordinate>>, reached: map<Coordinate, seq<Coordinate>>,
                     falls': seq<seq<Coordinate>>)
    requires FloorRun(start, g, bottom, count, queue + [p], falls, reached)
    requires p.y < HEIGHT && p.x < WIDTH && g[p.y][p.x] && falls' == falls[..|falls| - 1]
    ensures FloorRun(start, g, bottom, count, queue, falls', reached)
  {
    PopFull(start, g, bottom, queue, p);
    QueuePathsPop(start, bottom, queue, p, falls);
  }

  /** A popped cell lies in the cone, no lower than `bottom`, and has a recorded fall. */
  lemma FloorPopped(start: Grid, g: Grid, bottom: nat, count: nat, queue: seq<Coordinate>, p: Coordinate,
                    falls: seq<seq<Coordinate>>, reached: map<Coordinate, seq<Coordinate>>)
    requires FloorRun(start, g, bottom, count, queue + [p], falls, reached)
    ensures p.y <= bottom && InCone(p.x, p.y) && |falls| > 0
  {
    QueuedPop(queue, p, bottom);
  }

  /**
   * Popping an empty cell fills it, records its fall, and (above `bottom`)
   * queues the three cells below it with their falls.
   */
  lemma FloorPopEmpty(start: Grid, g: Grid, bottom: nat, count: nat, queue: seq<Coordinate>, p: Coordinate,
                      falls: seq<seq<Coordinate>>, reached: map<Coordinate, seq<Coordinate>>,
                      g': Grid, queue': seq<Coordinate>, falls': seq<seq<Coordinate>>,
                      reached': map<Coordinate, seq<Coordinate>>)
    requires FloorRun(start, g, bottom, count, queue + [p], falls, reached)
    requires p.y < HEIGHT && p.x < WIDTH && !g[p.y][p.x] && |falls| > 0 && p.x >= 1
    requires g' == Fill(g, p) && reached' == reached[p := falls[|falls| - 1]]
    requires p.y == bottom ==> queue' == queue && falls' == falls[..|falls| - 1]
    requires p.y != bottom ==> (queue' == queue + Below(p)
      && falls' == falls[..|falls| - 1] + [falls[|falls| - 1] + [Below(p)[0]],
        falls[|falls| - 1] + [Below(p)[1]], falls[|falls| - 1] + [Below(p)[2]]])
    ensures FloorRun(start, g', bottom, count + 1, queue', falls', reached')
  {
    PopEmpty(start, g, bottom, queue, p);
    UnfilledFill(g, p);
    QueuePathsPop(start, bottom, queue, p, falls);
    var fall := falls[|falls| - 1];
    AddedPathsFill(start, g, bottom, reached, p, fall);
    if p.y < bottom {
      QueuePathsPush(start, bottom, queue, falls[..|falls| - 1], p, fall);
    }
  }

  // ---------------------------------------------------------------------
  // The cave

  class Cave {
    var grid: Grid
    var bottom: nat

    /** The grid has its full size and row `bottom` lies inside it. */
    predicate Valid()
      reads this
    {
      Shaped(grid) && 1 <= bottom < HEIGHT
    }

    constructor (grid: Grid, bottom: nat)
      ensures this.grid == grid && this.bottom == bottom
    {
      this.grid := grid;
      this.bottom := bottom;
    }

    /** `Cave::new`: draws the rock paths line by line, segment by segment. */
    static method New(input: seq<string>) returns (r: Result<Cave>)
      requires CoordinatesFit(input)
      ensures r.Ok? <==> Build(input).Ok?
      ensures r.Err? ==> r.message == Build(input).message
      ensures r.Ok? ==> (fresh(r.value)
        && r.value.grid == Build(input).value.0 && r.value.bottom == Build(input).value.1)
    {
      var bottom: nat := 0;
      var grid := Empty();
      ghost var paths: seq<seq<Coordinate>> := [];
      for i := 0 to |input|
        invariant ParsePaths(input[..i]) == Ok(paths) && PathsFit(paths)
        invariant grid == DrawPaths(Empty(), paths)
        invariant bottom == Lowest(paths)
      {
        var drawn := DrawLine(grid, bottom, input[i]);
        if drawn.Err? {
          LineFails(input, i);
          return Err(drawn.message);
        }
        ghost var path := ParseLine(input[i]).value;
        grid, bottom := drawn.value.0, drawn.value.1;
        ParseEachStep(input, ParseLine, i, paths);
        ExtendPaths(Empty(), paths, path);
        paths := paths + [path];
      }
      assert input[..|input|] == input;
      bottom := bottom + 1;
      var cave := new Cave(grid, bottom);
      return Ok(cave);
    }

    /** `drop_sand`: drops one grain from the source and sets the cell where it rests. */
    method DropSand() returns (settled: bool)
      requires Valid()
      modifies this
      ensures Valid() && bottom == old(bottom)
      ensures settled == Drop(old(grid), bottom).Some?
      ensures grid == if settled then Fill(old(grid), Drop(old(grid), bottom).value) else old(grid)
    {
      var x: nat, y: nat := SOURCE_X, 0;
      if grid[y][x] {
        return false;
      }
      while true
        invariant y < bottom && InCone(x, y)
        invariant Fall(grid, bottom, x, y) == Drop(grid, bottom)
        decreases bottom - y
      {
        y := y + 1;
        if grid[y][x] {
          if !grid[y][x - 1] {
            x := x - 1;
          } else if !grid[y][x + 1] {
            x := x + 1;
          } else {
            y := y - 1;
            break;
          }
        }
        if y == bottom {
          return false;
        }
      }
      grid := grid[y := grid[y][x := true]];
      return true;
    }

    /** `simulate_sand_without_floor`: drops grains until one does not come to rest. */
    method SimulateWithoutFloor() returns (count: nat)
      requires Valid()
      modifies this
      ensures Valid() && bottom == old(bottom)
      ensures (count, grid) == Pour(old(grid), bottom)
    {
      ghost var poured := Pour(grid, bottom);
      count := 0;
      while true
        invariant Valid() && bottom == old(bottom)
        invariant count + Pour(grid, bottom).0 == poured.0 && Pour(grid, bottom).1 == poured.1
        decreases Unfilled(grid)
      {
        ghost var before := grid;
        var settled := DropSand();
        if !settled {
          break;
        }
        UnfilledFill(before, Drop(before, bottom).value);
        count := count + 1;
      }
    }

    /**
     * One turn of the `while let` loop of `simulate_sand_with_floor`: pop a
     * cell; if it is empty, fill it, count it and, above `bottom`, push the
     * three cells below it.
     */
    method Expand(ghost start: Grid, count: nat, queue: seq<Coordinate>,
                  ghost falls: seq<seq<Coordinate>>, ghost reached: map<Coordinate, seq<Coordinate>>)
      returns (count': nat, queue': seq<Coordinate>,
               ghost falls': seq<seq<Coordinate>>, ghost reached': map<Coordinate, seq<Coordinate>>)
      requires Valid() && queue != [] && FloorRun(start, grid, bottom, count, queue, falls, reached)
      modifies this
      ensures Valid() && bottom == old(bottom)
      ensures FloorRun(start, grid, bottom, count', queue', falls', reached')
      ensures Unfilled(grid) < old(Unfilled(grid)) || (Unfilled(grid) == old(Unfilled(grid)) && |queue'| < |queue|)
    {
      var position := queue[|queue| - 1];
      queue' := queue[..|queue| - 1];
      assert queue == queue' + [position];
      FloorPopped(start, grid, bottom, count, queue', position, falls, reached);
      if grid[position.y][position.x] {
        count', falls', reached' := count, falls[..|falls| - 1], reached;
        FloorPopFull(start, grid, bottom, count, queue', position, falls, reached, falls');
        return;
      }
      ghost var before, popped := grid, queue';
      UnfilledFill(grid, position);
      ghost var fall := falls[|falls| - 1];
      falls' := falls[..|falls| - 1];
      reached' := reached[position := fall];
      grid := grid[position.y := grid[position.y][position.x := true]];
      count' := count + 1;
      if position.y < bottom {
        var below := [Coordinate(position.x, position.y + 1), Coordinate(position.x - 1, position.y + 1),
          Coordinate(position.x + 1, position.y + 1)];
        assert below == Below(position);
        queue' := queue' + below;
        falls' := falls' + [fall + [below[0]], fall + [below[1]], fall + [below[2]]];
      }
      FloorPopEmpty(start, before, bottom, count, popped, position, falls, reached, grid, queue', falls', reached');
    }

    /**
     * `simulate_sand_with_floor`: fills from the source downwards with a stack,
     * counting each cell when it turns from empty to full; cells on row
     * `bottom` rest on the floor and push nothing.
     */
    method SimulateWithFloor() returns (count: nat)
      requires Valid()
      modifies this
      ensures Valid() && bottom == old(bottom)
      ensures count + Unfilled(grid) == Unfilled(old(grid))
      ensures Heap(old(grid), grid, bottom, [])
      ensures FilledExactly(old(grid), grid, bottom)
    {
      ghost var start := grid;
      count := 0;
      var queue := [Coordinate(SOURCE_X, 0)];
      ghost var falls: seq<seq<Coordinate>> := [[Coordinate(SOURCE_X, 0)]];
      ghost var reached: map<Coordinate, seq<Coordinate>> := map[];
      while queue != []
        invariant Valid() && bottom == old(bottom)
        invariant FloorRun(start, grid, bottom, count, queue, falls, reached)
        decreases Unfilled(grid), |queue|
      {
        count, queue, falls, reached := Expand(start, count, queue, falls, reached);
      }
      FloorExact(start, grid, bottom, reached);
    }
  }

  /** Part A: the grains that come to rest before the first one falls out. */
  method PartA(input: seq<string>) returns (r: Result<nat>)
    requires CoordinatesFit(input)
    requires Build(input).Ok? ==> Build(input).value.1 < HEIGHT
    ensures r.Ok? <==> Build(input).Ok?
    ensures r.Ok? ==> r.value == Pour(Build(input).value.0, Build(input).value.1).0
  {
    var cave := Cave.New(input);
    if cave.Err? {
      return Err(cave.message);
    }
    var count := cave.value.SimulateWithoutFloor();
    return Ok(count);
  }

  /** Part B: the cells the sand fills on a floor below row `bottom`. */
  method PartB(input: seq<string>) returns (r: Result<nat>)
    requires CoordinatesFit(input)
    requires Build(input).Ok? ==> Build(input).value.1 < HEIGHT
    ensures r.Ok? <==> Build(input).Ok?
    ensures r.Ok? ==> exists g :: (Heap(Build(input).value.0, g, Build(input).value.1, [])
      && FilledExactly(Build(input).value.0, g, Build(input).value.1)
      && r.value + Unfilled(g) == Unfilled(Build(input).value.0))
  {
    var cave := Cave.New(input);
    if cave.Err? {
      return Err(cave.message);
    }
    var count := cave.value.SimulateWithFloor();
    return Ok(count);
  }
}
