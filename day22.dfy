// Day 22: Monkey Map. A walker starts on the first open tile of the top
// row facing right and follows a path of moves and turns over a board of
// open tiles and walls. Stepping off the board wraps around: to the far
// side of the same row or column (part A), or across the edges of a cube
// folded from the board (part B). The answer is 1000 * row + 4 * column
// + facing.
module Day22 {
  import opened Common

  const SUB_OVERFLOW: string := "attempt to subtract with overflow"
  const UNWRAP_NONE: string := "called `Option::unwrap()` on a `None` value"

  // ---------------------------------------------------------------------
  // Directions and positions

  /** `Direction`, in the order of its `u8` representation. */
  datatype Direction = Right | Down | Left | Up

  /** `u8::from(direction)`: the facing value. */
  function Facing(d: Direction): (f: nat)
    ensures f < 4
  {
    match d
    case Right => 0
    case Down => 1
    case Left => 2
    case Up => 3
  }

  /** `Direction::from(u8)`: values outside 0..4 give the `#[default]`, `Right`. */
  function FromFacing(f: nat): (d: Direction)
  {
    if f == 1 then Down else if f == 2 then Left else if f == 3 then Up else Right
  }

  /** `turn`: `count` quarter turns clockwise (the facing value plus `count`, modulo 4; see `TurnModulo`). */
  function Turn(d: Direction, count: nat): (r: Direction)
  {
    var sum := Facing(d) + count % 4;
    FromFacing(if sum < 4 then sum else sum - 4)
  }

  function TurnLeft(d: Direction): Direction { Turn(d, 3) }

  function TurnRight(d: Direction): Direction { Turn(d, 1) }

  /** The opposite direction: two quarter turns. */
  function Reverse(d: Direction): Direction { Turn(d, 2) }

  /** The facing value after a turn is the facing value plus the count, modulo 4. */
  lemma TurnModulo(d: Direction, count: nat)
    ensures Facing(Turn(d, count)) == (Facing(d) + count) % 4
  {
    var c := count % 4;
    assert count == 4 * (count / 4) + c;
    assert (Facing(d) + count) % 4 == (Facing(d) + c) % 4;
  }

  /** Every quarter, three-quarter and half turn of every direction. */
  lemma TurnTable()
    ensures TurnRight(Right) == Down && TurnRight(Down) == Left && TurnRight(Left) == Up && TurnRight(Up) == Right
    ensures TurnLeft(Right) == Up && TurnLeft(Down) == Right && TurnLeft(Left) == Down && TurnLeft(Up) == Left
    ensures Reverse(Right) == Left && Reverse(Down) == Up && Reverse(Left) == Right && Reverse(Up) == Down
  {
  }

  /** Turning left undoes turning right and the other way round; four turns are no turn. */
  lemma TurnsInverse(d: Direction)
    ensures TurnLeft(TurnRight(d)) == d && TurnRight(TurnLeft(d)) == d
    ensures TurnRight(TurnRight(TurnRight(TurnRight(d)))) == d
    ensures Reverse(d) == TurnRight(TurnRight(d))
  {
    TurnTable();
  }

  /** `Position`: a 1-based column and row; 0 means off the board. */
  datatype Position = Position(x: int, y: int)

  /** `move_one`: one tile on in `d`. */
  function MoveOne(p: Position, d: Direction): (r: Position)
    ensures Abs(r.x - p.x) + Abs(r.y - p.y) == 1
  {
    match d
    case Right => Position(p.x + 1, p.y)
    case Down => Position(p.x, p.y + 1)
    case Left => Position(p.x - 1, p.y)
    case Up => Position(p.x, p.y - 1)
  }

  /** A step back the other way undoes a step. */
  lemma MoveOneBack(p: Position, d: Direction)
    ensures MoveOne(MoveOne(p, d), Reverse(d)) == p
  {
  }

  /** Where the walker stands and where it faces. */
  datatype State = State(pos: Position, dir: Direction)

  // ---------------------------------------------------------------------
  // The board

  datatype Tile = Air | Wall | Ground

  /**
   * `Map`: `width` columns by `height` rows of tiles. The source keeps the
   * tiles in one vector, tile `(x, y)` at index `x + y * width`; here they
   * are rows of `width` tiles, tile `(x, y)` at `rows[y][x]`.
   */
  datatype Map = Map(width: nat, height: nat, rows: seq<seq<Tile>>)

  predicate WellFormed(board: Map)
  {
    |board.rows| == board.height && forall y | 0 <= y < |board.rows| :: |board.rows[y]| == board.width
  }

  /** The tile a byte of the input stands for. */
  function TileOf(c: char): Tile
  {
    if c == '#' then Wall else if c == '.' then Ground else Air
  }

  /** The length of the longest line; at least one line. */
  function Width(lines: seq<string>): (w: nat)
    requires |lines| > 0
    ensures forall y | 0 <= y < |lines| :: |lines[y]| <= w
    ensures exists y | 0 <= y < |lines| :: |lines[y]| == w
  {
    if |lines| == 1 then |lines[0]|
    else
      var w := Width(lines[..|lines| - 1]);
      assert forall y | 0 <= y < |lines| - 1 :: lines[..|lines| - 1][y] == lines[y];
      if |lines[|lines| - 1]| > w then |lines[|lines| - 1]| else w
  }

  /** The tiles of one line, padded with air to `width`. */
  function RowOf(line: string, width: nat): (row: seq<Tile>)
    requires |line| <= width
  {
    seq(width, x requires 0 <= x < width => if x < |line| then TileOf(line[x]) else Air)
  }

  /** The board the lines describe: `Map::new`. */
  function MapOf(lines: seq<string>): (board: Map)
    requires |lines| > 0
    ensures WellFormed(board)
  {
    var width := Width(lines);
    Map(width, |lines|, seq(|lines|, y requires 0 <= y < |lines| => RowOf(lines[y], width)))
  }

  /**
   * `get`: the tile at a 1-based position; air off the board, where a
   * coordinate is 0 or past the width or height.
   */
  function Get(board: Map, p: Position): Tile
    requires WellFormed(board)
  {
    if p.x < 1 || p.x > board.width || p.y < 1 || p.y > board.height then Air
    else board.rows[p.y - 1][p.x - 1]
  }

  /** Position `p` is on the board. */
  predicate OnBoard(board: Map, p: Position)
  {
    1 <= p.x <= board.width && 1 <= p.y <= board.height
  }

  /**
   * `Map::new`: '#' is a wall and '.' open ground, and every other byte,
   * as well as the tiles past the end of a shorter line, is air.
   */
  lemma MapTiles(lines: seq<string>, x: nat, y: nat)
    requires y < |lines|
    ensures Width(lines) >= |lines[y]|
    ensures x < |lines[y]| ==> Get(MapOf(lines), Position(x + 1, y + 1)) == TileOf(lines[y][x])
    ensures x >= |lines[y]| ==> Get(MapOf(lines), Position(x + 1, y + 1)) == Air
    ensures TileOf('#') == Wall && TileOf('.') == Ground
  {
  }

  /** `Map::new`, filling each row of air with the tiles its line names. */
  method NewMap(lines: seq<string>) returns (board: Map)
    requires |lines| > 0
    ensures board == MapOf(lines)
  {
    var width := Width(lines);
    var rows: seq<seq<Tile>> := [];
    for y := 0 to |lines|
      invariant |rows| == y
      invariant forall k | 0 <= k < y :: rows[k] == RowOf(lines[k], width)
    {
      var row := new Tile[width](_ => Air);
      var line := lines[y];
      for x := 0 to |line|
        invariant forall i | 0 <= i < width :: row[i] == (if i < x then TileOf(line[i]) else Air)
      {
        var c := line[x];
        if c == '#' {
          row[x] := Wall;
        } else if c == '.' {
          row[x] := Ground;
        }
      }
      assert row[..] == RowOf(line, width);
      rows := rows + [row[..]];
    }
    board := Map(width, |lines|, rows);
    assert rows == MapOf(lines).rows;
  }

  /** The first open tile in `row`, if any. */
  function FirstGround(row: seq<Tile>): (r: Option<nat>)
    ensures r.Some? ==> r.value < |row| && row[r.value] == Ground
    ensures r.Some? ==> forall x | 0 <= x < r.value :: row[x] != Ground
    ensures r.None? ==> forall x | 0 <= x < |row| :: row[x] != Ground
  {
    if row == [] then None
    else if row[0] == Ground then Some(0)
    else match FirstGround(row[1..])
      case None => None
      case Some(x) => Some(x + 1)
  }

  /** `start`: the first open tile of the top row; none panics. */
  function Start(board: Map): (r: Option<Position>)
    requires WellFormed(board) && board.height > 0
    ensures r.Some? ==> r.value.y == 1 && Get(board, r.value) == Ground
    ensures r.Some? ==> forall x | 1 <= x < r.value.x :: Get(board, Position(x, 1)) != Ground
    ensures r.None? ==> forall x | 1 <= x <= board.width :: Get(board, Position(x, 1)) != Ground
  {
    match FirstGround(board.rows[0])
    case None => None
    case Some(x) => Some(Position(x + 1, 1))
  }

  // ---------------------------------------------------------------------
  // Wrapping around the flat board

  /** The first tile that is not air, counting from the start of `tiles`. */
  function FirstSolid(tiles: seq<Tile>): (r: Option<nat>)
    ensures r.Some? ==> r.value < |tiles| && tiles[r.value] != Air
    ensures r.Some? ==> forall i | 0 <= i < r.value :: tiles[i] == Air
    ensures r.None? ==> forall i | 0 <= i < |tiles| :: tiles[i] == Air
  {
    if tiles == [] then None
    else if tiles[0] != Air then Some(0)
    else match FirstSolid(tiles[1..])
      case None => None
      case Some(i) => Some(i + 1)
  }

  /** The first tile that is not air, counting from the end of `tiles`. */
  function LastSolid(tiles: seq<Tile>): (r: Option<nat>)
    ensures r.Some? ==> r.value < |tiles| && tiles[r.value] != Air
    ensures r.Some? ==> forall i | r.value < i < |tiles| :: tiles[i] == Air
    ensures r.None? ==> forall i | 0 <= i < |tiles| :: tiles[i] == Air
  {
    if tiles == [] then None
    else if tiles[|tiles| - 1] != Air then Some(|tiles| - 1)
    else LastSolid(tiles[..|tiles| - 1])
  }

  /** Column `x` (0-based), top to bottom. */
  function Column(board: Map, x: nat): (col: seq<Tile>)
    requires WellFormed(board) && x < board.width
    ensures |col| == board.height
    ensures forall y | 0 <= y < board.height :: col[y] == board.rows[y][x]
  {
    seq(board.height, y requires 0 <= y < board.height => board.rows[y][x])
  }

  /**
   * The tile a flat wrap lands on: leaving `p` in direction `d`, the first
   * tile that is not air, searching the same row or column from the
   * opposite edge. The search cannot fail, as `p` itself is not air.
   */
  function FlatTarget(board: Map, p: Position, d: Direction): (t: Position)
    requires WellFormed(board) && Get(board, p) != Air
    ensures Get(board, t) != Air
    ensures d == Right || d == Left ==> t.y == p.y
    ensures d == Down || d == Up ==> t.x == p.x
  {
    var row := board.rows[p.y - 1];
    var col := Column(board, p.x - 1);
    assert row[p.x - 1] != Air && col[p.y - 1] != Air;
    match d
    case Right => Position(FirstSolid(row).value + 1, p.y)
    case Left => Position(LastSolid(row).value + 1, p.y)
    case Down => Position(p.x, FirstSolid(col).value + 1)
    case Up => Position(p.x, LastSolid(col).value + 1)
  }

  /** Every tile the flat wrap passes over, from the opposite edge up to its target, is air. */
  lemma FlatTargetNearest(board: Map, p: Position, d: Direction)
    requires WellFormed(board) && Get(board, p) != Air
    ensures var t := FlatTarget(board, p, d);
      && (d == Right ==> forall x | 1 <= x < t.x :: Get(board, Position(x, p.y)) == Air)
      && (d == Left ==> forall x | t.x < x <= board.width :: Get(board, Position(x, p.y)) == Air)
      && (d == Down ==> forall y | 1 <= y < t.y :: Get(board, Position(p.x, y)) == Air)
      && (d == Up ==> forall y | t.y < y <= board.height :: Get(board, Position(p.x, y)) == Air)
  {
    var row := board.rows[p.y - 1];
    var col := Column(board, p.x - 1);
    assert row[p.x - 1] != Air && col[p.y - 1] != Air;
  }

  /**
   * `find_opposite_tile_flat`: the wrapped-to tile with the direction
   * unchanged when it is open ground, `None` when it is a wall.
   */
  function OppositeFlat(board: Map, p: Position, d: Direction): (r: Option<State>)
    requires WellFormed(board) && Get(board, p) != Air
    ensures r.Some? <==> Get(board, FlatTarget(board, p, d)) == Ground
    ensures r.None? <==> Get(board, FlatTarget(board, p, d)) == Wall
    ensures r.Some? ==> r.value == State(FlatTarget(board, p, d), d)
  {
    var t := FlatTarget(board, p, d);
    if Get(board, t) == Ground then Some(State(t, d)) else None
  }

  // ---------------------------------------------------------------------
  // Wrapping around the cube

  /** The board the cube table is written for: 150 columns by 200 rows. */
  predicate CubeSized(board: Map) { board.width == 150 && board.height == 200 }

  /**
   * The six 50 x 50 faces of the puzzle's cube net, 1-based:
   * two faces side by side in rows 1-50, one in rows 51-100, two side by
   * side in rows 101-150 and one in rows 151-200.
   */
  predicate InLayout(p: Position)
  {
    (1 <= p.y <= 50 && 51 <= p.x <= 150) ||
    (51 <= p.y <= 100 && 51 <= p.x <= 100) ||
    (101 <= p.y <= 150 && 1 <= p.x <= 100) ||
    (151 <= p.y <= 200 && 1 <= p.x <= 50)
  }

  /**
   * The face table of `find_opposite_tile_cube`: where leaving `p` in
   * direction `d` arrives, and facing which way. The table is written
   * 0-based and the position returned 1-based.
   */
  function CubeTarget(p: Position, d: Direction): State
    requires d == Right || d == Left ==> 1 <= p.y <= 200
    requires d == Down || d == Up ==> 1 <= p.x <= 150
  {
    var (x, y, dir) :=
      match d
      case Right =>
        if p.y <= 50 then (99, 150 - p.y, Left)
        else if p.y <= 100 then ((p.y - 1) + 50, 49, Up)
        else if p.y <= 150 then (149, 150 - p.y, Left)
        else ((p.y - 1) - 100, 149, Up)
      case Down =>
        if p.x <= 50 then ((p.x - 1) + 100, 0, Down)
        else if p.x <= 100 then (49, (p.x - 1) + 100, Left)
        else (99, (p.x - 1) - 50, Left)
      case Left =>
        if p.y <= 50 then (0, 150 - p.y, Right)
        else if p.y <= 100 then ((p.y - 1) - 50, 100, Down)
        else if p.y <= 150 then (50, 150 - p.y, Right)
        else ((p.y - 1) - 100, 0, Down)
      case Up =>
        if p.x <= 50 then (50, (p.x - 1) + 50, Right)
        else if p.x <= 100 then (0, (p.x - 1) + 100, Right)
        else ((p.x - 1) - 100, 199, Up);
    State(Position(x + 1, y + 1), dir)
  }

  /**
   * The face table folds the net into a cube: leaving a face of the net
   * over an edge lands on the net just inside the matching edge, and
   * leaving from there the way it came in leads straight back.
   */
  lemma CubeWrapInverse(p: Position, d: Direction)
    requires InLayout(p) && !InLayout(MoveOne(p, d))
    ensures var t := CubeTarget(p, d);
      InLayout(t.pos) && !InLayout(MoveOne(t.pos, Reverse(t.dir))) &&
      CubeTarget(t.pos, Reverse(t.dir)) == State(p, Reverse(d))
  {
    assert Reverse(Right) == Left && Reverse(Left) == Right && Reverse(Up) == Down && Reverse(Down) == Up;
    match d
    case Right => WrapRight(p);
    case Left => WrapLeft(p);
    case Down => WrapDown(p);
    case Up => WrapUp(p);
  }

  lemma WrapRight(p: Position)
    requires InLayout(p) && !InLayout(Position(p.x + 1, p.y))
    ensures var t := CubeTarget(p, Right);
      InLayout(t.pos) && !InLayout(MoveOne(t.pos, Reverse(t.dir))) &&
      CubeTarget(t.pos, Reverse(t.dir)) == State(p, Left)
  {
    assert Reverse(Left) == Right && Reverse(Up) == Down;
    if p.y <= 50 {
      assert p.x == 150;
    } else if p.y <= 100 {
      assert p.x == 100;
    } else if p.y <= 150 {
      assert p.x == 100;
    } else {
      assert p.x == 50;
    }
  }

  lemma WrapLeft(p: Position)
    requires InLayout(p) && !InLayout(Position(p.x - 1, p.y))
    ensures var t := CubeTarget(p, Left);
      InLayout(t.pos) && !InLayout(MoveOne(t.pos, Reverse(t.dir))) &&
      CubeTarget(t.pos, Reverse(t.dir)) == State(p, Right)
  {
    assert Reverse(Right) == Left && Reverse(Down) == Up;
    if p.y <= 50 {
      assert p.x == 51;
    } else if p.y <= 100 {
      assert p.x == 51;
    } else if p.y <= 150 {
      assert p.x == 1;
    } else {
      assert p.x == 1;
    }
  }

  lemma WrapDown(p: Position)
    requires InLayout(p) && !InLayout(Position(p.x, p.y + 1))
    ensures var t := CubeTarget(p, Down);
      InLayout(t.pos) && !InLayout(MoveOne(t.pos, Reverse(t.dir))) &&
      CubeTarget(t.pos, Reverse(t.dir)) == State(p, Up)
  {
    assert Reverse(Down) == Up && Reverse(Left) == Right;
    if p.x <= 50 {
      assert p.y == 200;
    } else if p.x <= 100 {
      assert p.y == 150;
    } else {
      assert p.y == 50;
    }
  }

  lemma WrapUp(p: Position)
    requires InLayout(p) && !InLayout(Position(p.x, p.y - 1))
    ensures var t := CubeTarget(p, Up);
      InLayout(t.pos) && !InLayout(MoveOne(t.pos, Reverse(t.dir))) &&
      CubeTarget(t.pos, Reverse(t.dir)) == State(p, Down)
  {
    assert Reverse(Right) == Left && Reverse(Up) == Down;
    if p.x <= 50 {
      assert p.y == 101;
    } else if p.x <= 100 {
      assert p.y == 1;
    } else {
      assert p.y == 1;
    }
  }

  /**
   * `find_opposite_tile_cube`: the position and direction the table gives
   * when that tile is open ground, `None` when it is a wall.
   */
  function OppositeCube(board: Map, p: Position, d: Direction): (r: Option<State>)
    requires WellFormed(board) && CubeSized(board) && OnBoard(board, p)
    ensures r.Some? <==> Get(board, CubeTarget(p, d).pos) == Ground
    ensures r.Some? ==> r.value == CubeTarget(p, d)
  {
    var t := CubeTarget(p, d);
    if Get(board, t.pos) == Ground then Some(t) else None
  }

  // ---------------------------------------------------------------------
  // Walking

  /** One step of a move: `None` when a wall, or a wall behind the wrap, blocks it. */
  function Step(board: Map, s: State, cube: bool): (r: Option<State>)
    requires WellFormed(board) && Get(board, s.pos) == Ground && (cube ==> CubeSized(board))
    ensures r.Some? ==> Get(board, r.value.pos) == Ground
  {
    var next := MoveOne(s.pos, s.dir);
    match Get(board, next)
    case Air => if cube then OppositeCube(board, s.pos, s.dir) else OppositeFlat(board, s.pos, s.dir)
    case Wall => None
    case Ground => Some(State(next, s.dir))
  }

  /** A wall straight ahead blocks the step; open ground straight ahead is stepped onto. */
  lemma StepAhead(board: Map, s: State, cube: bool)
    requires WellFormed(board) && Get(board, s.pos) == Ground && (cube ==> CubeSized(board))
    ensures Get(board, MoveOne(s.pos, s.dir)) == Wall ==> Step(board, s, cube).None?
    ensures Get(board, MoveOne(s.pos, s.dir)) == Ground ==> Step(board, s, cube) == Some(State(MoveOne(s.pos, s.dir), s.dir))
  {
  }

  /** A move of `amount` steps, cut short by the first blocked step. */
  function Walk(board: Map, s: State, amount: nat, cube: bool): (r: State)
    requires WellFormed(board) && Get(board, s.pos) == Ground && (cube ==> CubeSized(board))
    ensures Get(board, r.pos) == Ground
    decreases amount
  {
    if amount == 0 then s
    else match Step(board, s, cube)
      case None => s
      case Some(t) => Walk(board, t, amount - 1, cube)
  }

  /** A blocked step ends the move where the walker stands. */
  lemma WalkStops(board: Map, s: State, amount: nat, cube: bool)
    requires WellFormed(board) && Get(board, s.pos) == Ground && (cube ==> CubeSized(board))
    requires amount > 0 && Step(board, s, cube).None?
    ensures Walk(board, s, amount, cube) == s
  {
  }

  /** A step that is not blocked leaves one step fewer to walk from where it lands. */
  lemma WalkOn(board: Map, s: State, amount: nat, cube: bool)
    requires WellFormed(board) && Get(board, s.pos) == Ground && (cube ==> CubeSized(board))
    requires amount > 0 && Step(board, s, cube).Some?
    ensures Walk(board, s, amount, cube) == Walk(board, Step(board, s, cube).value, amount - 1, cube)
  {
  }

  /** `move_amount` steps of `solve`'s inner loop, which breaks at the first blocked step. */
  method WalkSteps(board: Map, s: State, amount: nat, cube: bool) returns (t: State)
    requires WellFormed(board) && Get(board, s.pos) == Ground && (cube ==> CubeSized(board))
    ensures t == Walk(board, s, amount, cube)
  {
    ghost var goal := Walk(board, s, amount, cube);
    t := s;
    var left := amount;
    while left > 0
      invariant Get(board, t.pos) == Ground
      invariant goal == Walk(board, t, left, cube)
    {
      var step := Step(board, t, cube);
      if step.None? {
        WalkStops(board, t, left, cube);
        break;
      }
      WalkOn(board, t, left, cube);
      t, left := step.value, left - 1;
    }
  }

  // ---------------------------------------------------------------------
  // The path

  datatype Command = Move(amount: nat) | TurnLeftCommand | TurnRightCommand

  /**
   * The digits that follow the first byte of a move: each further leading
   * digit of `s` makes `amount` ten times larger plus the digit.
   */
  function ReadNumber(amount: nat, s: string): (r: (nat, string))
    ensures |r.1| <= |s|
    ensures r.1 == [] || !IsDigit(r.1[0])
    decreases |s|
  {
    if s != [] && IsDigit(s[0]) then ReadNumber(amount * 10 + DigitValue(s[0]), s[1..]) else (amount, s)
  }

  /**
   * `Commands::next` on a non-empty path: 'L' and 'R' turn; any other
   * byte starts a move whose amount is that byte minus '0' followed by the
   * run of digits after it. A byte below '0' underflows and panics.
   */
  function FirstCommand(s: string): (r: Result<(Command, string)>)
    requires s != []
    ensures r.Ok? ==> |r.value.1| < |s|
  {
    if s[0] == 'L' then Ok((TurnLeftCommand, s[1..]))
    else if s[0] == 'R' then Ok((TurnRightCommand, s[1..]))
    else if s[0] < '0' then Err(SUB_OVERFLOW)
    else
      var (amount, rest) := ReadNumber(s[0] as nat - '0' as nat, s[1..]);
      Ok((Move(amount), rest))
  }

  /** All the commands of a path. */
  function Commands(s: string): (r: Result<seq<Command>>)
    decreases |s|
  {
    if s == [] then Ok([])
    else match FirstCommand(s)
      case Err(e) => Err(e)
      case Ok((c, rest)) =>
        match Commands(rest)
        case Err(e) => Err(e)
        case Ok(cs) => Ok([c] + cs)
  }

  /** Reading a run of digits into a number so far is appending them to its digits. */
  lemma {:induction false} ReadNumberDigits(p: string, d: string, t: string)
    requires AllDigits(p) && AllDigits(d) && (t == [] || !IsDigit(t[0]))
    ensures ReadNumber(DigitsValue(p), d + t) == (DigitsValue(p + d), t)
    decreases |d|
  {
    if d == [] {
      assert d + t == t && p + d == p;
    } else {
      assert (d + t)[0] == d[0] && (d + t)[1..] == d[1..] + t;
      assert (p + [d[0]])[..|p|] == p;
      assert DigitsValue(p + [d[0]]) == DigitsValue(p) * 10 + DigitValue(d[0]);
      ReadNumberDigits(p + [d[0]], d[1..], t);
      assert p + [d[0]] + d[1..] == p + d;
    }
  }

  /** A path starting with a digit starts with a move read by `ReadNumber`. */
  lemma FirstCommandMove(s: string)
    requires s != [] && IsDigit(s[0])
    ensures FirstCommand(s) == Ok((Move(ReadNumber(DigitValue(s[0]), s[1..]).0), ReadNumber(DigitValue(s[0]), s[1..]).1))
  {
  }

  /** A maximal run of digits is read as one move of the number they spell. */
  lemma FirstCommandDigits(d: string, t: string)
    requires |d| > 0 && AllDigits(d) && (t == [] || !IsDigit(t[0]))
    ensures FirstCommand(d + t) == Ok((Move(DigitsValue(d)), t))
  {
    ReadNumberFirstDigit(d, t);
    FirstCommandMove(d + t);
  }

  /** Dropping the first element of a concatenation drops it from the first part. */
  lemma DropFirst(a: string, b: string)
    requires |a| > 0
    ensures (a + b)[0] == a[0] && (a + b)[1..] == a[1..] + b
  {
  }

  /** The first digit of a run, followed by the rest of it, reads as the whole run. */
  lemma ReadNumberFirstDigit(d: string, t: string)
    requires |d| > 0 && AllDigits(d) && (t == [] || !IsDigit(t[0]))
    ensures (d + t)[0] == d[0]
    ensures ReadNumber(DigitValue(d[0]), (d + t)[1..]) == (DigitsValue(d), t)
  {
    var first, rest := [d[0]], d[1..];
    DropFirst(d, t);
    assert first[..0] == [] && first + rest == d;
    assert DigitsValue(first) == DigitValue(d[0]);
    ReadNumberDigits(first, rest, t);
  }

  /** The text of a path: "L", "R" and each move's amount in decimal. */
  function PathText(cs: seq<Command>): string
  {
    if cs == [] then []
    else
      var head := match cs[0]
        case Move(n) => NatToString(n)
        case TurnLeftCommand => "L"
        case TurnRightCommand => "R";
      head + PathText(cs[1..])
  }

  /** No two moves follow each other, so every move's digits stand alone. */
  predicate Alternating(cs: seq<Command>)
  {
    forall i | 0 <= i < |cs| - 1 :: !(cs[i].Move? && cs[i + 1].Move?)
  }

  /** A path text that does not start with a digit. */
  lemma PathTextStart(cs: seq<Command>)
    requires cs != [] ==> !cs[0].Move?
    ensures PathText(cs) == [] || !IsDigit(PathText(cs)[0])
  {
  }

  /** Reading the text of a path gives back its commands. */
  lemma {:induction false} CommandsOfPathText(cs: seq<Command>)
    requires Alternating(cs)
    ensures Commands(PathText(cs)) == Ok(cs)
    decreases |cs|
  {
    if cs != [] {
      var rest := PathText(cs[1..]);
      assert Alternating(cs[1..]) by {
        forall i | 0 <= i < |cs[1..]| - 1 ensures !(cs[1..][i].Move? && cs[1..][i + 1].Move?) {
          assert cs[1..][i] == cs[i + 1] && cs[1..][i + 1] == cs[i + 2];
        }
      }
      CommandsOfPathText(cs[1..]);
      assert [cs[0]] + cs[1..] == cs;
      match cs[0]
      case Move(n) =>
        var digits := NatToString(n);
        if |cs| > 1 { assert !cs[1].Move?; }
        PathTextStart(cs[1..]);
        FirstCommandDigits(digits, rest);
        NatToStringValue(n);
      case TurnLeftCommand =>
        assert PathText(cs) == "L" + rest && ("L" + rest)[1..] == rest;
      case TurnRightCommand =>
        assert PathText(cs) == "R" + rest && ("R" + rest)[1..] == rest;
    }
  }

  /** `Commands`: the iterator over the commands of a path, holding the bytes not read yet. */
  class CommandReader {
    var rest: string

    constructor(path: string)
      ensures rest == path
    {
      rest := path;
    }

    /** `next`: the next command, reading one byte, or a byte and its run of digits. */
    method Next() returns (r: Result<Option<Command>>)
      modifies this
      ensures old(rest) == [] ==> r == Ok(None) && rest == []
      ensures old(rest) != [] && FirstCommand(old(rest)).Err? ==> r == Err(FirstCommand(old(rest)).message)
      ensures old(rest) != [] && FirstCommand(old(rest)).Ok? ==>
        r == Ok(Some(FirstCommand(old(rest)).value.0)) && rest == FirstCommand(old(rest)).value.1
    {
      if rest == [] {
        return Ok(None);
      }
      ghost var text := rest;
      var next := rest[0];
      var bytes := rest[1..];
      rest := bytes;
      if next == 'L' {
        return Ok(Some(TurnLeftCommand));
      }
      if next == 'R' {
        return Ok(Some(TurnRightCommand));
      }
      if next < '0' {
        return Err(SUB_OVERFLOW);
      }
      var amount: nat := next as nat - '0' as nat;
      ghost var first := amount;
      while bytes != [] && IsDigit(bytes[0])
        invariant ReadNumber(amount, bytes) == ReadNumber(first, text[1..])
        decreases |bytes|
      {
        amount := amount * 10 + DigitValue(bytes[0]);
        bytes := bytes[1..];
      }
      assert ReadNumber(amount, bytes) == (amount, bytes);
      rest := bytes;
      return Ok(Some(Move(amount)));
    }
  }

  /** A command carried out. */
  function Perform(board: Map, s: State, c: Command, cube: bool): (r: State)
    requires WellFormed(board) && Get(board, s.pos) == Ground && (cube ==> CubeSized(board))
    ensures Get(board, r.pos) == Ground
  {
    match c
    case Move(n) => Walk(board, s, n, cube)
    case TurnLeftCommand => State(s.pos, TurnLeft(s.dir))
    case TurnRightCommand => State(s.pos, TurnRight(s.dir))
  }

  /** The commands of a path carried out one by one, as the iterator yields them. */
  function Follow(board: Map, s: State, path: string, cube: bool): (r: Result<State>)
    requires WellFormed(board) && Get(board, s.pos) == Ground && (cube ==> CubeSized(board))
    ensures r.Ok? ==> Get(board, r.value.pos) == Ground
    decreases |path|
  {
    if path == [] then Ok(s)
    else match FirstCommand(path)
      case Err(e) => Err(e)
      case Ok((c, rest)) => Follow(board, Perform(board, s, c, cube), rest, cube)
  }

  /** Following a path is carrying out its commands in order. */
  function Run(board: Map, s: State, cs: seq<Command>, cube: bool): (r: State)
    requires WellFormed(board) && Get(board, s.pos) == Ground && (cube ==> CubeSized(board))
    ensures Get(board, r.pos) == Ground
    decreases |cs|
  {
    if cs == [] then s else Run(board, Perform(board, s, cs[0], cube), cs[1..], cube)
  }

  /** A path that reads without panicking is followed command by command. */
  lemma {:induction false} FollowRuns(board: Map, s: State, path: string, cube: bool)
    requires WellFormed(board) && Get(board, s.pos) == Ground && (cube ==> CubeSized(board))
    requires Commands(path).Ok?
    ensures Follow(board, s, path, cube) == Ok(Run(board, s, Commands(path).value, cube))
    decreases |path|
  {
    if path != [] {
      var (c, rest) := FirstCommand(path).value;
      FollowRuns(board, Perform(board, s, c, cube), rest, cube);
    }
  }

  // ---------------------------------------------------------------------
  // The answer

  /** The password: 1000 times the row plus 4 times the column plus the facing. */
  function Password(s: State): int
  {
    1000 * s.pos.y + 4 * s.pos.x + Facing(s.dir)
  }

  /** On a board less than 250 columns wide the password gives back row, column and facing. */
  lemma PasswordDecodes(s: State)
    requires 1 <= s.pos.x < 250 && 1 <= s.pos.y
    ensures Password(s) / 1000 == s.pos.y
    ensures Password(s) % 1000 / 4 == s.pos.x
    ensures Password(s) % 4 == Facing(s.dir)
  {
  }

  /** `solve`'s answer: the board is all lines but the last two, the path the last line. */
  function Answer(input: seq<string>, cube: bool): (r: Result<int>)
    requires cube && |input| >= 3 ==> CubeSized(MapOf(input[..|input| - 2]))
  {
    if |input| < 2 then Err(SUB_OVERFLOW)
    else if |input| == 2 then Err(UNWRAP_NONE)
    else
      var board := MapOf(input[..|input| - 2]);
      match Start(board)
      case None => Err(UNWRAP_NONE)
      case Some(p) =>
        match Follow(board, State(p, Right), input[|input| - 1], cube)
        case Err(e) => Err(e)
        case Ok(s) => Ok(Password(s))
  }

  /** `solve`: walk the path over the board, turning and moving, and report the password. */
  method Solve(input: seq<string>, cube: bool) returns (r: Result<int>)
    requires cube && |input| >= 3 ==> CubeSized(MapOf(input[..|input| - 2]))
    ensures r == Answer(input, cube)
  {
    if |input| < 2 {
      return Err(SUB_OVERFLOW);
    }
    var lines := input[..|input| - 2];
    if lines == [] {
      return Err(UNWRAP_NONE);
    }
    var board := NewMap(lines);
    var start := Start(board);
    if start.None? {
      return Err(UNWRAP_NONE);
    }
    var state := State(start.value, Right);
    var commands := new CommandReader(input[|input| - 1]);
    while true
      invariant Get(board, state.pos) == Ground
      invariant Answer(input, cube) == (match Follow(board, state, commands.rest, cube) case Err(e) => Err(e) case Ok(s) => Ok(Password(s)))
      decreases |commands.rest|
    {
      var command := commands.Next();
      match command
      case Err(e) =>
        return Err(e);
      case Ok(None) =>
        break;
      case Ok(Some(c)) =>
        match c
        case Move(amount) =>
          state := WalkSteps(board, state, amount, cube);
        case TurnLeftCommand =>
          state := State(state.pos, TurnLeft(state.dir));
        case TurnRightCommand =>
          state := State(state.pos, TurnRight(state.dir));
    }
    return Ok(Password(state));
  }

  /** `part_a`: the password after walking the flat board. */
  method PartA(input: seq<string>) returns (r: Result<int>)
    ensures r == Answer(input, false)
  {
    r := Solve(input, false);
  }

  /** `part_b`: the password after walking the folded cube. */
  method PartB(input: seq<string>) returns (r: Result<int>)
    requires |input| >= 3 ==> CubeSized(MapOf(input[..|input| - 2]))
    ensures r == Answer(input, true)
  {
    r := Solve(input, true);
  }
}
