// Day 18: Boiling Boulders. Lava droplets are unit cubes at integer
// coordinates in a 20 x 20 x 20 grid. Part A counts the faces of the cubes
// that do not touch another cube.
module Day18 {
  import opened Common

  /** `GRID_SIZE`: the grid is 20 cells along each axis. */
  const GRID_SIZE: nat := 20
  /** `MAX_COORDINATE`: the largest coordinate inside the grid. */
  const MAX_COORDINATE: nat := GRID_SIZE - 1
  /** The number of cells, `GRID_SIZE` cubed. */
  const CELLS: nat := 8000
  /** `CUBE_SIDES`: the faces of one cube. */
  const CUBE_SIDES: nat := 6

  datatype Coordinate = Coordinate(x: nat, y: nat, z: nat)

  predicate InRange(c: Coordinate)
  {
    c.x < GRID_SIZE && c.y < GRID_SIZE && c.z < GRID_SIZE
  }

  // ---------------------------------------------------------------------
  // Indexing

  /** `Coordinate::index`: `z * 20 * 20 + y * 20 + x`, with x varying fastest. */
  function Index(c: Coordinate): nat
  {
    c.z * 400 + c.y * 20 + c.x
  }

  /** The coordinate whose index is `i`. */
  function FromIndex(i: nat): Coordinate
  {
    Coordinate(i % 20, (i / 20) % 20, i / 400)
  }

  lemma DivMod20(q: nat, r: nat)
    requires r < 20
    ensures (q * 20 + r) / 20 == q && (q * 20 + r) % 20 == r
  {
  }

  lemma DivMod400(q: nat, r: nat)
    requires r < 400
    ensures (q * 400 + r) / 400 == q && (q * 400 + r) % 400 == r
  {
  }

  /** Every coordinate of the grid has an index below 8000, and the index
    * determines the coordinate. */
  lemma IndexRoundTrip(c: Coordinate)
    requires InRange(c)
    ensures Index(c) < CELLS && FromIndex(Index(c)) == c
  {
    var i := Index(c);
    var row := c.z * 20 + c.y;
    assert i == row * 20 + c.x;
    DivMod20(row, c.x);
    DivMod20(c.z, c.y);
    assert i == c.z * 400 + (c.y * 20 + c.x);
    DivMod400(c.z, c.y * 20 + c.x);
  }

  /** Every index below 8000 is the index of a coordinate of the grid. */
  lemma FromIndexRoundTrip(i: nat)
    requires i < CELLS
    ensures InRange(FromIndex(i)) && Index(FromIndex(i)) == i
  {
    var c := FromIndex(i);
    assert i == (i / 20) * 20 + c.x;
    assert i / 20 == ((i / 20) / 20) * 20 + c.y;
    assert (i / 20) / 20 == i / 400;
  }

  /** `index` is a bijection from the grid onto `[0, 8000)`: distinct
    * coordinates of the grid have distinct indices. */
  lemma IndexInjective(a: Coordinate, b: Coordinate)
    requires InRange(a) && InRange(b) && Index(a) == Index(b)
    ensures a == b
  {
    IndexRoundTrip(a);
    IndexRoundTrip(b);
  }

  /** `Coordinate::all`: every coordinate of the grid, x varying fastest,
    * then y, then z. */
  function All(): (r: seq<Coordinate>)
    ensures |r| == CELLS
  {
    seq(CELLS, i requires 0 <= i < CELLS => FromIndex(i))
  }

  /** `all` lists each coordinate of the grid exactly once: the coordinate
    * at position `i` lies in the grid and has index `i`, and every
    * coordinate of the grid is at position `Index(c)`. */
  lemma AllOnce(i: nat, c: Coordinate)
    requires i < CELLS
    ensures InRange(All()[i]) && Index(All()[i]) == i
    ensures InRange(c) ==> Index(c) < CELLS && All()[Index(c)] == c
  {
    FromIndexRoundTrip(i);
    if InRange(c) {
      IndexRoundTrip(c);
    }
  }

  /** The order of `all`: the coordinate after `(x, y, z)` is `(x + 1, y, z)`
    * within a row, then `(0, y + 1, z)`, then `(0, 0, z + 1)`. */
  lemma AllOrder(c: Coordinate)
    requires InRange(c) && Index(c) + 1 < CELLS
    ensures c.x < MAX_COORDINATE ==> All()[Index(c) + 1] == Coordinate(c.x + 1, c.y, c.z)
    ensures c.x == MAX_COORDINATE && c.y < MAX_COORDINATE ==> All()[Index(c) + 1] == Coordinate(0, c.y + 1, c.z)
    ensures c.x == MAX_COORDINATE && c.y == MAX_COORDINATE ==> All()[Index(c) + 1] == Coordinate(0, 0, c.z + 1)
  {
    var next := if c.x < MAX_COORDINATE then Coordinate(c.x + 1, c.y, c.z)
      else if c.y < MAX_COORDINATE then Coordinate(0, c.y + 1, c.z)
      else Coordinate(0, 0, c.z + 1);
    assert Index(next) == Index(c) + 1;
    AllOnce(Index(c) + 1, next);
  }

  // ---------------------------------------------------------------------
  // Parsing

  /** What is left of `str::split(',')`: the rest of the text, or nothing
    * once the last piece has been taken. */
  function SplitNext(rest: Option<string>): Option<(string, Option<string>)>
  {
    match rest
    case None => None
    case Some(s) =>
      match SplitOnce(s, ',')
      case Some((piece, after)) => Some((piece, Some(after)))
      case None => Some((s, None))
  }

  /** One component: the next piece, parsed as a `usize`. */
  function Component(rest: Option<string>): (r: Result<(nat, Option<string>)>)
    ensures SplitNext(rest).None? ==> r == Err("Unexpected end of input")
    ensures r.Ok? ==> SplitNext(rest).Some? && ParseUsize(SplitNext(rest).value.0) == Some(r.value.0)
  {
    match SplitNext(rest)
    case None => Err("Unexpected end of input")
    case Some((piece, after)) =>
      match ParseUsize(piece)
      case None => Err("invalid digit found in string")
      case Some(v) => Ok((v, after))
  }

  /** `Coordinate::from_str`: the first three comma-separated pieces, each
    * a `usize`; anything after the third piece is ignored. */
  function ParseCoordinate(line: string): (r: Result<Coordinate>)
    ensures r.Ok? ==> r.value.x <= USIZE_MAX && r.value.y <= USIZE_MAX && r.value.z <= USIZE_MAX
  {
    match Component(Some(line))
    case Err(e) => Err(e)
    case Ok((x, rest)) =>
      match Component(rest)
      case Err(e) => Err(e)
      case Ok((y, rest)) =>
        match Component(rest)
        case Err(e) => Err(e)
        case Ok((z, _)) => Ok(Coordinate(x, y, z))
  }

  function FormatCoordinate(c: Coordinate): string
  {
    NatToString(c.x) + "," + NatToString(c.y) + "," + NatToString(c.z)
  }

  /** A written number followed by a comma splits at that comma. */
  lemma SplitNumber(n: nat, rest: string)
    ensures SplitNext(Some(NatToString(n) + "," + rest)) == Some((NatToString(n), Some(rest)))
  {
    NoSeparatorInNumber(n, ',');
    SplitAtFirst(NatToString(n), ',', rest);
  }

  /** A written number with no comma after it is the last piece. */
  lemma LastNumber(n: nat)
    ensures SplitNext(Some(NatToString(n))) == Some((NatToString(n), None))
  {
    NoSeparatorInNumber(n, ',');
  }

  /** Parsing a written coordinate gives it back, and so does parsing it
    * with further pieces after it. */
  lemma ParseFormatCoordinate(c: Coordinate, extra: string)
    requires c.x <= USIZE_MAX && c.y <= USIZE_MAX && c.z <= USIZE_MAX
    ensures ParseCoordinate(FormatCoordinate(c)) == Ok(c)
    ensures ParseCoordinate(FormatCoordinate(c) + "," + extra) == Ok(c)
  {
    var xs, ys, zs := NatToString(c.x), NatToString(c.y), NatToString(c.z);
    ParseNatToString(c.x, USIZE_MAX);
    ParseNatToString(c.y, USIZE_MAX);
    ParseNatToString(c.z, USIZE_MAX);
    assert FormatCoordinate(c) == xs + "," + (ys + "," + zs);
    SplitNumber(c.x, ys + "," + zs);
    SplitNumber(c.y, zs);
    LastNumber(c.z);
    assert FormatCoordinate(c) + "," + extra == xs + "," + (ys + "," + (zs + "," + extra));
    SplitNumber(c.x, ys + "," + (zs + "," + extra));
    SplitNumber(c.y, zs + "," + extra);
    SplitNumber(c.z, extra);
  }

  /** A line with only two components is missing the third. */
  lemma MissingComponent(x: nat, y: nat)
    requires x <= USIZE_MAX && y <= USIZE_MAX
    ensures ParseCoordinate(NatToString(x) + "," + NatToString(y)) == Err("Unexpected end of input")
  {
    ParseNatToString(x, USIZE_MAX);
    ParseNatToString(y, USIZE_MAX);
    SplitNumber(x, NatToString(y));
    LastNumber(y);
  }

  // ---------------------------------------------------------------------
  // The grid

  /** The cube at `c` is present: `Grid::get`. */
  predicate Filled(cells: seq<bool>, c: Coordinate)
  {
    Index(c) < |cells| && cells[Index(c)]
  }

  /** An empty grid. */
  function Empty(): (r: seq<bool>)
    ensures |r| == CELLS && forall i | 0 <= i < CELLS :: !r[i]
  {
    seq(CELLS, _ => false)
  }

  /** The grid after setting each coordinate in turn, from an empty grid. */
  function Occupancy(cs: seq<Coordinate>): (r: seq<bool>)
    requires forall k | 0 <= k < |cs| :: Index(cs[k]) < CELLS
    ensures |r| == CELLS
  {
    if cs == [] then Empty()
    else Occupancy(cs[..|cs| - 1])[Index(cs[|cs| - 1]) := true]
  }

  /** A cell is set exactly when some coordinate of the list has its index.
    * Since a coordinate outside the grid can still have an index below
    * 8000, it sets the cell of another coordinate. */
  lemma {:induction false} OccupancyAt(cs: seq<Coordinate>, i: nat)
    requires forall k | 0 <= k < |cs| :: Index(cs[k]) < CELLS
    requires i < CELLS
    ensures Occupancy(cs)[i] <==> exists k | 0 <= k < |cs| :: Index(cs[k]) == i
  {
    if cs != [] {
      var n := |cs| - 1;
      OccupancyAt(cs[..n], i);
      if exists k | 0 <= k < n :: Index(cs[..n][k]) == i {
        var k :| 0 <= k < n && Index(cs[..n][k]) == i;
        assert Index(cs[k]) == i;
      }
      if exists k | 0 <= k < |cs| :: Index(cs[k]) == i {
        var k :| 0 <= k < |cs| && Index(cs[k]) == i;
        if k < n {
          assert Index(cs[..n][k]) == i;
        }
      }
    }
  }

  /** When every coordinate lies in the grid, a coordinate's cell is set
    * exactly when the coordinate is in the list. */
  lemma OccupancyInRange(cs: seq<Coordinate>, c: Coordinate)
    requires forall k | 0 <= k < |cs| :: InRange(cs[k])
    requires InRange(c)
    ensures forall k | 0 <= k < |cs| :: Index(cs[k]) < CELLS
    ensures Index(c) < CELLS && (Filled(Occupancy(cs), c) <==> c in cs)
  {
    forall k | 0 <= k < |cs|
      ensures Index(cs[k]) < CELLS
    {
      IndexRoundTrip(cs[k]);
    }
    IndexRoundTrip(c);
    OccupancyAt(cs, Index(c));
    if c in cs {
      var k :| 0 <= k < |cs| && cs[k] == c;
    }
    if exists k | 0 <= k < |cs| :: Index(cs[k]) == Index(c) {
      var k :| 0 <= k < |cs| && Index(cs[k]) == Index(c);
      IndexInjective(cs[k], c);
    }
  }

  /** `Grid`: one flag per cell of the grid. */
  class Grid {
    const cells: array<bool>

    /** `Grid::new`: every cell clear. */
    constructor()
      ensures cells.Length == CELLS && cells[..] == Empty() && fresh(cells)
    {
      cells := new bool[CELLS](_ => false);
    }

    /** `Grid::set`: the cell at `c` becomes set and no other cell changes. */
    method Set(c: Coordinate)
      requires Index(c) < cells.Length
      modifies cells
      ensures cells[..] == old(cells[..])[Index(c) := true]
    {
      cells[Index(c)] := true;
    }
  }

  /** After `set(c)`, `get(c)` holds and `get` of every other coordinate of
    * the grid is what it was. */
  lemma SetOnly(cells: seq<bool>, c: Coordinate, d: Coordinate)
    requires |cells| == CELLS && InRange(c) && InRange(d)
    ensures Index(c) < CELLS && Filled(cells[Index(c) := true], c)
    ensures d != c ==> Filled(cells[Index(c) := true], d) == Filled(cells, d)
  {
    IndexRoundTrip(c);
    if Index(d) == Index(c) {
      IndexInjective(c, d);
    }
  }

  /** The lines parse without a panic: each line that parses after lines
    * that all parse names a cell below index 8000, as `Grid::set` needs. */
  predicate NoPanic(input: seq<string>)
  {
    forall k | 0 <= k < |input| ::
      ParseEach(input[..k + 1], ParseCoordinate).Ok? ==> Index(ParseCoordinate(input[k]).value) < CELLS
  }

  /** `build_grid`: each line parsed and set in turn; the first line that
    * does not parse is the error. */
  method BuildGrid(input: seq<string>) returns (r: Result<Grid>)
    requires NoPanic(input)
    ensures ParseEach(input, ParseCoordinate).Err? ==> r == Err(ParseEach(input, ParseCoordinate).message)
    ensures ParseEach(input, ParseCoordinate).Ok? ==>
      var cs := ParseEach(input, ParseCoordinate).value;
      (forall k | 0 <= k < |cs| :: Index(cs[k]) < CELLS)
      && r.Ok? && fresh(r.value.cells) && r.value.cells[..] == Occupancy(cs)
  {
    var grid := new Grid();
    ghost var cs: seq<Coordinate> := [];
    for i := 0 to |input|
      invariant grid.cells.Length == CELLS && fresh(grid.cells)
      invariant ParseEach(input[..i], ParseCoordinate) == Ok(cs)
      invariant forall k | 0 <= k < |cs| :: Index(cs[k]) < CELLS
      invariant grid.cells[..] == Occupancy(cs)
    {
      ParseEachStep(input, ParseCoordinate, i, cs);
      match ParseCoordinate(input[i])
      case Err(e) =>
        ParseEachSticky(input, ParseCoordinate, i + 1);
        return Err(e);
      case Ok(c) =>
        assert Index(c) < CELLS;
        grid.Set(c);
        assert (cs + [c])[..|cs|] == cs;
        cs := cs + [c];
    }
    assert input[..|input|] == input;
    return Ok(grid);
  }

  // ---------------------------------------------------------------------
  // Counting faces

  /** Face neighbours: the coordinates differ by one along exactly one axis. */
  predicate Adjacent(a: Coordinate, b: Coordinate)
  {
    Abs(a.x - b.x) + Abs(a.y - b.y) + Abs(a.z - b.z) == 1
  }

  /** `Grid::count_neighbors`: the set face neighbours, checking z - 1,
    * z + 1, y - 1, y + 1, x - 1 and x + 1 in turn, each only inside the
    * grid. */
  function CountNeighbors(cells: seq<bool>, c: Coordinate): (r: nat)
    requires |cells| == CELLS && InRange(c)
    ensures r <= CUBE_SIDES
  {
    (if c.z > 0 && Filled(cells, Coordinate(c.x, c.y, c.z - 1)) then 1 else 0)
    + (if c.z < MAX_COORDINATE && Filled(cells, Coordinate(c.x, c.y, c.z + 1)) then 1 else 0)
    + (if c.y > 0 && Filled(cells, Coordinate(c.x, c.y - 1, c.z)) then 1 else 0)
    + (if c.y < MAX_COORDINATE && Filled(cells, Coordinate(c.x, c.y + 1, c.z)) then 1 else 0)
    + (if c.x > 0 && Filled(cells, Coordinate(c.x - 1, c.y, c.z)) then 1 else 0)
    + (if c.x < MAX_COORDINATE && Filled(cells, Coordinate(c.x + 1, c.y, c.z)) then 1 else 0)
  }

  /** The neighbour `count_neighbors` checks `d`-th (z - 1, z + 1, y - 1,
    * y + 1, x - 1, x + 1), when it lies in the grid. */
  function Neighbor(c: Coordinate, d: nat): Option<Coordinate>
  {
    if d == 0 then (if c.z > 0 then Some(Coordinate(c.x, c.y, c.z - 1)) else None)
    else if d == 1 then (if c.z < MAX_COORDINATE then Some(Coordinate(c.x, c.y, c.z + 1)) else None)
    else if d == 2 then (if c.y > 0 then Some(Coordinate(c.x, c.y - 1, c.z)) else None)
    else if d == 3 then (if c.y < MAX_COORDINATE then Some(Coordinate(c.x, c.y + 1, c.z)) else None)
    else if d == 4 then (if c.x > 0 then Some(Coordinate(c.x - 1, c.y, c.z)) else None)
    else if d == 5 then (if c.x < MAX_COORDINATE then Some(Coordinate(c.x + 1, c.y, c.z)) else None)
    else None
  }

  function Present(o: Option<Coordinate>): seq<Coordinate>
  {
    if o.Some? then [o.value] else []
  }

  /** The face neighbours of `c` that lie in the grid, in the order
    * `count_neighbors` checks them. */
  function Faces(c: Coordinate): seq<Coordinate>
  {
    Present(Neighbor(c, 0)) + Present(Neighbor(c, 1)) + Present(Neighbor(c, 2))
    + Present(Neighbor(c, 3)) + Present(Neighbor(c, 4)) + Present(Neighbor(c, 5))
  }

  /** Each neighbour `count_neighbors` checks is a face neighbour in the
    * grid. */
  lemma NeighborSound(c: Coordinate, d: nat)
    requires InRange(c) && Neighbor(c, d).Some?
    ensures d < CUBE_SIDES && InRange(Neighbor(c, d).value) && Adjacent(c, Neighbor(c, d).value)
  {
  }

  /** Every face neighbour in the grid is checked in some direction. */
  lemma NeighborComplete(c: Coordinate, n: Coordinate) returns (d: nat)
    requires InRange(c) && InRange(n) && Adjacent(c, n)
    ensures d < CUBE_SIDES && Neighbor(c, d) == Some(n)
  {
    if n.z < c.z {
      d := 0;
    } else if n.z > c.z {
      d := 1;
    } else if n.y < c.y {
      d := 2;
    } else if n.y > c.y {
      d := 3;
    } else if n.x < c.x {
      d := 4;
    } else {
      d := 5;
    }
  }

  /** No face neighbour is checked twice. */
  lemma NeighborDistinct(c: Coordinate, d: nat, e: nat)
    requires d < e && Neighbor(c, d).Some? && Neighbor(c, e).Some?
    ensures Neighbor(c, d) != Neighbor(c, e)
  {
  }

  lemma PresentMembers(o: Option<Coordinate>, n: Coordinate)
    ensures n in Present(o) <==> o == Some(n)
  {
  }

  /** The list holds exactly the face neighbours of `c` inside the grid. */
  lemma FacesExact(c: Coordinate, n: Coordinate)
    requires InRange(c)
    ensures n in Faces(c) <==> InRange(n) && Adjacent(c, n)
  {
    PresentMembers(Neighbor(c, 0), n);
    PresentMembers(Neighbor(c, 1), n);
    PresentMembers(Neighbor(c, 2), n);
    PresentMembers(Neighbor(c, 3), n);
    PresentMembers(Neighbor(c, 4), n);
    PresentMembers(Neighbor(c, 5), n);
    if n in Faces(c) {
      var d :| 0 <= d < CUBE_SIDES && Neighbor(c, d) == Some(n);
      NeighborSound(c, d);
    }
    if InRange(n) && Adjacent(c, n) {
      var d := NeighborComplete(c, n);
    }
  }

  /** The number of coordinates in `ns` whose cell is set. */
  function CountFilled(cells: seq<bool>, ns: seq<Coordinate>): nat
  {
    if ns == [] then 0
    else
      var n := ns[|ns| - 1];
      CountFilled(cells, ns[..|ns| - 1]) + (if Filled(cells, n) then 1 else 0)
  }

  /** Whether the cell of `o` exists and is set, as 0 or 1. */
  function Hit(cells: seq<bool>, o: Option<Coordinate>): nat
  {
    if o.Some? && Filled(cells, o.value) then 1 else 0
  }

  lemma CountFilledPresent(cells: seq<bool>, ns: seq<Coordinate>, o: Option<Coordinate>)
    ensures CountFilled(cells, ns + Present(o)) == CountFilled(cells, ns) + Hit(cells, o)
  {
    if o.Some? {
      assert (ns + [o.value])[..|ns|] == ns;
    } else {
      assert ns + [] == ns;
    }
  }

  /** `count_neighbors` counts exactly the face neighbours inside the grid
    * whose cell is set. */
  /** Counting the set cells of `Faces(c)` adds up the neighbours one by one. */
  lemma FacesCount(cells: seq<bool>, c: Coordinate)
    ensures CountFilled(cells, Faces(c))
      == Hit(cells, Neighbor(c, 0)) + Hit(cells, Neighbor(c, 1)) + Hit(cells, Neighbor(c, 2))
      + Hit(cells, Neighbor(c, 3)) + Hit(cells, Neighbor(c, 4)) + Hit(cells, Neighbor(c, 5))
  {
    var p := Present(Neighbor(c, 0));
    CountFilledPresent(cells, [], Neighbor(c, 0));
    assert [] + p == p;
    CountFilledPresent(cells, p, Neighbor(c, 1));
    p := p + Present(Neighbor(c, 1));
    CountFilledPresent(cells, p, Neighbor(c, 2));
    p := p + Present(Neighbor(c, 2));
    CountFilledPresent(cells, p, Neighbor(c, 3));
    p := p + Present(Neighbor(c, 3));
    CountFilledPresent(cells, p, Neighbor(c, 4));
    p := p + Present(Neighbor(c, 4));
    CountFilledPresent(cells, p, Neighbor(c, 5));
  }

  /** `count_neighbors` counts exactly the face neighbours inside the grid
    * whose cell is set. */
  lemma CountNeighborsFaces(cells: seq<bool>, c: Coordinate)
    requires |cells| == CELLS && InRange(c)
    ensures CountNeighbors(cells, c) == CountFilled(cells, Faces(c))
  {
    FacesCount(cells, c);
    NeighborsAsHits(cells, c);
  }

  /** `count_neighbors` adds one hit per neighbour it checks. */
  lemma NeighborsAsHits(cells: seq<bool>, c: Coordinate)
    requires |cells| == CELLS && InRange(c)
    ensures CountNeighbors(cells, c)
      == Hit(cells, Neighbor(c, 0)) + Hit(cells, Neighbor(c, 1)) + Hit(cells, Neighbor(c, 2))
      + Hit(cells, Neighbor(c, 3)) + Hit(cells, Neighbor(c, 4)) + Hit(cells, Neighbor(c, 5))
  {
    HitZ(cells, c);
    HitY(cells, c);
    HitX(cells, c);
  }

  lemma HitZ(cells: seq<bool>, c: Coordinate)
    ensures Hit(cells, Neighbor(c, 0)) == if c.z > 0 && Filled(cells, Coordinate(c.x, c.y, c.z - 1)) then 1 else 0
    ensures Hit(cells, Neighbor(c, 1)) == if c.z < MAX_COORDINATE && Filled(cells, Coordinate(c.x, c.y, c.z + 1)) then 1 else 0
  {
  }

  lemma HitY(cells: seq<bool>, c: Coordinate)
    ensures Hit(cells, Neighbor(c, 2)) == if c.y > 0 && Filled(cells, Coordinate(c.x, c.y - 1, c.z)) then 1 else 0
    ensures Hit(cells, Neighbor(c, 3)) == if c.y < MAX_COORDINATE && Filled(cells, Coordinate(c.x, c.y + 1, c.z)) then 1 else 0
  {
  }

  lemma HitX(cells: seq<bool>, c: Coordinate)
    ensures Hit(cells, Neighbor(c, 4)) == if c.x > 0 && Filled(cells, Coordinate(c.x - 1, c.y, c.z)) then 1 else 0
    ensures Hit(cells, Neighbor(c, 5)) == if c.x < MAX_COORDINATE && Filled(cells, Coordinate(c.x + 1, c.y, c.z)) then 1 else 0
  {
  }

  /** The six cells `count_neighbors` looks at are face neighbours in the
    * grid. */
  lemma CheckedAdjacent(c: Coordinate)
    requires InRange(c)
    ensures c.z > 0 ==> InRange(Coordinate(c.x, c.y, c.z - 1)) && Adjacent(c, Coordinate(c.x, c.y, c.z - 1))
    ensures c.z < MAX_COORDINATE ==> InRange(Coordinate(c.x, c.y, c.z + 1)) && Adjacent(c, Coordinate(c.x, c.y, c.z + 1))
    ensures c.y > 0 ==> InRange(Coordinate(c.x, c.y - 1, c.z)) && Adjacent(c, Coordinate(c.x, c.y - 1, c.z))
    ensures c.y < MAX_COORDINATE ==> InRange(Coordinate(c.x, c.y + 1, c.z)) && Adjacent(c, Coordinate(c.x, c.y + 1, c.z))
    ensures c.x > 0 ==> InRange(Coordinate(c.x - 1, c.y, c.z)) && Adjacent(c, Coordinate(c.x - 1, c.y, c.z))
    ensures c.x < MAX_COORDINATE ==> InRange(Coordinate(c.x + 1, c.y, c.z)) && Adjacent(c, Coordinate(c.x + 1, c.y, c.z))
  {
  }

  /** A cube's count depends only on its face neighbours inside the grid. */
  lemma CountNeighborsFrame(cells: seq<bool>, other: seq<bool>, c: Coordinate)
    requires |cells| == CELLS && |other| == CELLS && InRange(c)
    requires forall n | InRange(n) && Adjacent(c, n) :: Index(n) < CELLS && cells[Index(n)] == other[Index(n)]
    ensures CountNeighbors(cells, c) == CountNeighbors(other, c)
  {
    CheckedAdjacent(c);
  }

  /** What the cube at position `k` of `all` adds to the surface: its
    * uncovered faces, or nothing when the cell is clear. */
  function Exposed(cells: seq<bool>, k: nat): (r: nat)
    requires |cells| == CELLS && k < CELLS
    ensures r <= CUBE_SIDES
  {
    var c := All()[k];
    FromIndexRoundTrip(k);
    if Filled(cells, c) then CUBE_SIDES - CountNeighbors(cells, c) else 0
  }

  /** The surface counted over the first `k` coordinates of `all`. */
  function SurfaceUpTo(cells: seq<bool>, k: nat): (r: nat)
    requires |cells| == CELLS && k <= CELLS
    ensures r <= CUBE_SIDES * k
  {
    if k == 0 then 0 else SurfaceUpTo(cells, k - 1) + Exposed(cells, k - 1)
  }

  /** The surface area: the uncovered faces of every set cell. */
  function Surface(cells: seq<bool>): nat
    requires |cells| == CELLS
  {
    SurfaceUpTo(cells, CELLS)
  }

  /** An empty grid has no surface. */
  lemma {:induction false} EmptySurface(k: nat)
    requires k <= CELLS
    ensures SurfaceUpTo(Empty(), k) == 0
  {
    if k > 0 {
      EmptySurface(k - 1);
    }
  }

  /** Adding a cube whose face neighbours are all clear adds its six faces
    * and uncovers nothing: the surface grows by exactly 6. */
  lemma AddIsolated(cells: seq<bool>, c: Coordinate)
    requires |cells| == CELLS && InRange(c)
    requires !Filled(cells, c)
    requires forall n | InRange(n) && Adjacent(c, n) :: !Filled(cells, n)
    ensures Surface(cells[Index(c) := true]) == Surface(cells) + CUBE_SIDES
  {
    IndexRoundTrip(c);
    var after := cells[Index(c) := true];
    forall k | 0 <= k < CELLS
      ensures Exposed(after, k) == Exposed(cells, k) + (if k == Index(c) then CUBE_SIDES else 0)
    {
      ExposedAfterIsolated(cells, c, k);
    }
    SurfaceAfterIsolated(cells, c, CELLS);
  }

  /** Setting a cell that is not a face neighbour of `d` leaves the count
    * of `d` alone. */
  lemma SetElsewhere(cells: seq<bool>, c: Coordinate, d: Coordinate)
    requires |cells| == CELLS && InRange(c) && InRange(d)
    requires forall n | InRange(n) && Adjacent(d, n) :: n != c
    ensures Index(c) < CELLS && CountNeighbors(cells[Index(c) := true], d) == CountNeighbors(cells, d)
  {
    IndexRoundTrip(c);
    var after := cells[Index(c) := true];
    forall n | InRange(n) && Adjacent(d, n)
      ensures Index(n) < CELLS && cells[Index(n)] == after[Index(n)]
    {
      IndexRoundTrip(n);
      if Index(n) == Index(c) {
        IndexInjective(n, c);
      }
    }
    CountNeighborsFrame(after, cells, d);
  }

  /** A cube with no set face neighbour has none to count. */
  lemma NoNeighbors(cells: seq<bool>, c: Coordinate)
    requires |cells| == CELLS && InRange(c)
    requires forall n | InRange(n) && Adjacent(c, n) :: !Filled(cells, n)
    ensures CountNeighbors(cells, c) == 0
  {
    CheckedAdjacent(c);
  }

  lemma ExposedAfterIsolated(cells: seq<bool>, c: Coordinate, k: nat)
    requires |cells| == CELLS && InRange(c) && k < CELLS
    requires !Filled(cells, c)
    requires forall n | InRange(n) && Adjacent(c, n) :: !Filled(cells, n)
    ensures Index(c) < CELLS
    ensures Exposed(cells[Index(c) := true], k) == Exposed(cells, k) + (if k == Index(c) then CUBE_SIDES else 0)
  {
    IndexRoundTrip(c);
    var d := All()[k];
    AllOnce(k, d);
    if k == Index(c) {
      IndexInjective(d, c);
      SetElsewhere(cells, c, c);
      NoNeighbors(cells, c);
    } else if Filled(cells, d) {
      FilledAwayFromIsolated(cells, c, d);
      SetElsewhere(cells, c, d);
    }
  }

  /** A filled cell is not next to a cell whose neighbours are all empty. */
  lemma FilledAwayFromIsolated(cells: seq<bool>, c: Coordinate, d: Coordinate)
    requires |cells| == CELLS && InRange(c) && InRange(d) && Filled(cells, d)
    requires forall n | InRange(n) && Adjacent(c, n) :: !Filled(cells, n)
    ensures forall n | InRange(n) && Adjacent(d, n) :: n != c
  {
  }

  lemma {:induction false} SurfaceAfterIsolated(cells: seq<bool>, c: Coordinate, k: nat)
    requires |cells| == CELLS && InRange(c) && k <= CELLS
    requires Index(c) < CELLS
    requires forall j | 0 <= j < CELLS ::
      Exposed(cells[Index(c) := true], j) == Exposed(cells, j) + (if j == Index(c) then CUBE_SIDES else 0)
    ensures SurfaceUpTo(cells[Index(c) := true], k)
      == SurfaceUpTo(cells, k) + (if Index(c) < k then CUBE_SIDES else 0)
  {
    if k > 0 {
      SurfaceAfterIsolated(cells, c, k - 1);
    }
  }

  /** `part_a`: the surface area of the droplet described by the lines. */
  method PartA(input: seq<string>) returns (r: Result<nat>)
    requires NoPanic(input)
    ensures ParseEach(input, ParseCoordinate).Err? ==> r == Err(ParseEach(input, ParseCoordinate).message)
    ensures ParseEach(input, ParseCoordinate).Ok? ==>
      var cs := ParseEach(input, ParseCoordinate).value;
      (forall k | 0 <= k < |cs| :: Index(cs[k]) < CELLS) && r == Ok(Surface(Occupancy(cs)))
  {
    var grid := BuildGrid(input);
    match grid
    case Err(e) => return Err(e);
    case Ok(g) => return Ok(Surface(g.cells[..]));
  }
}
