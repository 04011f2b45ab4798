// Day 17: Pyroclastic Flow. Rocks of five shapes fall in turn into a chamber
// seven units wide, pushed left or right by jets of gas before each one-unit
// fall. Each row of the chamber is a byte whose seven low bits are its
// cells: bit 6 is the leftmost column, bit 0 the rightmost.
module Day17 {
  import opened Common

  datatype Direction = Left | Right

  /** A shape's four rows, bottom row first (`[u8; 4]`). */
  type Rows = s: seq<bv8> | |s| == 4 witness [0, 0, 0, 0]

  datatype Shape = Shape(rows: Rows)

  /** The five shapes in the order they fall, each starting two units from
    * the left wall. */
  const SHAPES: seq<Shape> := [
    Shape([0x1E, 0, 0, 0]),
    Shape([0x08, 0x1C, 0x08, 0]),
    Shape([0x1C, 0x04, 0x04, 0]),
    Shape([0x10, 0x10, 0x10, 0x10]),
    Shape([0x18, 0x18, 0, 0])
  ]

  /** Every row keeps to the seven cells of the chamber. */
  predicate Fits(shape: Shape)
  {
    NoCell(shape.rows, 0x80)
  }

  /** No row has a cell in `mask`. */
  predicate NoCell(rows: Rows, mask: bv8)
  {
    rows[0] & mask == 0 && rows[1] & mask == 0 && rows[2] & mask == 0 && rows[3] & mask == 0
  }

  /** Occupied rows come first. */
  predicate PrefixOccupied(rows: seq<bv8>)
  {
    forall i | 1 <= i < |rows| :: rows[i] != 0 ==> rows[i - 1] != 0
  }

  /** The bottom row is occupied and the occupied rows come first. */
  predicate Compact(shape: Shape)
  {
    var rows := shape.rows;
    rows[0] != 0 && (rows[2] != 0 ==> rows[1] != 0) && (rows[3] != 0 ==> rows[2] != 0)
  }

  lemma CompactPrefix(shape: Shape)
    requires Compact(shape)
    ensures PrefixOccupied(shape.rows)
  {
  }

  lemma ShapesWellFormed()
    ensures forall k | 0 <= k < |SHAPES| :: Fits(SHAPES[k]) && Compact(SHAPES[k])
  {
  }

  // ---------------------------------------------------------------------
  // Shifting a shape

  /** No row touches the wall the shape would move into. */
  predicate CanShift(shape: Shape, direction: Direction)
  {
    match direction
    case Left => NoCell(shape.rows, 0x40)
    case Right => NoCell(shape.rows, 0x01)
  }

  /** One row moved one column toward `direction`. */
  function ShiftRow(row: bv8, direction: Direction): bv8
  {
    match direction
    case Left => row << 1
    case Right => row >> 1
  }

  /** The shape moved one column in `direction`, or unchanged when a row
    * already touches that wall. */
  function Shift(shape: Shape, direction: Direction): (r: Shape)
    ensures !CanShift(shape, direction) ==> r == shape
    ensures Fits(shape) ==> Fits(r) && (Compact(shape) ==> Compact(r))
  {
    var rows := shape.rows;
    if !CanShift(shape, direction) then shape
    else
      ShiftRowFacts(rows[0], direction);
      ShiftRowFacts(rows[1], direction);
      ShiftRowFacts(rows[2], direction);
      ShiftRowFacts(rows[3], direction);
      Shape([ShiftRow(rows[0], direction), ShiftRow(rows[1], direction),
             ShiftRow(rows[2], direction), ShiftRow(rows[3], direction)])
  }

  /** A row that does not touch the wall it moves toward keeps to seven
    * cells, keeps its cells, and can be moved back. */
  lemma ShiftRowFacts(row: bv8, direction: Direction)
    ensures row & 0x80 == 0 && (direction == Left ==> row & 0x40 == 0) && (direction == Right ==> row & 0x01 == 0) ==>
      ShiftRow(row, direction) & 0x80 == 0
      && (ShiftRow(row, direction) == 0) == (row == 0)
      && (direction == Left ==> ShiftRow(row, direction) & 0x01 == 0 && ShiftRow(ShiftRow(row, direction), Right) == row)
      && (direction == Right ==> ShiftRow(row, direction) & 0x40 == 0 && ShiftRow(ShiftRow(row, direction), Left) == row)
  {
  }

  /** A shift that applies can be undone by a shift the other way. */
  lemma ShiftBack(shape: Shape)
    requires Fits(shape)
    ensures CanShift(shape, Left) ==> Shift(Shift(shape, Left), Right) == shape
    ensures CanShift(shape, Right) ==> Shift(Shift(shape, Right), Left) == shape
  {
    var rows := shape.rows;
    if CanShift(shape, Left) {
      ShiftRowFacts(rows[0], Left); ShiftRowFacts(rows[1], Left);
      ShiftRowFacts(rows[2], Left); ShiftRowFacts(rows[3], Left);
      assert CanShift(Shift(shape, Left), Right);
    }
    if CanShift(shape, Right) {
      ShiftRowFacts(rows[0], Right); ShiftRowFacts(rows[1], Right);
      ShiftRowFacts(rows[2], Right); ShiftRowFacts(rows[3], Right);
      assert CanShift(Shift(shape, Right), Left);
    }
  }

  // ---------------------------------------------------------------------
  // The chamber

  /** The index after `i` in a cycle of length `n`. */
  function Following(i: nat, n: nat): (r: nat)
    requires i < n
    ensures r < n
  {
    if i + 1 == n then 0 else i + 1
  }

  /** `Following` is the source's `(i + 1) % n`. */
  lemma FollowingIsNext(i: nat, n: nat)
    requires i < n
    ensures Following(i, n) == (i + 1) % n
  {
  }

  /** The jet pattern: at least one jet, each `<` or `>`. */
  predicate Jets(jets: string)
  {
    |jets| > 0 && forall i | 0 <= i < |jets| :: jets[i] == '<' || jets[i] == '>'
  }

  function JetAt(jets: string, i: nat): Direction
    requires i < |jets|
  {
    if jets[i] == '<' then Left else Right
  }

  /** The number of the shape's rows that lie beside existing rows when its
    * bottom row is at `height`: at most four. */
  function Overlap(size: nat, height: nat): (n: nat)
    ensures n <= 4 && (n > 0 ==> height + n <= size)
  {
    Min(if size > height then size - height else 0, 4)
  }

  /** Some cell of the shape at `height` is already rock; only the rows that
    * exist are looked at. */
  predicate Collides(rocks: seq<bv8>, shape: Shape, height: nat)
  {
    AnyOverlap(rocks, shape, height, Overlap(|rocks|, height))
  }

  /** Some of the shape's first `n` rows shares a cell with the chamber row
    * beside it. */
  predicate AnyOverlap(rocks: seq<bv8>, shape: Shape, height: nat, n: nat)
    requires n <= 4 && (n > 0 ==> height + n <= |rocks|)
  {
    n > 0 && (AnyOverlap(rocks, shape, height, n - 1) || rocks[height + n - 1] & shape.rows[n - 1] != 0)
  }

  /** A shared cell in one of the first `n` rows is found by the test. */
  lemma {:induction false} OverlapAt(rocks: seq<bv8>, shape: Shape, height: nat, n: nat, i: nat)
    requires n <= 4 && (n > 0 ==> height + n <= |rocks|) && i < n
    requires rocks[height + i] & shape.rows[i] != 0
    ensures AnyOverlap(rocks, shape, height, n)
  {
    if i < n - 1 {
      OverlapAt(rocks, shape, height, n - 1, i);
    }
  }

  /** The test finds a shared cell only where there is one. */
  lemma {:induction false} OverlapWitness(rocks: seq<bv8>, shape: Shape, height: nat, n: nat) returns (i: nat)
    requires n <= 4 && (n > 0 ==> height + n <= |rocks|)
    requires AnyOverlap(rocks, shape, height, n)
    ensures i < n && rocks[height + i] & shape.rows[i] != 0
  {
    if AnyOverlap(rocks, shape, height, n - 1) {
      i := OverlapWitness(rocks, shape, height, n - 1);
    } else {
      i := n - 1;
    }
  }

  /** Row `k` of the chamber, empty above the top. */
  function RowAt(rocks: seq<bv8>, k: nat): bv8
  {
    if k < |rocks| then rocks[k] else 0
  }

  /** Row `k` of a stack of rows whose bottom row is at `height`. */
  function RowsAt(rows: seq<bv8>, height: nat, k: nat): bv8
  {
    if height <= k < height + |rows| then rows[k - height] else 0
  }

  /** The collision test looks at all four rows of the shape: rows above
    * the chamber's top are empty and cannot collide. */
  lemma CollidesExact(rocks: seq<bv8>, shape: Shape, height: nat)
    ensures Collides(rocks, shape, height) <==>
      exists i | 0 <= i < 4 :: RowAt(rocks, height + i) & shape.rows[i] != 0
  {
    var n := Overlap(|rocks|, height);
    if Collides(rocks, shape, height) {
      var i := OverlapWitness(rocks, shape, height, n);
      assert RowAt(rocks, height + i) & shape.rows[i] != 0;
    }
    if exists i | 0 <= i < 4 :: RowAt(rocks, height + i) & shape.rows[i] != 0 {
      var i :| 0 <= i < 4 && RowAt(rocks, height + i) & shape.rows[i] != 0;
      OverlapAt(rocks, shape, height, n, i);
    }
  }

  /** The four floor rows are full, and every row is non-empty and keeps to
    * the seven cells. */
  predicate Stacked(rocks: seq<bv8>)
  {
    |rocks| >= 4 && rocks[0] == 0x7F && rocks[1] == 0x7F && rocks[2] == 0x7F && rocks[3] == 0x7F
    && forall k | 0 <= k < |rocks| :: rocks[k] != 0 && rocks[k] & 0x80 == 0
  }

  /** A shape whose bottom row is in the floor collides. */
  lemma FloorCollides(rocks: seq<bv8>, shape: Shape, height: nat)
    requires Stacked(rocks) && Fits(shape) && Compact(shape)
    ensures height < 4 ==> Collides(rocks, shape, height)
  {
    if height < 4 {
      FullRow(shape.rows[0]);
      assert rocks[height + 0] & shape.rows[0] != 0;
      OverlapAt(rocks, shape, height, Overlap(|rocks|, height), 0);
    }
  }

  lemma FullRow(row: bv8)
    requires row != 0 && row & 0x80 == 0
    ensures 0x7F & row != 0
  {
  }

  /** The shape at `height` is clear of the rocks, and would not be one row
    * lower. */
  predicate Rests(rocks: seq<bv8>, shape: Shape, height: nat)
  {
    height >= 1 && !Collides(rocks, shape, height) && Collides(rocks, shape, height - 1)
  }

  /** Where a falling shape comes to rest: the shape as last pushed, the
    * height of its bottom row, and the next jet. */
  datatype Resting = Resting(shape: Shape, height: nat, jet: nat)

  /** Where the shape comes to rest: each step the next jet pushes it when
    * nothing is in the way, then it falls one row unless that would make it
    * collide. The result is the resting shape, its height and the next jet. */
  function Fall(rocks: seq<bv8>, jets: string, jet: nat, shape: Shape, height: nat): (r: Resting)
    requires Stacked(rocks) && Jets(jets) && jet < |jets|
    requires Fits(shape) && Compact(shape) && height >= 4 && !Collides(rocks, shape, height)
    ensures Fits(r.shape) && Compact(r.shape) && 4 <= r.height <= |rocks| && r.jet < |jets|
    decreases height
  {
    var shifted := Shift(shape, JetAt(jets, jet));
    var moved := if Collides(rocks, shifted, height) then shape else shifted;
    var next := Following(jet, |jets|);
    if Collides(rocks, moved, height - 1) then
      assert Overlap(|rocks|, height - 1) > 0;
      Resting(moved, height, next)
    else
      FloorCollides(rocks, moved, height - 1);
      Fall(rocks, jets, next, moved, height - 1)
  }

  /** The shape comes to rest clear of the rocks, one row above where it
    * would first collide. */
  lemma {:induction false} FallRests(rocks: seq<bv8>, jets: string, jet: nat, shape: Shape, height: nat)
    requires Stacked(rocks) && Jets(jets) && jet < |jets|
    requires Fits(shape) && Compact(shape) && height >= 4 && !Collides(rocks, shape, height)
    ensures var r := Fall(rocks, jets, jet, shape, height); Rests(rocks, r.shape, r.height)
    decreases height
  {
    var shifted := Shift(shape, JetAt(jets, jet));
    var moved := if Collides(rocks, shifted, height) then shape else shifted;
    if !Collides(rocks, moved, height - 1) {
      FloorCollides(rocks, moved, height - 1);
      FallRests(rocks, jets, Following(jet, |jets|), moved, height - 1);
    }
  }

  /** One step of `Fall`: the pushed (or kept) shape either rests one row
    * up or falls on. */
  lemma FallStep(rocks: seq<bv8>, jets: string, jet: nat, shape: Shape, height: nat)
    requires Stacked(rocks) && Jets(jets) && jet < |jets|
    requires Fits(shape) && Compact(shape) && height >= 4 && !Collides(rocks, shape, height)
    ensures var shifted := Shift(shape, JetAt(jets, jet));
      var moved := if Collides(rocks, shifted, height) then shape else shifted;
      var next := Following(jet, |jets|);
      Fits(moved) && Compact(moved)
      && (Collides(rocks, moved, height - 1) ==>
            var r := Fall(rocks, jets, jet, shape, height); r.shape == moved && r.height == height && r.jet == next)
      && (!Collides(rocks, moved, height - 1) ==>
            height - 1 >= 4 && Fall(rocks, jets, jet, shape, height) == Fall(rocks, jets, next, moved, height - 1))
  {
    var shifted := Shift(shape, JetAt(jets, jet));
    var moved := if Collides(rocks, shifted, height) then shape else shifted;
    FloorCollides(rocks, moved, height - 1);
  }

  /** The shape at `height`, clear of the rocks, with `jet` next, comes to
    * rest as `target`. */
  predicate FallsTo(rocks: seq<bv8>, jets: string, jet: nat, shape: Shape, height: nat, target: Resting)
  {
    Stacked(rocks) && Jets(jets) && jet < |jets|
    && Fits(shape) && Compact(shape) && height >= 4 && !Collides(rocks, shape, height)
    && Fall(rocks, jets, jet, shape, height) == target
  }

  /** One row added to the chamber at `index`: beside an existing row it is
    * OR-ed into it, above the top a non-empty row is pushed. */
  function Place(rocks: seq<bv8>, row: bv8, index: nat): (r: seq<bv8>)
    ensures |r| >= |rocks|
  {
    if index < |rocks| then rocks[index := rocks[index] | row]
    else if row != 0 then rocks + [row]
    else rocks
  }

  /** A row placed no higher than just above the top ORs into row `index`
    * and leaves every other row as it was. */
  lemma PlaceRowAt(rocks: seq<bv8>, row: bv8, index: nat, k: nat)
    requires index <= |rocks| || row == 0
    ensures k == index ==> RowAt(Place(rocks, row, index), k) == RowAt(rocks, k) | row
    ensures k != index ==> RowAt(Place(rocks, row, index), k) == RowAt(rocks, k)
    ensures |Place(rocks, row, index)| == if index < |rocks| || row == 0 then |rocks| else |rocks| + 1
  {
  }

  /** Rows added to the chamber in turn, the first at `height`. */
  function Settle(rocks: seq<bv8>, rows: seq<bv8>, height: nat): (r: seq<bv8>)
    ensures |r| >= |rocks|
  {
    if |rows| == 0 then rocks
    else Place(Settle(rocks, rows[..|rows| - 1], height), rows[|rows| - 1], height + |rows| - 1)
  }

  /** Settling grows the chamber only by the shape's rows: with the
    * occupied rows first and the bottom row no higher than the top, a
    * pushed row always lands on the row just above the top. */
  lemma {:induction false} SettleLength(rocks: seq<bv8>, rows: seq<bv8>, height: nat)
    requires PrefixOccupied(rows) && height <= |rocks|
    ensures var r := Settle(rocks, rows, height);
      (|rows| > 0 && rows[|rows| - 1] != 0 ==> |r| >= height + |rows|)
      && |r| <= Max(|rocks|, height + |rows|)
  {
    if |rows| > 0 {
      var init := rows[..|rows| - 1];
      assert PrefixOccupied(init);
      SettleLength(rocks, init, height);
      var row := rows[|rows| - 1];
      if row != 0 && |rows| > 1 {
        assert rows[|rows| - 2] != 0;
      }
      PlaceRowAt(Settle(rocks, init, height), row, height + |rows| - 1, 0);
    }
  }

  /** Settling ORs each row into the chamber row it lands on. */
  lemma {:induction false} SettleRows(rocks: seq<bv8>, rows: seq<bv8>, height: nat)
    requires PrefixOccupied(rows) && height <= |rocks|
    ensures forall k: nat :: RowAt(Settle(rocks, rows, height), k) == RowAt(rocks, k) | RowsAt(rows, height, k)
  {
    if |rows| > 0 {
      var n := |rows|;
      var init := rows[..n - 1];
      assert PrefixOccupied(init);
      SettleRows(rocks, init, height);
      SettleLength(rocks, init, height);
      var before := Settle(rocks, init, height);
      if rows[n - 1] != 0 && n > 1 {
        assert rows[n - 2] != 0;
      }
      assert Settle(rocks, rows, height) == Place(before, rows[n - 1], height + n - 1);
      forall k: nat
        ensures RowAt(Settle(rocks, rows, height), k) == RowAt(rocks, k) | RowsAt(rows, height, k)
      {
        PlaceStep(rocks, before, rows, height, k);
      }
    }
  }

  /** Placing the last of `rows` extends what the earlier rows did. */
  lemma PlaceStep(rocks: seq<bv8>, before: seq<bv8>, rows: seq<bv8>, height: nat, k: nat)
    requires |rows| > 0
    requires height + |rows| - 1 <= |before| || rows[|rows| - 1] == 0
    requires RowAt(before, k) == RowAt(rocks, k) | RowsAt(rows[..|rows| - 1], height, k)
    ensures RowAt(Place(before, rows[|rows| - 1], height + |rows| - 1), k) == RowAt(rocks, k) | RowsAt(rows, height, k)
  {
    var index := height + |rows| - 1;
    var row := rows[|rows| - 1];
    PlaceRowAt(before, row, index, k);
    RowsAtLast(rows, height, k);
    if k == index {
      OrZero(RowAt(rocks, k), row);
    }
  }

  lemma RowsAtLast(rows: seq<bv8>, height: nat, k: nat)
    requires |rows| > 0
    ensures k == height + |rows| - 1 ==>
      RowsAt(rows, height, k) == rows[|rows| - 1] && RowsAt(rows[..|rows| - 1], height, k) == 0
    ensures k != height + |rows| - 1 ==> RowsAt(rows, height, k) == RowsAt(rows[..|rows| - 1], height, k)
  {
  }

  lemma OrZero(a: bv8, c: bv8)
    ensures (a | 0) | c == a | c
  {
  }

  /** Settling rows that keep to the seven cells keeps the chamber stacked:
    * the floor stays full and every row non-empty. */
  lemma {:induction false} SettleStacked(rocks: seq<bv8>, rows: seq<bv8>, height: nat)
    requires Stacked(rocks) && height >= 4
    requires forall i | 0 <= i < |rows| :: rows[i] & 0x80 == 0
    ensures Stacked(Settle(rocks, rows, height))
  {
    if |rows| > 0 {
      var init := rows[..|rows| - 1];
      SettleStacked(rocks, init, height);
      var before := Settle(rocks, init, height);
      var index := height + |rows| - 1;
      if index < |before| {
        OrRow(before[index], rows[|rows| - 1]);
      }
    }
  }

  lemma OrRow(a: bv8, b: bv8)
    requires a != 0 && a & 0x80 == 0 && b & 0x80 == 0
    ensures a | b != 0 && (a | b) & 0x80 == 0
  {
  }

  // ---------------------------------------------------------------------
  // Dropping rocks

  /** What the chamber holds: its rows, the next shape, the next jet and
    * the number of rocks dropped. */
  datatype ChamberState = ChamberState(rocks: seq<bv8>, shapeIndex: nat, jet: nat, shapeCount: nat)

  predicate ValidState(jets: string, s: ChamberState)
  {
    Stacked(s.rocks) && s.shapeIndex < |SHAPES| && s.jet < |jets|
  }

  /** Four full floor rows, the first shape and the first jet next. */
  function Initial(): ChamberState
  {
    ChamberState([0x7F, 0x7F, 0x7F, 0x7F], 0, 0, 0)
  }

  /** A shape three rows above the top is clear of every rock. */
  lemma StartClear(rocks: seq<bv8>, shape: Shape)
    ensures !Collides(rocks, shape, |rocks| + 3)
  {
  }

  /** Where the next shape comes to rest: it falls from three rows above
    * the top, pushed by the jets in turn. */
  function Landing(jets: string, s: ChamberState): (r: Resting)
    requires Jets(jets) && ValidState(jets, s)
    ensures Fits(r.shape) && Compact(r.shape) && 4 <= r.height <= |s.rocks| && r.jet < |jets|
  {
    ShapesWellFormed();
    StartClear(s.rocks, SHAPES[s.shapeIndex]);
    Fall(s.rocks, jets, s.jet, SHAPES[s.shapeIndex], |s.rocks| + 3)
  }

  /** The next shape comes to rest clear of the rocks, one row above where
    * it would first collide. */
  lemma LandingRests(jets: string, s: ChamberState)
    requires Jets(jets) && ValidState(jets, s)
    ensures Rests(s.rocks, Landing(jets, s).shape, Landing(jets, s).height)
  {
    NextShapeFits(s.shapeIndex);
    StartClear(s.rocks, SHAPES[s.shapeIndex]);
    FallRests(s.rocks, jets, s.jet, SHAPES[s.shapeIndex], |s.rocks| + 3);
  }

  /** One rock dropped: the next shape falls until it rests, and its rows
    * are added to the chamber. */
  function DropOnce(jets: string, s: ChamberState): (r: ChamberState)
    requires Jets(jets) && ValidState(jets, s)
    ensures ValidState(jets, r)
    ensures r.shapeCount == s.shapeCount + 1 && r.shapeIndex == Following(s.shapeIndex, 5)
    ensures |s.rocks| <= |r.rocks| <= |s.rocks| + 4
  {
    var rest := Landing(jets, s);
    CompactPrefix(rest.shape);
    SettleLength(s.rocks, rest.shape.rows, rest.height);
    SettleStacked(s.rocks, rest.shape.rows, rest.height);
    ChamberState(Settle(s.rocks, rest.shape.rows, rest.height), Following(s.shapeIndex, 5), rest.jet, s.shapeCount + 1)
  }

  /** The shape that falls next keeps to the chamber and has its occupied
    * rows first. */
  lemma NextShapeFits(k: nat)
    requires k < |SHAPES|
    ensures Fits(SHAPES[k]) && Compact(SHAPES[k])
  {
    ShapesWellFormed();
  }

  /** The state after a drop, from where the shape landed and the rows
    * settled. */
  lemma DropResult(jets: string, s: ChamberState, landing: Resting,
                    rocks: seq<bv8>, shapeIndex: nat, jet: nat, shapeCount: nat)
    requires Jets(jets) && ValidState(jets, s) && landing == Landing(jets, s)
    requires rocks == Settle(s.rocks, landing.shape.rows, landing.height)
    requires shapeIndex == Following(s.shapeIndex, 5) && jet == landing.jet && shapeCount == s.shapeCount + 1
    ensures ChamberState(rocks, shapeIndex, jet, shapeCount) == DropOnce(jets, s)
    ensures ValidState(jets, ChamberState(rocks, shapeIndex, jet, shapeCount))
  {
  }

  /** The next shape starts clear of the rocks, three rows above the top,
    * and comes to rest where `Landing` says. */
  lemma LandingOf(jets: string, s: ChamberState, rocks: seq<bv8>, jet: nat, shape: Shape)
    requires Jets(jets) && ValidState(jets, s)
    requires rocks == s.rocks && jet == s.jet && shape == SHAPES[s.shapeIndex]
    ensures FallsTo(rocks, jets, jet, shape, |rocks| + 3, Landing(jets, s))
  {
    NextShapeFits(s.shapeIndex);
    StartClear(rocks, shape);
  }

  /** The new chamber is the old one with the resting shape's cells added,
    * and those cells were all free. */
  lemma DropAddsShape(jets: string, s: ChamberState, k: nat)
    requires Jets(jets) && ValidState(jets, s)
    ensures var rest := Landing(jets, s);
      RowAt(DropOnce(jets, s).rocks, k) == RowAt(s.rocks, k) | RowsAt(rest.shape.rows, rest.height, k)
      && RowAt(s.rocks, k) & RowsAt(rest.shape.rows, rest.height, k) == 0
  {
    var rest := Landing(jets, s);
    assert DropOnce(jets, s).rocks == Settle(s.rocks, rest.shape.rows, rest.height);
    SettleRows(s.rocks, rest.shape.rows, rest.height);
    LandingRests(jets, s);
    ClearOfRocks(s.rocks, rest.shape, rest.height, k);
  }

  /** A shape that does not collide shares no cell with the chamber. */
  lemma ClearOfRocks(rocks: seq<bv8>, shape: Shape, height: nat, k: nat)
    requires !Collides(rocks, shape, height)
    ensures RowAt(rocks, k) & RowsAt(shape.rows, height, k) == 0
  {
    CollidesExact(rocks, shape, height);
    if height <= k < height + 4 {
      var i := k - height;
      assert RowAt(rocks, height + i) & shape.rows[i] == 0;
    }
  }

  /** `n` rocks dropped one after another: the count grows by `n`, the
    * shapes cycle `n` places, and the tower grows by at most four rows per
    * rock. */
  function Drops(jets: string, s: ChamberState, n: nat): (r: ChamberState)
    requires Jets(jets) && ValidState(jets, s)
    ensures ValidState(jets, r)
  {
    if n == 0 then s else DropOnce(jets, Drops(jets, s, n - 1))
  }

  lemma DropsNext(jets: string, s: ChamberState, n: nat, prev: ChamberState)
    requires Jets(jets) && ValidState(jets, s)
    requires prev == Drops(jets, s, n)
    ensures Drops(jets, s, n + 1) == DropOnce(jets, prev)
  {
  }


  /** `Chamber`: the rows of rock, and the `Shapes` and `Shifts` counters. */
  class Chamber {
    var shapeCount: nat
    var rocks: seq<bv8>
    /** The index `Shapes` holds. */
    var shapeIndex: nat
    /** The index `Shifts` holds. */
    var jet: nat
    const jets: string

    function State(): ChamberState
      reads this
    {
      ChamberState(rocks, shapeIndex, jet, shapeCount)
    }

    ghost predicate Valid()
      reads this
    {
      Jets(jets) && ValidState(jets, State())
    }

    constructor(jets: string)
      requires Jets(jets)
      ensures Valid() && State() == Initial() && this.jets == jets
    {
      shapeCount := 0;
      rocks := [0x7F, 0x7F, 0x7F, 0x7F];
      shapeIndex := 0;
      jet := 0;
      this.jets := jets;
    }

    /** The height of the tower above the floor. */
    function Height(): nat
      reads this
      requires |rocks| >= 4
    {
      |rocks| - 4
    }

    /** `Shapes::next`: the current shape; the index moves on cyclically. */
    method NextShape() returns (shape: Shape)
      requires shapeIndex < |SHAPES|
      modifies this
      ensures shape == SHAPES[old(shapeIndex)] && shapeIndex == Following(old(shapeIndex), 5)
      ensures unchanged(this`rocks, this`jet, this`shapeCount)
    {
      var index := shapeIndex;
      shapeIndex := (shapeIndex + 1) % |SHAPES|;
      FollowingIsNext(index, |SHAPES|);
      shape := SHAPES[index];
    }

    /** `Shifts::next`: the direction of the current jet; the index moves
      * on cyclically. */
    method NextShift() returns (direction: Direction)
      requires Jets(jets) && jet < |jets|
      modifies this
      ensures direction == JetAt(jets, old(jet)) && jet == Following(old(jet), |jets|)
      ensures rocks == old(rocks) && shapeIndex == old(shapeIndex) && shapeCount == old(shapeCount)
    {
      var index := jet;
      jet := (jet + 1) % |jets|;
      FollowingIsNext(index, |jets|);
      if jets[index] == '<' {
        direction := Left;
      } else {
        direction := Right;
      }
    }

    /** Drops the next rock until it rests and adds it to the chamber. */
    method Drop()
      requires Valid()
      modifies this
      ensures Valid()
      ensures State() == DropOnce(jets, old(State()))
    {
      ghost var start := State();
      var next := NextShape();
      ghost var landing := Landing(jets, start);
      LandingOf(jets, start, rocks, jet, next);
      var shape, height := Descend(next, landing);
      AddRows(shape, height);
      shapeCount := shapeCount + 1;
      DropResult(jets, start, landing, rocks, shapeIndex, jet, shapeCount);
    }

    /** `n` rocks dropped in turn. */
    method DropMany(n: nat)
      requires Valid()
      modifies this
      ensures Valid()
      ensures State() == Drops(jets, old(State()), n)
    {
      ghost var start := State();
      for i := 0 to n
        invariant Valid()
        invariant State() == Drops(jets, start, i)
      {
        ghost var before := State();
        Drop();
        DropsNext(jets, start, i, before);
      }
    }

    /** The falling loop: the shape starts three rows above the top and is
      * pushed and lowered until a fall would collide; the result is the
      * shape as pushed and the height it rests at. */
    method Descend(shape0: Shape, ghost target: Resting) returns (shape: Shape, height: nat)
      requires FallsTo(rocks, jets, jet, shape0, |rocks| + 3, target)
      modifies this
      ensures shape == target.shape && height == target.height && jet == target.jet
      ensures rocks == old(rocks) && shapeIndex == old(shapeIndex) && shapeCount == old(shapeCount)
    {
      shape := shape0;
      height := |rocks| + 3;
      ghost var chamber := rocks;
      while true
        invariant rocks == chamber && shapeIndex == old(shapeIndex) && shapeCount == old(shapeCount)
        invariant FallsTo(chamber, jets, jet, shape, height, target)
        decreases height
      {
        var landed;
        shape, landed := Push(shape, height, target);
        if landed {
          return;
        }
        height := height - 1;
      }
    }

    /** One turn of the falling loop: the next jet pushes the shape when
      * nothing is in the way, then it falls one row unless that would make
      * it collide, in which case it has landed at `height`. */
    method Push(shape: Shape, height: nat, ghost target: Resting) returns (moved: Shape, landed: bool)
      requires FallsTo(rocks, jets, jet, shape, height, target)
      modifies this
      ensures rocks == old(rocks) && shapeIndex == old(shapeIndex) && shapeCount == old(shapeCount)
      ensures landed ==> target.shape == moved && target.height == height && target.jet == jet && jet < |jets|
      ensures !landed ==> FallsTo(rocks, jets, jet, moved, height - 1, target)
    {
      FallStep(rocks, jets, jet, shape, height);
      var direction := NextShift();
      var shifted := Shift(shape, direction);
      moved := shape;
      if !Collides(rocks, shifted, height) {
        moved := shifted;
      }
      landed := Collides(rocks, moved, height - 1);
    }

    /** The settling loop: each of the shape's rows is OR-ed into the row
      * beside it, or pushed on top when it is non-empty. */
    method AddRows(shape: Shape, height: nat)
      modifies this
      ensures rocks == Settle(old(rocks), shape.rows, height)
      ensures shapeIndex == old(shapeIndex) && jet == old(jet) && shapeCount == old(shapeCount)
    {
      for i := 0 to 4
        invariant rocks == Settle(old(rocks), shape.rows[..i], height)
        invariant shapeIndex == old(shapeIndex) && jet == old(jet) && shapeCount == old(shapeCount)
      {
        var index := height + i;
        assert shape.rows[..i + 1][..i] == shape.rows[..i];
        if index < |rocks| {
          rocks := rocks[index := rocks[index] | shape.rows[i]];
        } else if shape.rows[i] != 0 {
          rocks := rocks + [shape.rows[i]];
        }
      }
      assert shape.rows[..4] == shape.rows;
    }
  }

  /** The number of rocks `part_a` drops. */
  const ROCKS: nat := 2022

  /** The height of the tower after 2022 rocks. */
  method PartA(input: seq<string>) returns (r: Result<nat>)
    requires |input| > 0 && Jets(input[0])
    ensures r.Ok? && r.value == |Drops(input[0], Initial(), ROCKS).rocks| - 4
  {
    var chamber := new Chamber(input[0]);
    chamber.DropMany(ROCKS);
    var height := chamber.Height();
    r := Ok(height);
  }
}
