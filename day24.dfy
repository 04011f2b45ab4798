/**
 * Day 24: crossing a valley swept by blizzards. Each tile of the valley is
 * a byte: its low four bits are the blizzards in it now, its high four bits
 * those arriving there in the next minute. `predict` fills in the high bits,
 * `simulate` moves them down; a breadth-first search, one minute at a time,
 * finds the first minute at which the exit can be reached.
 */
module Day24 {
  import opened Common

  const UNREACHABLE: string := "internal error: entered unreachable code"
  const OUT_OF_BOUNDS: string := "index out of bounds"
  const SUB_OVERFLOW: string := "attempt to subtract with overflow"
  const ADD_OVERFLOW: string := "attempt to add with overflow"
  const SLICE_END: string := "range end index out of range for slice"

  /** The values of a `u8`. */
  type U8 = x: int | 0 <= x < 256

  /** `Tile`: bits 0 to 3 the blizzards now in the cell, bits 4 to 7 those due next minute. */
  type Tile = bv8

  // ---------------------------------------------------------------------
  // Blizzards and tiles

  /** The values of an `i8`. */
  type I8 = x: int | -128 <= x < 128

  /** `Blizzard`: its bit in a tile and the step it takes each minute. */
  datatype Blizzard = Blizzard(mask: bv8, dx: I8, dy: I8)

  const UP: Blizzard := Blizzard(1, 0, -1)
  const RIGHT: Blizzard := Blizzard(2, 1, 0)
  const DOWN: Blizzard := Blizzard(4, 0, 1)
  const LEFT: Blizzard := Blizzard(8, -1, 0)

  /** `Blizzard::ALL`, in the order `predict` visits them. */
  const ALL: seq<Blizzard> := [UP, RIGHT, DOWN, LEFT]

  /** `Tile::new`: a blizzard's arrow sets its bit, `.` is an empty tile, any other byte is unreachable. */
  function NewTile(c: char): Result<Tile>
  {
    match c
    case '^' => Ok(UP.mask)
    case '>' => Ok(RIGHT.mask)
    case 'v' => Ok(DOWN.mask)
    case '<' => Ok(LEFT.mask)
    case '.' => Ok(0)
    case _ => Err(UNREACHABLE)
  }

  /** The arrow drawn for blizzard `k`. */
  function Arrow(k: nat): char
    requires k < 4
  {
    ['^', '>', 'v', '<'][k]
  }

  /** `Tile::will_be_empty`: no blizzard is due next minute. */
  predicate WillBeEmpty(t: Tile)
  {
    t & 0xF0 == 0
  }

  /** `Tile::contains`: the blizzard is in the cell now. */
  predicate Contains(t: Tile, b: Blizzard)
  {
    t & b.mask == b.mask
  }

  /** The blizzard is due in the cell next minute. */
  predicate Queued(t: Tile, b: Blizzard)
  {
    t & (b.mask << 4) == b.mask << 4
  }

  /** `Tile::enqueue`: the blizzard is due next minute. */
  function Enqueue(t: Tile, b: Blizzard): Tile
  {
    t | (b.mask << 4)
  }

  /** `Tile::update`: the blizzards due become the blizzards present. */
  function Update(t: Tile): Tile
  {
    t >> 4
  }

  /** The blizzards present now, the low four bits. */
  function Current(t: Tile): Tile
  {
    t & 0x0F
  }

  /** A new tile holds exactly the blizzard its arrow draws, and none is due yet. */
  lemma NewTileMeaning(c: char)
    requires NewTile(c).Ok?
    ensures WillBeEmpty(NewTile(c).value)
    ensures forall k | 0 <= k < 4 :: Contains(NewTile(c).value, ALL[k]) <==> c == Arrow(k)
    ensures c == '.' || c == '^' || c == '>' || c == 'v' || c == '<'
  {
  }

  /** A tile is empty next minute exactly when none of the four blizzards is due. */
  lemma WillBeEmptyMeaning(t: Tile)
    ensures WillBeEmpty(t) <==> forall k | 0 <= k < 4 :: !Queued(t, ALL[k])
  {
    assert ALL[0] == UP && ALL[1] == RIGHT && ALL[2] == DOWN && ALL[3] == LEFT;
    assert (t & 0x10 == 0 && t & 0x20 == 0 && t & 0x40 == 0 && t & 0x80 == 0) <==> t & 0xF0 == 0;
  }

  /**
   * Queuing a blizzard changes no blizzard present, makes that blizzard
   * due, and leaves every other blizzard due or not as it was.
   */
  lemma EnqueueMeaning(t: Tile, k: nat, j: nat)
    requires k < 4 && j < 4
    ensures Current(Enqueue(t, ALL[k])) == Current(t)
    ensures Queued(Enqueue(t, ALL[k]), ALL[j]) <==> j == k || Queued(t, ALL[j])
  {
    assert ALL[0] == UP && ALL[1] == RIGHT && ALL[2] == DOWN && ALL[3] == LEFT;
  }

  /** After an update the blizzards present are those that were due, and none is due. */
  lemma UpdateMeaning(t: Tile, k: nat)
    requires k < 4
    ensures Contains(Update(t), ALL[k]) <==> Queued(t, ALL[k])
    ensures WillBeEmpty(Update(t))
  {
    assert ALL[0] == UP && ALL[1] == RIGHT && ALL[2] == DOWN && ALL[3] == LEFT;
  }

  /** Whether a blizzard is present depends on the low four bits only. */
  lemma ContainsCurrent(t: Tile, u: Tile, k: nat)
    requires k < 4 && Current(t) == Current(u)
    ensures Contains(t, ALL[k]) <==> Contains(u, ALL[k])
  {
    assert ALL[0] == UP && ALL[1] == RIGHT && ALL[2] == DOWN && ALL[3] == LEFT;
  }

  // ---------------------------------------------------------------------
  // Coordinates

  /** `Position`: a cell of the valley's interior, as two `u8`s. */
  datatype Position = Position(x: U8, y: U8)

  const START: Position := Position(0, 0)

  /**
   * `add_coordinate`: `value + max`, then the signed step added with
   * `usize` wrap-around, taken modulo `max`.
   */
  function AddCoordinate(value: nat, delta: int, max: nat): (r: nat)
    requires max > 0 && -128 <= delta < 128 && value + max <= USIZE_MAX
    ensures r < max
  {
    ((value + max + delta) % U64_MODULUS) % max
  }

  /**
   * Without wrap-around in `usize`, the coordinate is the value moved by the
   * step, taken modulo `max`: off one edge of the valley means onto the other.
   */
  lemma AddCoordinateMeaning(value: nat, delta: int, max: nat)
    requires max > 0 && -128 <= delta < 128 && value + max <= USIZE_MAX
    requires 0 <= value + max + delta < U64_MODULUS
    ensures AddCoordinate(value, delta, max) == (value + delta) % max
  {
    var a := value + max + delta;
    assert a % U64_MODULUS == a;
    ModShift(value + delta, max);
  }

  /** Adding the modulus does not change a remainder. */
  lemma ModShift(a: int, m: nat)
    requires m > 0
    ensures (a + m) % m == a % m
  {
    var q, r := a / m, a % m;
    assert a + m == (q + 1) * m + r;
    ModUnique(a + m, q + 1, r, m);
  }

  /** The division theorem: quotient and remainder are unique. */
  lemma ModUnique(x: int, q: int, s: nat, d: nat)
    requires d > 0 && s < d && x == q * d + s
    ensures x % d == s
  {
    var q', s' := x / d, x % d;
    if q' < q {
      MulGap(q', q, d);
    } else if q < q' {
      MulGap(q, q', d);
    }
  }

  /** Multiples of `d` with different factors are at least `d` apart. */
  lemma MulGap(a: int, b: int, d: nat)
    requires a < b
    ensures a * d + d <= b * d
  {
    var c := b - a;
    assert b * d == a * d + c * d;
    assert c * d == (c - 1) * d + d;
  }

  /** `x + y * width`: the row-major index of a cell. */
  function Index(x: nat, y: nat, width: nat): nat
  {
    x + y * width
  }

  /** A cell inside a `width` by `height` valley has an index inside its tiles. */
  lemma IndexInside(x: nat, y: nat, width: nat, height: nat)
    requires x < width && y < height
    ensures Index(x, y, width) < width * height
  {
    assert (y + 1) * width <= height * width;
  }

  /** Distinct cells inside the valley have distinct indices. */
  lemma IndexInjective(x: nat, y: nat, x2: nat, y2: nat, width: nat)
    requires x < width && x2 < width && Index(x, y, width) == Index(x2, y2, width)
    ensures x == x2 && y == y2
  {
    if y < y2 {
      MulGap(y, y2, width);
    } else if y2 < y {
      MulGap(y2, y, width);
    }
  }

  /** The tile of cell `(x, y)`. */
  function Cell(t: seq<Tile>, width: nat, height: nat, x: nat, y: nat): Tile
    requires x < width && y < height && |t| == width * height
  {
    IndexInside(x, y, width, height);
    t[Index(x, y, width)]
  }

  /** The index of the cell blizzard `k` of cell `(x, y)` moves to, wrapping around the valley. */
  function Target(x: nat, y: nat, k: nat, width: nat, height: nat): (r: nat)
    requires x < width <= ISIZE_MAX && y < height <= ISIZE_MAX && k < 4
    ensures r < width * height
  {
    var tx := AddCoordinate(x, ALL[k].dx, width);
    var ty := AddCoordinate(y, ALL[k].dy, height);
    IndexInside(tx, ty, width, height);
    Index(tx, ty, width)
  }

  // ---------------------------------------------------------------------
  // `predict` and `simulate` as functions on the tiles

  /** The dimensions of a valley whose tiles are the row-major `t`. */
  predicate Fits(t: seq<Tile>, width: nat, height: nat)
  {
    width <= ISIZE_MAX && height <= ISIZE_MAX && |t| == width * height
  }

  /** Blizzard `k`, if `tile` holds it, queued at its target. */
  function PredictOne(t: seq<Tile>, width: nat, height: nat, x: nat, y: nat, tile: Tile, k: nat): (r: seq<Tile>)
    requires Fits(t, width, height) && x < width && y < height && k < 4
    ensures |r| == |t|
  {
    if !Contains(tile, ALL[k]) then t
    else
      var i := Target(x, y, k, width, height);
      t[i := Enqueue(t[i], ALL[k])]
  }

  /**
   * Handling one blizzard keeps every blizzard present, and makes due
   * exactly that blizzard at its target, if the tile holds it.
   */
  lemma PredictOneMeaning(t: seq<Tile>, width: nat, height: nat, x: nat, y: nat, tile: Tile, k: nat, j: nat, k2: nat)
    requires Fits(t, width, height) && x < width && y < height && k < 4 && j < |t| && k2 < 4
    ensures Current(PredictOne(t, width, height, x, y, tile, k)[j]) == Current(t[j])
    ensures Queued(PredictOne(t, width, height, x, y, tile, k)[j], ALL[k2]) <==>
      Queued(t[j], ALL[k2]) || (j == Target(x, y, k, width, height) && k2 == k && Contains(tile, ALL[k]))
  {
    EnqueueMeaning(t[j], k, k2);
  }

  /** `Valley::simulate`: every tile updated. */
  function Simulated(t: seq<Tile>): (r: seq<Tile>)
  {
    seq(|t|, i requires 0 <= i < |t| => Update(t[i]))
  }

  /** After a simulation the blizzards of each cell are those that were due there, and none is due. */
  lemma SimulatedMeaning(t: seq<Tile>)
    ensures |Simulated(t)| == |t|
    ensures forall i, k | 0 <= i < |t| && 0 <= k < 4 :: Contains(Simulated(t)[i], ALL[k]) <==> Queued(t[i], ALL[k])
    ensures forall i | 0 <= i < |t| :: WillBeEmpty(Simulated(t)[i])
  {
    forall i, k | 0 <= i < |t| && 0 <= k < 4
      ensures Contains(Simulated(t)[i], ALL[k]) <==> Queued(t[i], ALL[k])
      ensures WillBeEmpty(Simulated(t)[i])
    {
      UpdateMeaning(t[i], k);
    }
  }

  // ---------------------------------------------------------------------
  // What `predict` computes

  /** Blizzard `k` of cell `(x2, y2)` comes before blizzard `k'` of cell `(x, y)` in `predict`'s order. */
  ghost predicate Done(x2: nat, y2: nat, k2: nat, y: nat, x: nat, k: nat)
  {
    y2 < y || (y2 == y && (x2 < x || (x2 == x && k2 < k)))
  }

  /** No blizzard present in any cell changed, and every blizzard due is still due. */
  ghost predicate KeepsCurrent(t0: seq<Tile>, t: seq<Tile>)
  {
    && |t| == |t0|
    && (forall i | 0 <= i < |t| :: Current(t[i]) == Current(t0[i]))
    && (forall i, k: nat | 0 <= i < |t| && k < 4 && Queued(t0[i], ALL[k]) :: Queued(t[i], ALL[k]))
  }

  /** Every blizzard of `t0` handled before `(y, x, k)` is due at its target in `t`. */
  ghost predicate Sends(t0: seq<Tile>, t: seq<Tile>, width: nat, height: nat, y: nat, x: nat, k: nat)
    requires Fits(t0, width, height) && |t| == |t0|
  {
    forall x2: nat, y2: nat, k2: nat | x2 < width && y2 < height && k2 < 4 && Done(x2, y2, k2, y, x, k) && Contains(Cell(t0, width, height, x2, y2), ALL[k2]) ::
      Queued(t[Target(x2, y2, k2, width, height)], ALL[k2])
  }

  /** Every blizzard due in `t` and not in `t0` was sent by a blizzard handled before `(y, x, k)`. */
  ghost predicate Sourced(t0: seq<Tile>, t: seq<Tile>, width: nat, height: nat, y: nat, x: nat, k: nat)
    requires Fits(t0, width, height) && |t| == |t0|
  {
    forall i, k2: nat | 0 <= i < |t| && k2 < 4 && Queued(t[i], ALL[k2]) && !Queued(t0[i], ALL[k2]) ::
      exists x2: nat, y2: nat | x2 < width && y2 < height && Done(x2, y2, k2, y, x, k) ::
        Contains(Cell(t0, width, height, x2, y2), ALL[k2]) && Target(x2, y2, k2, width, height) == i
  }

  /** What `predict` has achieved once it reaches blizzard `k` of cell `(x, y)`. */
  ghost predicate Predicting(t0: seq<Tile>, t: seq<Tile>, width: nat, height: nat, y: nat, x: nat, k: nat)
    requires Fits(t0, width, height)
  {
    KeepsCurrent(t0, t) && Sends(t0, t, width, height, y, x, k) && Sourced(t0, t, width, height, y, x, k)
  }

  /** Nothing has been achieved, and nothing is needed, before the first blizzard. */
  lemma PredictingStart(t0: seq<Tile>, width: nat, height: nat)
    requires Fits(t0, width, height)
    ensures Predicting(t0, t0, width, height, 0, 0, 0)
  {
  }

  /** One blizzard handled: no blizzard present changes. */
  lemma KeepsCurrentStep(t0: seq<Tile>, t: seq<Tile>, width: nat, height: nat, y: nat, x: nat, k: nat, tile: Tile)
    requires Fits(t0, width, height) && x < width && y < height && k < 4
    requires KeepsCurrent(t0, t)
    ensures KeepsCurrent(t0, PredictOne(t, width, height, x, y, tile, k))
  {
    var t1 := PredictOne(t, width, height, x, y, tile, k);
    forall j, k2: nat | 0 <= j < |t| && k2 < 4
      ensures Current(t1[j]) == Current(t0[j])
      ensures Queued(t0[j], ALL[k2]) ==> Queued(t1[j], ALL[k2])
    {
      PredictOneMeaning(t, width, height, x, y, tile, k, j, k2);
    }
  }

  /** One blizzard handled: it is due at its target, and the blizzards handled before stay due. */
  lemma SendsStep(t0: seq<Tile>, t: seq<Tile>, width: nat, height: nat, y: nat, x: nat, k: nat, tile: Tile)
    requires Fits(t0, width, height) && x < width && y < height && k < 4
    requires |t| == |t0| && Sends(t0, t, width, height, y, x, k)
    requires Contains(Cell(t0, width, height, x, y), ALL[k]) ==> Contains(tile, ALL[k])
    ensures Sends(t0, PredictOne(t, width, height, x, y, tile, k), width, height, y, x, k + 1)
  {
    var t1 := PredictOne(t, width, height, x, y, tile, k);
    forall x2: nat, y2: nat, k2: nat | x2 < width && y2 < height && k2 < 4 && Done(x2, y2, k2, y, x, k + 1) && Contains(Cell(t0, width, height, x2, y2), ALL[k2])
      ensures Queued(t1[Target(x2, y2, k2, width, height)], ALL[k2])
    {
      PredictOneMeaning(t, width, height, x, y, tile, k, Target(x2, y2, k2, width, height), k2);
    }
  }

  /** One blizzard handled: a blizzard newly due was sent by one handled so far. */
  lemma SourcedStep(t0: seq<Tile>, t: seq<Tile>, width: nat, height: nat, y: nat, x: nat, k: nat, tile: Tile)
    requires Fits(t0, width, height) && x < width && y < height && k < 4
    requires |t| == |t0| && Sourced(t0, t, width, height, y, x, k)
    requires Contains(tile, ALL[k]) ==> Contains(Cell(t0, width, height, x, y), ALL[k])
    ensures Sourced(t0, PredictOne(t, width, height, x, y, tile, k), width, height, y, x, k + 1)
  {
    var t1 := PredictOne(t, width, height, x, y, tile, k);
    forall j, k2: nat | 0 <= j < |t1| && k2 < 4 && Queued(t1[j], ALL[k2]) && !Queued(t0[j], ALL[k2])
      ensures exists x2: nat, y2: nat | x2 < width && y2 < height && Done(x2, y2, k2, y, x, k + 1) ::
        Contains(Cell(t0, width, height, x2, y2), ALL[k2]) && Target(x2, y2, k2, width, height) == j
    {
      PredictOneMeaning(t, width, height, x, y, tile, k, j, k2);
      if !Queued(t[j], ALL[k2]) {
        assert Done(x, y, k2, y, x, k + 1);
      }
    }
  }

  /** One blizzard handled. */
  lemma PredictingStep(t0: seq<Tile>, t: seq<Tile>, width: nat, height: nat, y: nat, x: nat, k: nat, tile: Tile)
    requires Fits(t0, width, height) && x < width && y < height && k < 4
    requires Predicting(t0, t, width, height, y, x, k)
    requires Current(tile) == Current(Cell(t0, width, height, x, y))
    ensures Predicting(t0, PredictOne(t, width, height, x, y, tile, k), width, height, y, x, k + 1)
  {
    ContainsCurrent(tile, Cell(t0, width, height, x, y), k);
    KeepsCurrentStep(t0, t, width, height, y, x, k, tile);
    SendsStep(t0, t, width, height, y, x, k, tile);
    SourcedStep(t0, t, width, height, y, x, k, tile);
  }

  /** After the last blizzard of a cell comes the first of the next cell. */
  lemma NextCell(t0: seq<Tile>, t: seq<Tile>, width: nat, height: nat, y: nat, x: nat)
    requires Fits(t0, width, height) && Predicting(t0, t, width, height, y, x, 4)
    ensures Predicting(t0, t, width, height, y, x + 1, 0)
  {
    forall x2: nat, y2: nat, k2: nat | k2 < 4
      ensures Done(x2, y2, k2, y, x, 4) <==> Done(x2, y2, k2, y, x + 1, 0)
    {
    }
  }

  /** After the last cell of a row comes the first cell of the next row. */
  lemma NextRow(t0: seq<Tile>, t: seq<Tile>, width: nat, height: nat, y: nat)
    requires Fits(t0, width, height) && Predicting(t0, t, width, height, y, width, 0)
    ensures Predicting(t0, t, width, height, y + 1, 0, 0)
  {
    forall x2: nat, y2: nat, k2: nat | x2 < width
      ensures Done(x2, y2, k2, y, width, 0) <==> Done(x2, y2, k2, y + 1, 0, 0)
    {
    }
  }

  /** A cell's blizzards present, as `predict` left them, are those it started with. */
  lemma CellCurrent(t0: seq<Tile>, t: seq<Tile>, width: nat, height: nat, x: nat, y: nat)
    requires Fits(t0, width, height) && x < width && y < height && KeepsCurrent(t0, t)
    ensures Current(Cell(t, width, height, x, y)) == Current(Cell(t0, width, height, x, y))
  {
    IndexInside(x, y, width, height);
  }

  /** Blizzard `k` of some cell moves to the cell of index `i`. */
  ghost predicate Sent(t0: seq<Tile>, width: nat, height: nat, i: nat, k: nat)
    requires Fits(t0, width, height) && k < 4
  {
    exists x: nat, y: nat | x < width && y < height ::
      Contains(Cell(t0, width, height, x, y), ALL[k]) && Target(x, y, k, width, height) == i
  }

  /** The due bit of blizzard `k`, set when `due` holds. */
  function DueBit(due: bool, k: nat): Tile
    requires k < 4
  {
    if due then ALL[k].mask << 4 else 0
  }

  /** The tile of index `i` once every blizzard is queued where it moves to. */
  ghost function PredictedTile(t0: seq<Tile>, width: nat, height: nat, i: nat): Tile
    requires Fits(t0, width, height) && i < |t0|
  {
    Compose(t0[i],
      Queued(t0[i], ALL[0]) || Sent(t0, width, height, i, 0),
      Queued(t0[i], ALL[1]) || Sent(t0, width, height, i, 1),
      Queued(t0[i], ALL[2]) || Sent(t0, width, height, i, 2),
      Queued(t0[i], ALL[3]) || Sent(t0, width, height, i, 3))
  }

  /** The blizzards present in `c`, with blizzard `k` due when `bk` holds. */
  function Compose(c: Tile, b0: bool, b1: bool, b2: bool, b3: bool): Tile
  {
    Current(c) | DueBit(b0, 0) | DueBit(b1, 1) | DueBit(b2, 2) | DueBit(b3, 3)
  }

  /**
   * What `Valley::predict` leaves in the tiles: every blizzard present stays,
   * every blizzard due stays due, and every blizzard is due in the cell its
   * step leads to, wrapping around the valley.
   */
  ghost function Predicted(t0: seq<Tile>, width: nat, height: nat): (r: seq<Tile>)
    requires Fits(t0, width, height)
    ensures |r| == |t0|
  {
    seq(|t0|, i requires 0 <= i < |t0| => PredictedTile(t0, width, height, i))
  }

  /** A tile is its present blizzards together with the bits of the blizzards due. */
  lemma TileBits(c: Tile, b0: bool, b1: bool, b2: bool, b3: bool)
    ensures var v := Compose(c, b0, b1, b2, b3);
      && Current(v) == Current(c)
      && (Queued(v, ALL[0]) <==> b0) && (Queued(v, ALL[1]) <==> b1)
      && (Queued(v, ALL[2]) <==> b2) && (Queued(v, ALL[3]) <==> b3)
  {
    assert ALL[0] == UP && ALL[1] == RIGHT && ALL[2] == DOWN && ALL[3] == LEFT;
  }

  /** Two tiles with the same blizzards present and the same blizzards due are equal. */
  lemma TileEquality(a: Tile, b: Tile)
    requires Current(a) == Current(b)
    requires forall k: nat | k < 4 :: Queued(a, ALL[k]) <==> Queued(b, ALL[k])
    ensures a == b
  {
    assert ALL[0] == UP && ALL[1] == RIGHT && ALL[2] == DOWN && ALL[3] == LEFT;
    assert Queued(a, ALL[0]) <==> Queued(b, ALL[0]);
    assert Queued(a, ALL[1]) <==> Queued(b, ALL[1]);
    assert Queued(a, ALL[2]) <==> Queued(b, ALL[2]);
    assert Queued(a, ALL[3]) <==> Queued(b, ALL[3]);
  }

  /**
   * After prediction a cell holds the blizzards it held, and blizzard `k` is
   * due there exactly when it was already due or some cell's blizzard `k`
   * moves there.
   */
  lemma PredictedMeaning(t0: seq<Tile>, width: nat, height: nat, i: nat, k: nat)
    requires Fits(t0, width, height) && i < |t0| && k < 4
    ensures Current(Predicted(t0, width, height)[i]) == Current(t0[i])
    ensures Queued(Predicted(t0, width, height)[i], ALL[k]) <==> Queued(t0[i], ALL[k]) || Sent(t0, width, height, i, k)
  {
    PredictedTileMeaning(t0, width, height, i);
  }

  /** The due bits of a predicted tile, blizzard by blizzard. */
  lemma PredictedTileMeaning(t0: seq<Tile>, width: nat, height: nat, i: nat)
    requires Fits(t0, width, height) && i < |t0|
    ensures var v := PredictedTile(t0, width, height, i);
      && Current(v) == Current(t0[i])
      && (Queued(v, ALL[0]) <==> Queued(t0[i], ALL[0]) || Sent(t0, width, height, i, 0))
      && (Queued(v, ALL[1]) <==> Queued(t0[i], ALL[1]) || Sent(t0, width, height, i, 1))
      && (Queued(v, ALL[2]) <==> Queued(t0[i], ALL[2]) || Sent(t0, width, height, i, 2))
      && (Queued(v, ALL[3]) <==> Queued(t0[i], ALL[3]) || Sent(t0, width, height, i, 3))
  {
    TileBits(t0[i], Queued(t0[i], ALL[0]) || Sent(t0, width, height, i, 0), Queued(t0[i], ALL[1]) || Sent(t0, width, height, i, 1),
      Queued(t0[i], ALL[2]) || Sent(t0, width, height, i, 2), Queued(t0[i], ALL[3]) || Sent(t0, width, height, i, 3));
  }

  /** Once every cell is handled, the tiles are the predicted ones. */
  lemma PredictingDone(t0: seq<Tile>, t: seq<Tile>, width: nat, height: nat)
    requires Fits(t0, width, height) && Predicting(t0, t, width, height, height, 0, 0)
    ensures t == Predicted(t0, width, height)
  {
    forall i | 0 <= i < |t|
      ensures t[i] == Predicted(t0, width, height)[i]
    {
      forall k: nat | k < 4
        ensures Queued(t[i], ALL[k]) <==> Queued(Predicted(t0, width, height)[i], ALL[k])
      {
        PredictedMeaning(t0, width, height, i, k);
        if Sent(t0, width, height, i, k) {
          var x: nat, y: nat :| x < width && y < height && Contains(Cell(t0, width, height, x, y), ALL[k]) && Target(x, y, k, width, height) == i;
          assert Done(x, y, k, height, 0, 0);
        }
      }
      PredictedMeaning(t0, width, height, i, 0);
      TileEquality(t[i], Predicted(t0, width, height)[i]);
    }
  }

  /** Every blizzard present is due, after prediction, in the cell its step leads to. */
  lemma PredictedSends(t0: seq<Tile>, width: nat, height: nat, x: nat, y: nat, k: nat)
    requires Fits(t0, width, height) && x < width && y < height && k < 4
    requires Contains(Cell(t0, width, height, x, y), ALL[k])
    ensures Queued(Predicted(t0, width, height)[Target(x, y, k, width, height)], ALL[k])
  {
    PredictedMeaning(t0, width, height, Target(x, y, k, width, height), k);
  }

  /** The tiles after `n` of them, in row-major order, have been updated. */
  function UpdatedBefore(t: seq<Tile>, n: nat): (r: seq<Tile>)
    ensures |r| == |t|
  {
    seq(|t|, i requires 0 <= i < |t| => if i < n then Update(t[i]) else t[i])
  }

  // ---------------------------------------------------------------------
  // Moves

  /**
   * The positions `find_moves` pushes, in order: the position itself, the
   * cell to the left and the cell above when not at an edge, and the cell to
   * the right and the cell below when inside the bounds cut to a `u8`.
   */
  function Pushed(p: Position, maxX: nat, maxY: nat): seq<Position>
    requires p.x < U8_MAX && p.y < U8_MAX
  {
    var right := p.x + 1;
    var down := p.y + 1;
    [p]
      + (if p.x > 0 then [Position(p.x - 1, p.y)] else [])
      + (if p.y > 0 then [Position(p.x, p.y - 1)] else [])
      + (if right < maxX % 256 then [Position(right, p.y)] else [])
      + (if down < maxY % 256 then [Position(p.x, down)] else [])
  }

  /**
   * `Position::find_moves` with the `Moves` iterator: the pushed positions,
   * yielded last pushed first; `x + 1` or `y + 1` past 255 panics.
   */
  function FindMoves(p: Position, maxX: nat, maxY: nat): Result<seq<Position>>
  {
    if p.x + 1 > U8_MAX || p.y + 1 > U8_MAX then Err(ADD_OVERFLOW)
    else Ok(Reverse(Pushed(p, maxX, maxY)))
  }

  /** `q` is `p` or one step from it, and a step right or down stays inside the bounds cut to a `u8`. */
  predicate Allowed(p: Position, q: Position, maxX: nat, maxY: nat)
  {
    || q == p
    || (q.y == p.y && q.x + 1 == p.x)
    || (q.x == p.x && q.y + 1 == p.y)
    || (q.y == p.y && q.x == p.x + 1 && q.x < maxX % 256)
    || (q.x == p.x && q.y == p.y + 1 && q.y < maxY % 256)
  }

  /** The pushed positions are at most five, the position itself first, and exactly the allowed ones. */
  lemma PushedMeaning(p: Position, maxX: nat, maxY: nat)
    requires p.x < U8_MAX && p.y < U8_MAX
    ensures 1 <= |Pushed(p, maxX, maxY)| <= 5 && Pushed(p, maxX, maxY)[0] == p
    ensures forall q :: q in Pushed(p, maxX, maxY) <==> Allowed(p, q, maxX, maxY)
  {
  }

  /** A sequence reversed holds the same elements. */
  lemma ReverseElements<T>(s: seq<T>)
    ensures forall q :: q in Reverse(s) <==> q in s
  {
    forall q
      ensures q in Reverse(s) <==> q in s
    {
      if q in Reverse(s) {
        var i :| 0 <= i < |s| && Reverse(s)[i] == q;
        assert s[|s| - 1 - i] == q;
      }
      if q in s {
        var i :| 0 <= i < |s| && s[i] == q;
        assert Reverse(s)[|s| - 1 - i] == q;
      }
    }
  }

  /**
   * The moves exist unless a coordinate is 255; there are at most five, the
   * position itself comes last, and the moves are exactly the allowed ones.
   */
  lemma FindMovesMeaning(p: Position, maxX: nat, maxY: nat)
    ensures FindMoves(p, maxX, maxY).Ok? <==> p.x < U8_MAX && p.y < U8_MAX
    ensures FindMoves(p, maxX, maxY).Ok? ==>
      var moves := FindMoves(p, maxX, maxY).value;
      && 1 <= |moves| <= 5
      && moves[|moves| - 1] == p
      && (forall q :: q in moves <==> Allowed(p, q, maxX, maxY))
  {
    if p.x < U8_MAX && p.y < U8_MAX {
      PushedMeaning(p, maxX, maxY);
      ReverseElements(Pushed(p, maxX, maxY));
    }
  }

  /** A position within the valley's bounds cut to a `u8`, the only positions the search visits. */
  predicate InValley(p: Position, width: nat, height: nat)
  {
    p.x < width % 256 && p.y < height % 256
  }

  /** From a position within those bounds the moves exist and stay within them. */
  lemma MovesStayInValley(p: Position, width: nat, height: nat)
    requires InValley(p, width, height)
    ensures FindMoves(p, width, height).Ok?
    ensures forall q | q in FindMoves(p, width, height).value :: InValley(q, width, height)
  {
    FindMovesMeaning(p, width, height);
  }

  // ---------------------------------------------------------------------
  // The valley over time, and the routes through it

  /**
   * The tiles as `find_path` holds them at minute `k`: predicted once, then
   * simulated and predicted again each minute. A tile holds the blizzards of
   * minute `k` and those due at minute `k + 1`.
   */
  ghost function Timeline(t: seq<Tile>, width: nat, height: nat, k: nat): (r: seq<Tile>)
    requires Fits(t, width, height)
    ensures |r| == |t|
  {
    if k == 0 then Predicted(t, width, height)
    else Predicted(Simulated(Timeline(t, width, height, k - 1)), width, height)
  }

  /** Cell `p` is free of blizzards at minute `m`: the tiles of minute `m - 1` have nothing due there. */
  ghost predicate Free(t: seq<Tile>, width: nat, height: nat, p: Position, m: nat)
    requires Fits(t, width, height) && InValley(p, width, height) && m >= 1
  {
    WillBeEmpty(Cell(Timeline(t, width, height, m - 1), width, height, p.x, p.y))
  }

  /** A cell is free at a minute exactly when the tiles of that minute hold no blizzard there. */
  lemma FreeMeaning(t: seq<Tile>, width: nat, height: nat, p: Position, m: nat)
    requires Fits(t, width, height) && InValley(p, width, height) && m >= 1
    ensures Free(t, width, height, p, m) <==>
      forall k: nat | k < 4 :: !Contains(Cell(Timeline(t, width, height, m), width, height, p.x, p.y), ALL[k])
  {
    var before := Timeline(t, width, height, m - 1);
    var simulated := Simulated(before);
    IndexInside(p.x, p.y, width, height);
    var i := Index(p.x, p.y, width);
    SimulatedMeaning(before);
    WillBeEmptyMeaning(before[i]);
    forall k: nat | k < 4
      ensures Contains(Timeline(t, width, height, m)[i], ALL[k]) <==> Queued(before[i], ALL[k])
    {
      PredictedMeaning(simulated, width, height, i, k);
      ContainsCurrent(Timeline(t, width, height, m)[i], simulated[i], k);
    }
  }

  /** Each cell of a route entered at minute `start` lies in the valley and is free at its minute. */
  ghost predicate FreeAlong(t: seq<Tile>, width: nat, height: nat, start: nat, route: seq<Position>)
    requires Fits(t, width, height) && start >= 1
  {
    forall j | 0 <= j < |route| :: InValley(route[j], width, height) && Free(t, width, height, route[j], start + j)
  }

  /** Each cell of a route is one of the moves from the cell before. */
  ghost predicate Linked(route: seq<Position>, width: nat, height: nat)
  {
    forall j | 0 <= j < |route| - 1 ::
      FindMoves(route[j], width, height).Ok? && route[j + 1] in FindMoves(route[j], width, height).value
  }

  /**
   * A route entering the valley at minute `start`: it begins at the first
   * cell, each cell is free at its minute, and each cell is one of the moves
   * from the cell before.
   */
  ghost predicate ValidRoute(t: seq<Tile>, width: nat, height: nat, start: nat, route: seq<Position>)
    requires Fits(t, width, height)
  {
    && start >= 1 && |route| >= 1 && route[0] == START
    && FreeAlong(t, width, height, start, route)
    && Linked(route, width, height)
  }

  /** A cell free at the minute after a route's last one extends the cells free along it. */
  lemma FreeAlongExtend(t: seq<Tile>, width: nat, height: nat, start: nat, route: seq<Position>, q: Position)
    requires Fits(t, width, height) && start >= 1 && FreeAlong(t, width, height, start, route)
    requires InValley(q, width, height) && Free(t, width, height, q, start + |route|)
    ensures FreeAlong(t, width, height, start, route + [q])
  {
    var r := route + [q];
    forall j | 0 <= j < |r|
      ensures InValley(r[j], width, height) && Free(t, width, height, r[j], start + j)
    {
      if j < |route| {
        assert r[j] == route[j];
      } else {
        assert r[j] == q && start + j == start + |route|;
      }
    }
  }

  /** A move from a route's last cell extends the links along it. */
  lemma LinkedExtend(route: seq<Position>, width: nat, height: nat, q: Position)
    requires |route| >= 1 && Linked(route, width, height)
    requires FindMoves(route[|route| - 1], width, height).Ok? && q in FindMoves(route[|route| - 1], width, height).value
    ensures Linked(route + [q], width, height)
  {
    var r := route + [q];
    forall j | 0 <= j < |r| - 1
      ensures FindMoves(r[j], width, height).Ok? && r[j + 1] in FindMoves(r[j], width, height).value
    {
      assert r[j] == route[j];
      if j < |route| - 1 {
        assert r[j + 1] == route[j + 1];
      } else {
        assert r[j + 1] == q;
      }
    }
  }

  /** A move to a cell free at the next minute extends a route. */
  lemma RouteExtend(t: seq<Tile>, width: nat, height: nat, start: nat, route: seq<Position>, q: Position)
    requires Fits(t, width, height) && ValidRoute(t, width, height, start, route)
    requires FindMoves(route[|route| - 1], width, height).Ok? && q in FindMoves(route[|route| - 1], width, height).value
    requires InValley(q, width, height) && Free(t, width, height, q, start + |route|)
    ensures ValidRoute(t, width, height, start, route + [q])
  {
    FreeAlongExtend(t, width, height, start, route, q);
    LinkedExtend(route, width, height, q);
  }

  // ---------------------------------------------------------------------
  // The valley as the program keeps it

  /** `Valley`: its inner width and height and its tiles, row by row, rewritten in place. */
  class Valley {
    const width: nat
    const height: nat
    const tiles: array<Tile>

    /** The tiles form a `width` by `height` grid of a size a `Vec` can hold. */
    ghost predicate Valid()
      reads this
    {
      width <= ISIZE_MAX && height <= ISIZE_MAX && tiles.Length == width * height
    }

    constructor (width: nat, height: nat, tiles: array<Tile>)
      ensures this.width == width && this.height == height && this.tiles == tiles
    {
      this.width := width;
      this.height := height;
      this.tiles := tiles;
    }

    /** `Valley::get`: the tile at a position; an index past the tiles panics. */
    function Get(p: Position): (r: Tile)
      reads this, tiles
      requires Valid() && p.x < width && p.y < height
      ensures r == Cell(tiles[..], width, height, p.x, p.y)
    {
      IndexInside(p.x, p.y, width, height);
      tiles[Index(p.x, p.y, width)]
    }

    /** `Valley::exit`: the last cell, with each dimension cut to a `u8` before the `u8` subtraction. */
    function Exit(): (r: Result<Position>)
      reads this
      ensures r.Ok? <==> width % 256 > 0 && height % 256 > 0
      ensures r.Ok? ==> r.value.x + 1 == width % 256 && r.value.y + 1 == height % 256
    {
      if width % 256 == 0 || height % 256 == 0 then Err(SUB_OVERFLOW)
      else Ok(Position(width % 256 - 1, height % 256 - 1))
    }

    /** `Valley::predict`: every blizzard is queued in the cell it moves to next. */
    method Predict()
      requires Valid()
      modifies tiles
      ensures tiles[..] == Predicted(old(tiles[..]), width, height)
    {
      ghost var t0 := tiles[..];
      PredictingStart(t0, width, height);
      var y := 0;
      while y < height
        invariant y <= height
        invariant Predicting(t0, tiles[..], width, height, y, 0, 0)
      {
        var x := 0;
        while x < width
          invariant x <= width
          invariant Predicting(t0, tiles[..], width, height, y, x, 0)
        {
          PredictTile(t0, x, y);
          x := x + 1;
        }
        NextRow(t0, tiles[..], width, height, y);
        y := y + 1;
      }
      PredictingDone(t0, tiles[..], width, height);
    }

    /** The body of `predict`'s inner loop: the blizzards of one cell queued at their targets. */
    method PredictTile(ghost t0: seq<Tile>, x: nat, y: nat)
      requires Fits(t0, width, height) && x < width && y < height
      requires Predicting(t0, tiles[..], width, height, y, x, 0)
      modifies tiles
      ensures Predicting(t0, tiles[..], width, height, y, x + 1, 0)
    {
      IndexInside(x, y, width, height);
      var tile := tiles[x + y * width];
      CellCurrent(t0, tiles[..], width, height, x, y);
      for k := 0 to 4
        invariant Predicting(t0, tiles[..], width, height, y, x, k)
      {
        ghost var before := tiles[..];
        PredictingStep(t0, before, width, height, y, x, k, tile);
        var blizzard := ALL[k];
        if !Contains(tile, blizzard) {
          continue;
        }
        var tx := AddCoordinate(x, blizzard.dx, width);
        var ty := AddCoordinate(y, blizzard.dy, height);
        IndexInside(tx, ty, width, height);
        tiles[tx + ty * width] := Enqueue(tiles[tx + ty * width], blizzard);
        assert tiles[..] == PredictOne(before, width, height, x, y, tile, k);
      }
      NextCell(t0, tiles[..], width, height, y, x);
    }

    /** `Valley::simulate`: every tile updated, row by row. */
    method Simulate()
      requires Valid()
      modifies tiles
      ensures tiles[..] == Simulated(old(tiles[..]))
    {
      ghost var t0 := tiles[..];
      var y := 0;
      while y < height
        invariant y <= height
        invariant tiles[..] == UpdatedBefore(t0, Index(0, y, width))
      {
        var x := 0;
        while x < width
          invariant x <= width
          invariant tiles[..] == UpdatedBefore(t0, Index(x, y, width))
        {
          IndexInside(x, y, width, height);
          tiles[x + y * width] := Update(tiles[x + y * width]);
          x := x + 1;
        }
        assert Index(width, y, width) == Index(0, y + 1, width);
        y := y + 1;
      }
      assert Index(0, height, width) == |t0|;
    }
  }

  // ---------------------------------------------------------------------
  // The search

  /** The values of a `u16`. */
  type U16 = x: int | 0 <= x <= 0xFFFF

  /** `State`: an expedition at a position at a minute. */
  datatype State = State(minute: U16, position: Position)

  /** The number of cells not yet marked. */
  function CountFalse(s: seq<bool>): (n: nat)
    ensures n <= |s|
  {
    if s == [] then 0 else (if s[0] then 0 else 1) + CountFalse(s[1..])
  }

  /** Marking an unmarked cell leaves one fewer unmarked. */
  lemma {:induction false} CountFalseMark(s: seq<bool>, i: nat)
    requires i < |s| && !s[i]
    ensures CountFalse(s[i := true]) + 1 == CountFalse(s)
  {
    if i > 0 {
      assert s[i := true][1..] == s[1..][i - 1 := true];
      CountFalseMark(s[1..], i - 1);
    }
  }

  /** The index of a position in the tiles and in the marks. */
  function PositionIndex(p: Position, width: nat): nat
  {
    Index(p.x, p.y, width)
  }

  /** A position the search visits has an index inside the tiles. */
  lemma InValleyIndex(p: Position, width: nat, height: nat)
    requires InValley(p, width, height)
    ensures p.x < width && p.y < height && PositionIndex(p, width) < width * height
  {
    IndexInside(p.x, p.y, width, height);
  }

  /** The expedition of `state` got there along `route`, entering the valley at minute `start`. */
  ghost predicate Reached(t: seq<Tile>, width: nat, height: nat, start: nat, state: State, route: seq<Position>)
    requires Fits(t, width, height)
  {
    ValidRoute(t, width, height, start, route) && route[|route| - 1] == state.position && start + |route| == state.minute + 1
  }

  /**
   * The queue of the search: its first `j0` states are at the current
   * minute, the rest one minute later, and each was reached along its route.
   */
  ghost predicate Frontier(t: seq<Tile>, width: nat, height: nat, start: nat, minute: nat, queue: seq<State>, routes: seq<seq<Position>>, j0: nat)
    requires Fits(t, width, height)
  {
    && |routes| == |queue| && j0 <= |queue|
    && (forall j | 0 <= j < |queue| :: queue[j].minute == if j < j0 then minute else minute + 1)
    && (forall j | 0 <= j < |queue| :: Reached(t, width, height, start, queue[j], routes[j]))
  }

  /** The search starts with the first cell alone, reached by the one-cell route at the minute after `minute`. */
  lemma FrontierStart(t: seq<Tile>, width: nat, height: nat, minute: nat)
    requires Fits(t, width, height) && InValley(START, width, height) && minute + 1 <= 0xFFFF
    requires Free(t, width, height, START, minute + 1)
    ensures Frontier(t, width, height, minute + 1, minute, [State(minute + 1, START)], [[START]], 0)
  {
    assert FreeAlong(t, width, height, minute + 1, [START]);
  }

  /**
   * The states of the next minute are at distinct positions, each marked in
   * `next_positions`: a position is queued at most once per minute.
   */
  ghost predicate Marked(next: seq<bool>, width: nat, height: nat, queue: seq<State>, j0: nat)
    requires j0 <= |queue|
  {
    && (forall j | j0 <= j < |queue| ::
          InValley(queue[j].position, width, height) && PositionIndex(queue[j].position, width) < |next| && next[PositionIndex(queue[j].position, width)])
    && (forall a, b | j0 <= a < b < |queue| :: queue[a].position != queue[b].position)
  }

  /** A cell whose tile has nothing due at minute `m` is free at minute `m + 1`. */
  lemma FreeNext(t: seq<Tile>, width: nat, height: nat, m: nat, q: Position)
    requires Fits(t, width, height) && InValley(q, width, height)
    requires PositionIndex(q, width) < |t| && WillBeEmpty(Timeline(t, width, height, m)[PositionIndex(q, width)])
    ensures Free(t, width, height, q, m + 1)
  {
  }

  /** Queuing an unmarked position for the next minute, and marking it, keeps the marks. */
  lemma Push(next: seq<bool>, width: nat, height: nat, queue: seq<State>, j0: nat, s: State)
    requires j0 <= |queue| && Marked(next, width, height, queue, j0)
    requires InValley(s.position, width, height) && PositionIndex(s.position, width) < |next| && !next[PositionIndex(s.position, width)]
    ensures Marked(next[PositionIndex(s.position, width) := true], width, height, queue + [s], j0)
  {
  }

  /** Queuing a state reached at the next minute keeps the queue a frontier. */
  lemma FrontierPush(t: seq<Tile>, width: nat, height: nat, start: nat, minute: nat, queue: seq<State>, routes: seq<seq<Position>>, j0: nat,
                     s: State, route: seq<Position>)
    requires Fits(t, width, height) && Frontier(t, width, height, start, minute, queue, routes, j0)
    requires s.minute == minute + 1 && Reached(t, width, height, start, s, route)
    ensures Frontier(t, width, height, start, minute, queue + [s], routes + [route], j0)
  {
    var q, rs := queue + [s], routes + [route];
    forall j | 0 <= j < |q|
      ensures q[j].minute == (if j < j0 then minute else minute + 1)
      ensures Reached(t, width, height, start, q[j], rs[j])
    {
      if j < |queue| {
        assert q[j] == queue[j] && rs[j] == routes[j];
      }
    }
  }

  /**
   * Queuing a move to a cell free at the next minute, not yet marked, keeps
   * the queue a frontier and the marks exact, and uses up one unmarked cell.
   */
  lemma PushStep(t: seq<Tile>, width: nat, height: nat, start: nat, tiles: seq<Tile>, state: State, route: seq<Position>, q: Position,
                 queue: seq<State>, routes: seq<seq<Position>>, j0: nat, next: seq<bool>)
    requires Fits(t, width, height) && tiles == Timeline(t, width, height, state.minute)
    requires Reached(t, width, height, start, state, route) && state.minute + 1 <= 0xFFFF
    requires FindMoves(state.position, width, height).Ok? && q in FindMoves(state.position, width, height).value
    requires InValley(q, width, height) && PositionIndex(q, width) < |tiles| && WillBeEmpty(tiles[PositionIndex(q, width)])
    requires Frontier(t, width, height, start, state.minute, queue, routes, j0)
    requires Marked(next, width, height, queue, j0) && PositionIndex(q, width) < |next| && !next[PositionIndex(q, width)]
    ensures Frontier(t, width, height, start, state.minute, queue + [State(state.minute + 1, q)], routes + [route + [q]], j0)
    ensures Marked(next[PositionIndex(q, width) := true], width, height, queue + [State(state.minute + 1, q)], j0)
    ensures CountFalse(next[PositionIndex(q, width) := true]) + 1 == CountFalse(next)
  {
    FreeNext(t, width, height, state.minute, q);
    RouteExtend(t, width, height, start, route, q);
    FrontierPush(t, width, height, start, state.minute, queue, routes, j0, State(state.minute + 1, q), route + [q]);
    CountFalseMark(next, PositionIndex(q, width));
    Push(next, width, height, queue, j0, State(state.minute + 1, q));
  }

  /** `next_positions.fill(false)`. */
  method Clear(next: array<bool>)
    modifies next
    ensures forall i | 0 <= i < next.Length :: !next[i]
  {
    for i := 0 to next.Length
      invariant forall j | 0 <= j < i :: !next[j]
    {
      next[i] := false;
    }
  }

  /** The valley moved on a minute, and the marks cleared. */
  method Advance(valley: Valley, next: array<bool>, ghost t: seq<Tile>, ghost minute: nat)
    requires valley.Valid() && Fits(t, valley.width, valley.height)
    requires next as object != valley.tiles as object
    requires valley.tiles[..] == Timeline(t, valley.width, valley.height, minute)
    modifies valley.tiles, next
    ensures valley.tiles[..] == Timeline(t, valley.width, valley.height, minute + 1)
    ensures forall i | 0 <= i < next.Length :: !next[i]
  {
    Tick(valley, t, minute);
    Clear(next);
  }

  /** `valley.simulate(); valley.predict();`: the tiles of the next minute. */
  method Tick(valley: Valley, ghost t: seq<Tile>, ghost minute: nat)
    requires valley.Valid() && Fits(t, valley.width, valley.height)
    requires valley.tiles[..] == Timeline(t, valley.width, valley.height, minute)
    modifies valley.tiles
    ensures valley.tiles[..] == Timeline(t, valley.width, valley.height, minute + 1)
  {
    valley.Simulate();
    valley.Predict();
    assert valley.tiles[..] == Predicted(Simulated(Timeline(t, valley.width, valley.height, minute)), valley.width, valley.height);
  }

  /**
   * The `for` loop of `find_path`: every move of `state` to a cell free at
   * the next minute and not yet marked is queued for the next minute and
   * marked; a minute past 65535 panics.
   */
  method Explore(valley: Valley, next: array<bool>, ghost t: seq<Tile>, ghost start: nat, state: State, ghost route: seq<Position>,
                 queue: seq<State>, ghost routes: seq<seq<Position>>, ghost j0: nat)
      returns (r: Result<()>, queue': seq<State>, ghost routes': seq<seq<Position>>)
    requires valley.Valid() && Fits(t, valley.width, valley.height) && next.Length == valley.width * valley.height
    requires next as object != valley.tiles as object
    requires valley.tiles[..] == Timeline(t, valley.width, valley.height, state.minute)
    requires Reached(t, valley.width, valley.height, start, state, route)
    requires InValley(state.position, valley.width, valley.height)
    requires Frontier(t, valley.width, valley.height, start, state.minute, queue, routes, j0)
    requires Marked(next[..], valley.width, valley.height, queue, j0)
    modifies next
    ensures r.Ok? ==> Frontier(t, valley.width, valley.height, start, state.minute, queue', routes', j0)
    ensures r.Ok? ==> Marked(next[..], valley.width, valley.height, queue', j0)
    ensures r.Ok? ==> 2 * CountFalse(next[..]) + |queue'| <= 2 * CountFalse(old(next[..])) + |queue|
    ensures r.Err? ==> r.message == ADD_OVERFLOW
  {
    var width, height := valley.width, valley.height;
    MovesStayInValley(state.position, width, height);
    var moves := FindMoves(state.position, width, height).value;
    queue', routes' := queue, routes;
    var n := 0;
    while n < |moves|
      invariant n <= |moves|
      invariant valley.tiles[..] == Timeline(t, width, height, state.minute)
      invariant Frontier(t, width, height, start, state.minute, queue', routes', j0)
      invariant Marked(next[..], width, height, queue', j0)
      invariant 2 * CountFalse(next[..]) + |queue'| <= 2 * CountFalse(old(next[..])) + |queue|
    {
      var q := moves[n];
      InValleyIndex(q, width, height);
      var index := q.x + q.y * width;
      if WillBeEmpty(valley.tiles[index]) && !next[index] {
        if state.minute + 1 > 0xFFFF {
          return Err(ADD_OVERFLOW), queue', routes';
        }
        PushStep(t, width, height, start, valley.tiles[..], state, route, q, queue', routes', j0, next[..]);
        queue' := queue' + [State(state.minute + 1, q)];
        routes' := routes' + [route + [q]];
        next[index] := true;
      }
      n := n + 1;
    }
    r := Ok(());
  }

  /**
   * Taking the first state off the queue: it is at the current minute while
   * states of that minute remain, and one minute later otherwise, when the
   * rest are all of the next minute.
   */
  lemma FrontierPop(t: seq<Tile>, width: nat, height: nat, start: nat, minute: nat, queue: seq<State>, routes: seq<seq<Position>>, j0: nat)
    requires Fits(t, width, height) && Frontier(t, width, height, start, minute, queue, routes, j0) && |queue| > 0
    ensures Reached(t, width, height, start, queue[0], routes[0])
    ensures queue[0].minute == if j0 > 0 then minute else minute + 1
    ensures j0 > 0 ==> Frontier(t, width, height, start, minute, queue[1..], routes[1..], j0 - 1)
    ensures j0 == 0 ==> Frontier(t, width, height, start, minute + 1, queue[1..], routes[1..], |queue| - 1)
  {
    forall j | 0 <= j < |queue| - 1
      ensures queue[1..][j] == queue[j + 1] && routes[1..][j] == routes[j + 1]
    {
    }
  }

  /** Taking a state of the current minute off the queue keeps the marks. */
  lemma MarkedPop(next: seq<bool>, width: nat, height: nat, queue: seq<State>, j0: nat)
    requires 0 < j0 <= |queue| && Marked(next, width, height, queue, j0)
    ensures Marked(next, width, height, queue[1..], j0 - 1)
  {
    forall j | j0 - 1 <= j < |queue| - 1
      ensures queue[1..][j] == queue[j + 1]
    {
    }
  }

  /**
   * `find_path`: wait at the entrance until the first cell will be free,
   * then search breadth first, a minute at a time, for the exit; the answer
   * is the minute of reaching the exit plus the one to step out. Every
   * answer comes with the route that achieves it.
   */
  method FindPath(valley: Valley) returns (r: Result<nat>, ghost start: nat, ghost route: seq<Position>)
    requires valley.Valid()
    modifies valley.tiles
    ensures valley.Exit().Err? ==> r == Err(SUB_OVERFLOW)
    ensures r.Ok? ==>
      && valley.Exit().Ok?
      && ValidRoute(old(valley.tiles[..]), valley.width, valley.height, start, route)
      && route[|route| - 1] == valley.Exit().value
      && r.value == start + |route|
    ensures r.Ok? ==> forall m: nat | 1 <= m < start :: !Free(old(valley.tiles[..]), valley.width, valley.height, START, m)
    ensures r.Err? ==> r.message == SUB_OVERFLOW || r.message == ADD_OVERFLOW || r.message == UNREACHABLE
  {
    ghost var t := valley.tiles[..];
    var exitResult := valley.Exit();
    if exitResult.Err? {
      return Err(SUB_OVERFLOW), 0, [];
    }
    var waited := WaitForStart(valley);
    if waited.Err? {
      return Err(waited.message), 0, [];
    }
    var minute := waited.value;
    if minute + 1 > 0xFFFF {
      return Err(ADD_OVERFLOW), 0, [];
    }
    r, start, route := Search(valley, t, exitResult.value, minute);
  }

  /** The first cell, busy at each minute up to `minute` and with a blizzard due at the next, is busy up to that one too. */
  lemma BusyUpTo(t: seq<Tile>, width: nat, height: nat, minute: nat)
    requires Fits(t, width, height) && InValley(START, width, height)
    requires forall m: nat | 1 <= m <= minute :: !Free(t, width, height, START, m)
    requires !WillBeEmpty(Cell(Timeline(t, width, height, minute), width, height, START.x, START.y))
    ensures forall m: nat | 1 <= m <= minute + 1 :: !Free(t, width, height, START, m)
  {
  }

  /**
   * The first half of `find_path`: predict, then let the minutes pass while
   * the first cell will not be free; the minute is a `u16`.
   */
  method WaitForStart(valley: Valley) returns (r: Result<nat>)
    requires valley.Valid() && InValley(START, valley.width, valley.height)
    modifies valley.tiles
    ensures r.Ok? ==> r.value <= 0xFFFF && valley.tiles[..] == Timeline(old(valley.tiles[..]), valley.width, valley.height, r.value)
    ensures r.Ok? ==> Free(old(valley.tiles[..]), valley.width, valley.height, START, r.value + 1)
    ensures r.Ok? ==> forall m: nat | 1 <= m <= r.value :: !Free(old(valley.tiles[..]), valley.width, valley.height, START, m)
    ensures r.Err? ==> r.message == ADD_OVERFLOW
  {
    ghost var t := valley.tiles[..];
    var minute: nat := 0;
    valley.Predict();
    assert valley.tiles[..] == Timeline(t, valley.width, valley.height, 0);
    InValleyIndex(START, valley.width, valley.height);
    while !WillBeEmpty(valley.Get(START))
      invariant valley.tiles[..] == Timeline(t, valley.width, valley.height, minute) && minute <= 0xFFFF
      invariant forall m: nat | 1 <= m <= minute :: !Free(t, valley.width, valley.height, START, m)
      decreases 0xFFFF - minute
    {
      BusyUpTo(t, valley.width, valley.height, minute);
      Tick(valley, t, minute);
      if minute + 1 > 0xFFFF {
        return Err(ADD_OVERFLOW);
      }
      minute := minute + 1;
    }
    FreeNext(t, valley.width, valley.height, minute, START);
    r := Ok(minute);
  }

  /**
   * The second half of `find_path`: the breadth-first search from the first
   * cell, entered at the minute after `minute`, to `exit`; an empty queue is
   * unreachable.
   */
  method Search(valley: Valley, ghost t: seq<Tile>, exit: Position, minute: nat) returns (r: Result<nat>, ghost start: nat, ghost route: seq<Position>)
    requires valley.Valid() && Fits(t, valley.width, valley.height) && minute + 1 <= 0xFFFF
    requires valley.tiles[..] == Timeline(t, valley.width, valley.height, minute)
    requires InValley(START, valley.width, valley.height) && Free(t, valley.width, valley.height, START, minute + 1)
    modifies valley.tiles
    ensures r.Ok? ==> ValidRoute(t, valley.width, valley.height, start, route) && route[|route| - 1] == exit && r.value == start + |route|
    ensures r.Ok? ==> start == minute + 1
    ensures r.Err? ==> r.message == ADD_OVERFLOW || r.message == UNREACHABLE
  {
    var width, height := valley.width, valley.height;
    var minute := minute;
    start := minute + 1;
    var queue := [State(minute + 1, START)];
    var next := new bool[width * height](_ => false);
    ghost var routes := [[START]];
    ghost var j0: nat := 0;
    ghost var started := false;
    FrontierStart(t, width, height, minute);
    while queue != []
      invariant valley.tiles[..] == Timeline(t, width, height, minute) && minute <= 0xFFFF
      invariant next.Length == width * height && next as object != valley.tiles as object
      invariant Frontier(t, width, height, start, minute, queue, routes, j0)
      invariant started ==> Marked(next[..], width, height, queue, j0)
      invariant !started ==> minute + 1 <= 0xFFFF && queue == [State(minute + 1, START)] && j0 == 0
      decreases 0xFFFF - minute, 2 * CountFalse(next[..]) + |queue|
    {
      FrontierPop(t, width, height, start, minute, queue, routes, j0);
      if started && j0 > 0 {
        MarkedPop(next[..], width, height, queue, j0);
      }
      var state := queue[0];
      queue := queue[1..];
      ghost var path := routes[0];
      routes := routes[1..];
      if state.position == exit {
        return Ok(state.minute + 1), start, path;
      }
      if state.minute > minute {
        Advance(valley, next, t, minute);
        minute := state.minute;
        j0 := |queue|;
        started := true;
      } else {
        j0 := j0 - 1;
      }
      var explored;
      explored, queue, routes := Explore(valley, next, t, start, state, path, queue, routes, j0);
      if explored.Err? {
        return Err(explored.message), 0, [];
      }
    }
    return Err(UNREACHABLE), 0, [];
  }

  // ---------------------------------------------------------------------
  // Reading the valley

  /** The bytes of one row mapped by `Tile::new`, in order; the first byte that is not a tile is unreachable. */
  function ParseTiles(bytes: string): (r: Result<seq<Tile>>)
    ensures r.Ok? <==> forall i | 0 <= i < |bytes| :: NewTile(bytes[i]).Ok?
    ensures r.Ok? ==> |r.value| == |bytes| && forall i | 0 <= i < |bytes| :: r.value[i] == NewTile(bytes[i]).value
    ensures r.Err? ==> r.message == UNREACHABLE
  {
    if bytes == [] then Ok([])
    else
      var first := NewTile(bytes[0]);
      if first.Err? then Err(first.message)
      else
        var rest := ParseTiles(bytes[1..]);
        if rest.Err? then rest
        else
          assert forall i | 1 <= i < |bytes| :: bytes[i] == bytes[1..][i - 1];
          Ok([first.value] + rest.value)
  }

  /** A row holds a wall byte, `width` tile bytes, and possibly more. */
  predicate RowFits(row: string, width: nat)
  {
    |row| >= width + 1 && forall i | 1 <= i <= width :: NewTile(row[i]).Ok?
  }

  /**
   * The `flat_map` of `Valley::new`: row after row, the bytes `1..=width`
   * mapped by `Tile::new`; a row shorter than `width + 1` bytes panics when
   * it is sliced, before any of its bytes is mapped.
   */
  function ParseRows(rows: seq<string>, width: nat): (r: Result<seq<Tile>>)
    ensures r.Ok? <==> forall y | 0 <= y < |rows| :: RowFits(rows[y], width)
    ensures r.Ok? ==> |r.value| == |rows| * width
    ensures r.Err? ==> r.message == SLICE_END || r.message == UNREACHABLE
  {
    if rows == [] then Ok([])
    else if |rows[0]| < width + 1 then Err(SLICE_END)
    else
      var row := ParseTiles(rows[0][1..width + 1]);
      if row.Err? then row
      else
        var rest := ParseRows(rows[1..], width);
        assert forall y | 1 <= y < |rows| :: rows[y] == rows[1..][y - 1];
        assert RowFits(rows[0], width) by {
          forall i | 1 <= i <= width
            ensures NewTile(rows[0][i]).Ok?
          {
            assert rows[0][i] == rows[0][1..width + 1][i - 1];
          }
        }
        if rest.Err? then rest
        else Ok(row.value + rest.value)
  }

  /** Tile `(x, y)` of the rows read is the byte `x + 1` of row `y`. */
  lemma {:induction false} ParseRowsCells(rows: seq<string>, width: nat, x: nat, y: nat)
    requires ParseRows(rows, width).Ok? && x < width && y < |rows|
    ensures Index(x, y, width) < |ParseRows(rows, width).value|
    ensures ParseRows(rows, width).value[Index(x, y, width)] == NewTile(rows[y][x + 1]).value
  {
    var row := ParseTiles(rows[0][1..width + 1]);
    var rest := ParseRows(rows[1..], width);
    assert row.Ok? && rest.Ok? && ParseRows(rows, width).value == row.value + rest.value;
    if y == 0 {
      assert rows[0][1..width + 1][x] == rows[0][x + 1];
    } else {
      assert rows[1..][y - 1] == rows[y];
      ParseRowsCells(rows[1..], width, x, y - 1);
      RowStep(x, y, width);
    }
  }

  /** The index one row further down is `width` further on. */
  lemma RowStep(x: nat, y: nat, width: nat)
    requires y > 0
    ensures Index(x, y, width) == width + Index(x, y - 1, width)
  {
    calc {
      Index(x, y, width);
      x + y * width;
      { assert y * width == (y - 1) * width + width; }
      width + Index(x, y - 1, width);
    }
  }

  /** The width, height and tiles `Valley::new` computes. */
  datatype Layout = Layout(width: nat, height: nat, tiles: seq<Tile>)

  /**
   * `Valley::new`: the first line without its two wall bytes gives the
   * width, the lines without the two wall lines give the height, and the
   * lines in between give the tiles. An empty input is indexed out of
   * bounds; a first line or an input shorter than 2 underflows.
   */
  function ParseLayout(input: seq<string>): (r: Result<Layout>)
    ensures |input| == 0 ==> r == Err(OUT_OF_BOUNDS)
    ensures |input| > 0 && (|input[0]| < 2 || |input| < 2) ==> r == Err(SUB_OVERFLOW)
    ensures |input| >= 2 && |input[0]| >= 2 ==>
      (r.Ok? <==> forall y | 1 <= y < |input| - 1 :: RowFits(input[y], |input[0]| - 2))
    ensures r.Ok? ==>
      && r.value.width + 2 == |input[0]| && r.value.height + 2 == |input|
      && |r.value.tiles| == r.value.width * r.value.height
    ensures r.Err? ==> r.message in {OUT_OF_BOUNDS, SUB_OVERFLOW, SLICE_END, UNREACHABLE}
  {
    if |input| == 0 then Err(OUT_OF_BOUNDS)
    else if |input[0]| < 2 || |input| < 2 then Err(SUB_OVERFLOW)
    else
      var width := |input[0]| - 2;
      var height := |input| - 2;
      var rows := input[1..height + 1];
      assert forall y | 1 <= y < |input| - 1 :: input[y] == rows[y - 1];
      var tiles := ParseRows(rows, width);
      if tiles.Err? then Err(tiles.message)
      else Ok(Layout(width, height, tiles.value))
  }

  /** Tile `(x, y)` of the valley read is the byte `x + 1` of line `y + 1`. */
  lemma ParseLayoutCells(input: seq<string>, x: nat, y: nat)
    requires ParseLayout(input).Ok?
    requires x < ParseLayout(input).value.width && y < ParseLayout(input).value.height
    ensures Index(x, y, ParseLayout(input).value.width) < |ParseLayout(input).value.tiles|
    ensures ParseLayout(input).value.tiles[Index(x, y, ParseLayout(input).value.width)] == NewTile(input[y + 1][x + 1]).value
  {
    var width := |input[0]| - 2;
    var rows := input[1..|input| - 1];
    assert rows[y] == input[y + 1];
    ParseRowsCells(rows, width, x, y);
  }

  /** `Valley::new`, with the tiles collected into a fresh buffer. */
  method NewValley(input: seq<string>) returns (r: Result<Valley>)
    requires |input| <= ISIZE_MAX && (|input| > 0 ==> |input[0]| <= ISIZE_MAX)
    ensures ParseLayout(input).Err? ==> r == Err(ParseLayout(input).message)
    ensures ParseLayout(input).Ok? ==>
      && r.Ok? && fresh(r.value) && fresh(r.value.tiles) && r.value.Valid()
      && r.value.width == ParseLayout(input).value.width && r.value.height == ParseLayout(input).value.height
      && r.value.tiles[..] == ParseLayout(input).value.tiles
  {
    var layout := ParseLayout(input);
    if layout.Err? {
      return Err(layout.message);
    }
    var l := layout.value;
    var tiles := new Tile[|l.tiles|](i requires 0 <= i < |l.tiles| => l.tiles[i]);
    var valley := new Valley(l.width, l.height, tiles);
    r := Ok(valley);
  }

  /**
   * `part_a`: read the valley and find the path through it. Every answer is
   * the entry minute plus the length of a route through the valley as read
   * that ends at the exit.
   */
  method PartA(input: seq<string>) returns (r: Result<nat>)
    requires |input| <= ISIZE_MAX && (|input| > 0 ==> |input[0]| <= ISIZE_MAX)
    ensures ParseLayout(input).Err? ==> r == Err(ParseLayout(input).message)
    ensures r.Ok? ==>
      var l := ParseLayout(input).value;
      && ParseLayout(input).Ok? && Fits(l.tiles, l.width, l.height)
      && exists start: nat, route: seq<Position> ::
           && ValidRoute(l.tiles, l.width, l.height, start, route)
           && route[|route| - 1] == Position(l.width % 256 - 1, l.height % 256 - 1)
           && r.value == start + |route|
           && forall m: nat | 1 <= m < start :: !Free(l.tiles, l.width, l.height, START, m)
  {
    var valley := NewValley(input);
    if valley.Err? {
      return Err(valley.message);
    }
    ghost var start: nat, route: seq<Position>;
    r, start, route := FindPath(valley.value);
  }
}
