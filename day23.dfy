/**
 * Day 23: elves spreading out over a padded grid. In each round every elf
 * with a neighbour proposes a step in the first direction, from a list that
 * rotates between rounds, whose three cells are free; in a second pass an
 * elf steps when it was the only one to propose its cell. The answer is the
 * empty ground in the elves' bounding box after ten rounds.
 */
module Day23 {
  import opened Common

  /** Free rows and columns put around the input on every side. */
  const PADDING: nat := 10

  /** `u8::MAX`: the grid value of a cell that holds an elf. */
  const ELF: nat := 255

  const OUT_OF_BOUNDS: string := "index out of bounds"
  const EMPTY_INPUT: string := "index out of bounds: the len is 0 but the index is 0"
  const SUB_OVERFLOW: string := "attempt to subtract with overflow"
  const ADD_OVERFLOW: string := "attempt to add with overflow"

  /** The values of a `u8`. */
  type U8 = x: int | 0 <= x < 256

  // ---------------------------------------------------------------------
  // Positions

  /** A step as an `(i8, i8)` pair; `y` grows southwards. */
  datatype Offset = Offset(dx: int, dy: int)

  predicate IsI8Offset(o: Offset)
  {
    -128 <= o.dx < 128 && -128 <= o.dy < 128
  }

  /** `DIRECTIONS`: the eight neighbours, clockwise from north. */
  const DIRECTIONS: seq<Offset> := [
    Offset(0, -1), Offset(1, -1), Offset(1, 0), Offset(1, 1),
    Offset(0, 1), Offset(-1, 1), Offset(-1, 0), Offset(-1, -1)
  ]

  /** An index into `DIRECTIONS`. */
  type Dir = d: nat | d < 8

  /**
   * A `[usize; 3]` of `MOVES`: three neighbours that must be free, the
   * middle one being the step taken.
   */
  datatype Look = Look(left: Dir, step: Dir, right: Dir)

  /** `MOVES`: the triples for north, south, west and east. */
  const MOVES: seq<Look> := [Look(7, 0, 1), Look(3, 4, 5), Look(5, 6, 7), Look(1, 2, 3)]

  /** `Position`: two `u8` coordinates. */
  datatype Position = Position(x: U8, y: U8)

  /** `u8::wrapping_add_signed` of a value already added: the sum modulo 256 (see `WrapModulo`). */
  function WrapU8(v: int): U8
    requires -256 <= v < 512
  {
    if v < 0 then v + 256 else if v < 256 then v else v - 256
  }

  lemma WrapModulo(v: int)
    requires -256 <= v < 512
    ensures WrapU8(v) == v % 256
  {
  }

  /** `Position + (i8, i8)`: each coordinate moved, wrapping around 256. */
  function Add(p: Position, o: Offset): Position
    requires IsI8Offset(o)
  {
    Position(WrapU8(p.x + o.dx), WrapU8(p.y + o.dy))
  }

  /** Adding an offset adds it to each coordinate modulo 256, as `wrapping_add_signed` does. */
  lemma AddModulo(p: Position, o: Offset)
    requires IsI8Offset(o)
    ensures Add(p, o).x == (p.x + o.dx) % 256 && Add(p, o).y == (p.y + o.dy) % 256
  {
    WrapModulo(p.x + o.dx);
    WrapModulo(p.y + o.dy);
  }

  /** Wrapping makes every step undoable: the opposite offset leads back. */
  lemma AddInverse(p: Position, o: Offset)
    requires IsI8Offset(o) && -128 < o.dx && -128 < o.dy
    ensures Add(Add(p, o), Offset(-o.dx, -o.dy)) == p
  {
  }

  /** `Position::index`: the cell of `p` in a grid `width` cells wide. */
  function Index(p: Position, width: nat): nat
  {
    p.x + p.y * width
  }

  /** The eight neighbours of `p`, in the order of `DIRECTIONS`. */
  function Neighbors(p: Position): (ns: seq<Position>)
    ensures |ns| == 8
  {
    [Add(p, DIRECTIONS[0]), Add(p, DIRECTIONS[1]), Add(p, DIRECTIONS[2]), Add(p, DIRECTIONS[3]),
     Add(p, DIRECTIONS[4]), Add(p, DIRECTIONS[5]), Add(p, DIRECTIONS[6]), Add(p, DIRECTIONS[7])]
  }

  // ---------------------------------------------------------------------
  // Proposals

  /** Cell `p` is inside the grid and holds no elf. */
  predicate Free(grid: seq<U8>, width: nat, p: Position)
  {
    Index(p, width) < |grid| && grid[Index(p, width)] != ELF
  }

  /** Cell `p` is inside the grid and holds an elf. */
  predicate Taken(grid: seq<U8>, width: nat, p: Position)
  {
    Index(p, width) < |grid| && grid[Index(p, width)] == ELF
  }

  /**
   * `cells.all(|p| grid[p.index(width)] != u8::MAX)`: it stops at the first
   * cell holding an elf; a cell past the end of the grid before that panics.
   */
  function AllFree(grid: seq<U8>, width: nat, cells: seq<Position>): Result<bool>
    decreases |cells|
  {
    if cells == [] then Ok(true)
    else
      var c := Index(cells[0], width);
      if c >= |grid| then Err(OUT_OF_BOUNDS)
      else if grid[c] == ELF then Ok(false)
      else AllFree(grid, width, cells[1..])
  }

  /** The check succeeds exactly when every cell is free, and fails only at a cell holding an elf. */
  lemma {:induction false} AllFreeMeaning(grid: seq<U8>, width: nat, cells: seq<Position>)
    ensures AllFree(grid, width, cells) == Ok(true) <==> forall i | 0 <= i < |cells| :: Free(grid, width, cells[i])
    ensures AllFree(grid, width, cells) == Ok(false) ==> exists i | 0 <= i < |cells| :: Taken(grid, width, cells[i])
    decreases |cells|
  {
    if cells != [] {
      AllFreeMeaning(grid, width, cells[1..]);
      assert forall i | 1 <= i < |cells| :: cells[i] == cells[1..][i - 1];
      if AllFree(grid, width, cells[1..]) == Ok(false) {
        var i :| 0 <= i < |cells[1..]| && Taken(grid, width, cells[1..][i]);
        assert Taken(grid, width, cells[i + 1]);
      }
    }
  }

  /** The three neighbours a direction triple names. */
  function Triple(ns: seq<Position>, t: Look): seq<Position>
    requires |ns| == 8
  {
    [ns[t.left], ns[t.step], ns[t.right]]
  }

  /** Some cell of the triple `t` holds an elf. */
  predicate Blocked(grid: seq<U8>, width: nat, ns: seq<Position>, t: Look)
    requires |ns| == 8
  {
    exists i | 0 <= i < 3 :: Taken(grid, width, Triple(ns, t)[i])
  }

  /**
   * `moves.iter().find(..)`: the index of the first triple, from `from` on,
   * whose three cells are free.
   */
  function FirstFreeTriple(grid: seq<U8>, width: nat, ns: seq<Position>, moves: seq<Look>, from: nat): (r: Result<Option<nat>>)
    requires |ns| == 8 && from <= |moves|
    ensures r.Ok? && r.value.Some? ==> from <= r.value.value < |moves|
    decreases |moves| - from
  {
    if from == |moves| then Ok(None)
    else match AllFree(grid, width, Triple(ns, moves[from]))
      case Err(e) => Err(e)
      case Ok(true) => Ok(Some(from))
      case Ok(false) => FirstFreeTriple(grid, width, ns, moves, from + 1)
  }

  /** The triple found is free and every triple before it has a cell holding an elf; none found means none is free. */
  lemma {:induction false} FirstFreeTripleMeaning(grid: seq<U8>, width: nat, ns: seq<Position>, moves: seq<Look>, from: nat)
    requires |ns| == 8 && from <= |moves|
    ensures var r := FirstFreeTriple(grid, width, ns, moves, from);
      r.Ok? && r.value.Some? ==> AllFree(grid, width, Triple(ns, moves[r.value.value])) == Ok(true)
    ensures var r := FirstFreeTriple(grid, width, ns, moves, from);
      r.Ok? && r.value.Some? ==> forall j | from <= j < r.value.value :: AllFree(grid, width, Triple(ns, moves[j])) == Ok(false)
    ensures FirstFreeTriple(grid, width, ns, moves, from) == Ok(None) ==>
      forall j | from <= j < |moves| :: AllFree(grid, width, Triple(ns, moves[j])) == Ok(false)
    decreases |moves| - from
  {
    if from < |moves| && AllFree(grid, width, Triple(ns, moves[from])) == Ok(false) {
      FirstFreeTripleMeaning(grid, width, ns, moves, from + 1);
    }
  }

  /**
   * The cell an elf at `p` proposes: none when all eight neighbours are
   * free, otherwise the middle cell of the first free triple, if any.
   */
  function Proposal(grid: seq<U8>, width: nat, p: Position, moves: seq<Look>): (r: Result<Option<Position>>)
    ensures r.Ok? && r.value.Some? ==> Free(grid, width, r.value.value)
  {
    var ns := Neighbors(p);
    match AllFree(grid, width, ns)
    case Err(e) => Err(e)
    case Ok(true) => Ok(None)
    case Ok(false) =>
      match FirstFreeTriple(grid, width, ns, moves, 0)
      case Err(e) => Err(e)
      case Ok(None) => Ok(None)
      case Ok(Some(k)) =>
        FirstFreeTripleMeaning(grid, width, ns, moves, 0);
        AllFreeMeaning(grid, width, Triple(ns, moves[k]));
        Ok(Some(ns[moves[k].step]))
  }

  /** An elf whose eight neighbours are all free proposes nothing. */
  lemma ProposalAlone(grid: seq<U8>, width: nat, p: Position, moves: seq<Look>)
    requires forall i | 0 <= i < 8 :: Free(grid, width, Neighbors(p)[i])
    ensures Proposal(grid, width, p, moves) == Ok(None)
  {
    AllFreeMeaning(grid, width, Neighbors(p));
  }

  /**
   * A proposal is the step of the first triple in `moves` whose three
   * cells are free, made only by an elf with an elf among its neighbours.
   */
  lemma ProposalTriple(grid: seq<U8>, width: nat, p: Position, moves: seq<Look>) returns (k: nat)
    requires Proposal(grid, width, p, moves).Ok? && Proposal(grid, width, p, moves).value.Some?
    ensures exists i | 0 <= i < 8 :: Taken(grid, width, Neighbors(p)[i])
    ensures k < |moves| && Proposal(grid, width, p, moves).value.value == Neighbors(p)[moves[k].step]
    ensures forall i | 0 <= i < 3 :: Free(grid, width, Triple(Neighbors(p), moves[k])[i])
    ensures forall j | 0 <= j < k :: Blocked(grid, width, Neighbors(p), moves[j])
  {
    var ns := Neighbors(p);
    AllFreeMeaning(grid, width, ns);
    FirstFreeTripleMeaning(grid, width, ns, moves, 0);
    k := FirstFreeTriple(grid, width, ns, moves, 0).value.value;
    AllFreeMeaning(grid, width, Triple(ns, moves[k]));
    forall j | 0 <= j < k
      ensures Blocked(grid, width, ns, moves[j])
    {
      AllFreeMeaning(grid, width, Triple(ns, moves[j]));
    }
  }

  // ---------------------------------------------------------------------
  // A round

  /** `Elf`: where an elf stands and the cell it last proposed. */
  datatype Elf = Elf(current: Position, next: Position)

  /** The elves and the grid of cell values: 0 free, `ELF` taken, other values proposal counters. */
  datatype Grove = Grove(elves: seq<Elf>, grid: seq<U8>)

  /**
   * The first pass of `simulate` for elf `i`: a proposed cell's counter goes
   * up by one and becomes the elf's next position. An elf that proposes
   * nothing keeps the next position it had.
   */
  function ProposeStep(s: Grove, width: nat, moves: seq<Look>, i: nat): (r: Result<Grove>)
    requires i < |s.elves|
    ensures r.Ok? ==> |r.value.elves| == |s.elves| && |r.value.grid| == |s.grid|
  {
    var e := s.elves[i];
    match Proposal(s.grid, width, e.current, moves)
    case Err(m) => Err(m)
    case Ok(None) => Ok(s)
    case Ok(Some(q)) =>
      var c := Index(q, width);
      Ok(Grove(s.elves[i := Elf(e.current, q)], s.grid[c := s.grid[c] + 1]))
  }

  /** The first pass over elves `0 .. k`. */
  function Proposals(s: Grove, width: nat, moves: seq<Look>, k: nat): (r: Result<Grove>)
    requires k <= |s.elves|
    ensures r.Ok? ==> |r.value.elves| == |s.elves| && |r.value.grid| == |s.grid|
  {
    if k == 0 then Ok(s)
    else match Proposals(s, width, moves, k - 1)
      case Err(m) => Err(m)
      case Ok(t) => ProposeStep(t, width, moves, k - 1)
  }

  /**
   * The second pass of `simulate` for elf `i`: the elf steps to its next
   * position when that cell's counter is exactly 1, freeing its old cell
   * and taking the new one; a counter above 1 is cleared.
   */
  function MoveStep(s: Grove, width: nat, i: nat): (r: Result<Grove>)
    requires i < |s.elves|
    ensures r.Ok? ==> |r.value.elves| == |s.elves| && |r.value.grid| == |s.grid|
  {
    var e := s.elves[i];
    var t := Index(e.next, width);
    if t >= |s.grid| then Err(OUT_OF_BOUNDS)
    else if s.grid[t] == 1 then
      var c := Index(e.current, width);
      if c >= |s.grid| then Err(OUT_OF_BOUNDS)
      else Ok(Grove(s.elves[i := Elf(e.next, e.next)], s.grid[c := 0][t := ELF]))
    else if s.grid[t] > 1 && s.grid[t] != ELF then Ok(Grove(s.elves, s.grid[t := 0]))
    else Ok(s)
  }

  /** The second pass over elves `0 .. k`. */
  function Moves(s: Grove, width: nat, k: nat): (r: Result<Grove>)
    requires k <= |s.elves|
    ensures r.Ok? ==> |r.value.elves| == |s.elves| && |r.value.grid| == |s.grid|
  {
    if k == 0 then Ok(s)
    else match Moves(s, width, k - 1)
      case Err(m) => Err(m)
      case Ok(t) => MoveStep(t, width, k - 1)
  }

  /** `simulate`: both passes over all the elves. */
  function Round(s: Grove, width: nat, moves: seq<Look>): (r: Result<Grove>)
    ensures r.Ok? ==> |r.value.elves| == |s.elves| && |r.value.grid| == |s.grid|
  {
    match Proposals(s, width, moves, |s.elves|)
    case Err(m) => Err(m)
    case Ok(t) => Moves(t, width, |t.elves|)
  }

  // ---------------------------------------------------------------------
  // The grid is settled between rounds

  /** Every cell is free or holds an elf: no proposal counter is left over. */
  predicate Settled(grid: seq<U8>)
  {
    forall c | 0 <= c < |grid| :: grid[c] == 0 || grid[c] == ELF
  }

  /** Every cell holding a counter is the next position of some elf in `lo .. hi`. */
  predicate Claimed(s: Grove, width: nat, lo: nat, hi: nat)
  {
    forall c | 0 <= c < |s.grid| && s.grid[c] != 0 && s.grid[c] != ELF ::
      exists j | lo <= j < hi && j < |s.elves| :: Index(s.elves[j].next, width) == c
  }

  /** A proposal changes only the proposing elf, and the counter it raises is claimed by that elf. */
  lemma ProposeStepClaimed(s: Grove, width: nat, moves: seq<Look>, k: nat)
    requires k < |s.elves| && Claimed(s, width, 0, k)
    requires ProposeStep(s, width, moves, k).Ok?
    ensures Claimed(ProposeStep(s, width, moves, k).value, width, 0, k + 1)
    ensures forall j | 0 <= j < |s.elves| && j != k :: ProposeStep(s, width, moves, k).value.elves[j] == s.elves[j]
  {
    var t := ProposeStep(s, width, moves, k).value;
    var e := s.elves[k];
    match Proposal(s.grid, width, e.current, moves)
    case Ok(None) =>
    case Ok(Some(q)) =>
      var c0 := Index(q, width);
      forall c | 0 <= c < |t.grid| && t.grid[c] != 0 && t.grid[c] != ELF
        ensures exists j | 0 <= j < k + 1 && j < |t.elves| :: Index(t.elves[j].next, width) == c
      {
        if c == c0 {
          assert Index(t.elves[k].next, width) == c;
        } else {
          var j :| 0 <= j < k && j < |s.elves| && Index(s.elves[j].next, width) == c;
          assert t.elves[j] == s.elves[j];
        }
      }
  }

  /** The first pass ends with every counter claimed by an elf of the pass. */
  lemma {:induction false} ProposalsClaimed(s: Grove, width: nat, moves: seq<Look>, k: nat)
    requires k <= |s.elves| && Settled(s.grid)
    requires Proposals(s, width, moves, k).Ok?
    ensures Claimed(Proposals(s, width, moves, k).value, width, 0, k)
  {
    if k > 0 {
      var t := Proposals(s, width, moves, k - 1).value;
      ProposalsClaimed(s, width, moves, k - 1);
      ProposeStepClaimed(t, width, moves, k - 1);
    }
  }

  /**
   * A move settles the mover's own target cell, writes only 0 and `ELF`,
   * and changes no elf's next position.
   */
  lemma MoveStepClaimed(s: Grove, width: nat, k: nat)
    requires k < |s.elves| && Claimed(s, width, k, |s.elves|)
    requires MoveStep(s, width, k).Ok?
    ensures Claimed(MoveStep(s, width, k).value, width, k + 1, |s.elves|)
    ensures forall j | 0 <= j < |s.elves| :: MoveStep(s, width, k).value.elves[j].next == s.elves[j].next
  {
    var t := MoveStep(s, width, k).value;
    var target := Index(s.elves[k].next, width);
    forall j | 0 <= j < |s.elves|
      ensures t.elves[j].next == s.elves[j].next
    {
    }
    forall c | 0 <= c < |t.grid| && t.grid[c] != 0 && t.grid[c] != ELF
      ensures exists j | k + 1 <= j < |s.elves| && j < |t.elves| :: Index(t.elves[j].next, width) == c
    {
      assert c != target && t.grid[c] == s.grid[c];
      var j :| k <= j < |s.elves| && j < |s.elves| && Index(s.elves[j].next, width) == c;
      assert j != k;
      assert Index(t.elves[j].next, width) == c;
    }
  }

  /** The second pass over elves `0 .. k` leaves counters only at the targets of elves `k ..`. */
  lemma {:induction false} MovesClaimed(s: Grove, width: nat, k: nat)
    requires k <= |s.elves| && Claimed(s, width, 0, |s.elves|)
    requires Moves(s, width, k).Ok?
    ensures Claimed(Moves(s, width, k).value, width, k, |s.elves|)
  {
    if k > 0 {
      var t := Moves(s, width, k - 1).value;
      MovesClaimed(s, width, k - 1);
      MoveStepClaimed(t, width, k - 1);
    }
  }

  /** A round that starts with a settled grid ends with one: every counter is resolved. */
  lemma RoundSettled(s: Grove, width: nat, moves: seq<Look>)
    requires Settled(s.grid) && Round(s, width, moves).Ok?
    ensures Settled(Round(s, width, moves).value.grid)
  {
    var t := Proposals(s, width, moves, |s.elves|).value;
    ProposalsClaimed(s, width, moves, |s.elves|);
    MovesClaimed(t, width, |t.elves|);
  }

  // ---------------------------------------------------------------------
  // Elves move at most one cell per round

  /** An elf's next position is where it stands or one of its eight neighbours. */
  predicate Adjacent(e: Elf)
  {
    e.next == e.current || e.next in Neighbors(e.current)
  }

  predicate AllAdjacent(elves: seq<Elf>)
  {
    forall i | 0 <= i < |elves| :: Adjacent(elves[i])
  }

  /** One proposal moves nobody and proposes a neighbouring cell. */
  lemma ProposeStepAdjacent(s: Grove, width: nat, moves: seq<Look>, k: nat)
    requires k < |s.elves| && AllAdjacent(s.elves)
    requires ProposeStep(s, width, moves, k).Ok?
    ensures AllAdjacent(ProposeStep(s, width, moves, k).value.elves)
    ensures forall i | 0 <= i < |s.elves| :: ProposeStep(s, width, moves, k).value.elves[i].current == s.elves[i].current
  {
    var e := s.elves[k];
    match Proposal(s.grid, width, e.current, moves)
    case Ok(None) =>
    case Ok(Some(q)) =>
      var m := ProposalTriple(s.grid, width, e.current, moves);
      assert Adjacent(Elf(e.current, q));
  }

  /** The first pass moves nobody and proposes only neighbouring cells. */
  lemma {:induction false} ProposalsAdjacent(s: Grove, width: nat, moves: seq<Look>, k: nat)
    requires k <= |s.elves| && AllAdjacent(s.elves)
    requires Proposals(s, width, moves, k).Ok?
    ensures AllAdjacent(Proposals(s, width, moves, k).value.elves)
    ensures forall i | 0 <= i < |s.elves| :: Proposals(s, width, moves, k).value.elves[i].current == s.elves[i].current
  {
    if k > 0 {
      ProposalsAdjacent(s, width, moves, k - 1);
      ProposeStepAdjacent(Proposals(s, width, moves, k - 1).value, width, moves, k - 1);
    }
  }

  /**
   * The second pass changes no elf's next position, and every elf ends on
   * the cell it stood on or on its next position.
   */
  lemma {:induction false} MovesOntoNext(s: Grove, width: nat, k: nat)
    requires k <= |s.elves| && Moves(s, width, k).Ok?
    ensures forall i | 0 <= i < |s.elves| :: Moves(s, width, k).value.elves[i].next == s.elves[i].next
    ensures forall i | 0 <= i < |s.elves| ::
      Moves(s, width, k).value.elves[i].current in {s.elves[i].current, s.elves[i].next}
  {
    if k > 0 {
      MovesOntoNext(s, width, k - 1);
    }
  }

  /**
   * A round keeps every next position adjacent, and each elf ends it where
   * it stood or on one of its eight neighbours.
   */
  lemma RoundStepsOne(s: Grove, width: nat, moves: seq<Look>)
    requires AllAdjacent(s.elves) && Round(s, width, moves).Ok?
    ensures AllAdjacent(Round(s, width, moves).value.elves)
    ensures forall i | 0 <= i < |s.elves| :: var c := Round(s, width, moves).value.elves[i].current;
      c == s.elves[i].current || c in Neighbors(s.elves[i].current)
  {
    var t := Proposals(s, width, moves, |s.elves|).value;
    var u := Round(s, width, moves).value;
    ProposalsAdjacent(s, width, moves, |s.elves|);
    MovesOntoNext(t, width, |t.elves|);
    forall i | 0 <= i < |u.elves|
      ensures Adjacent(u.elves[i])
    {
      assert Adjacent(t.elves[i]);
    }
  }

  // ---------------------------------------------------------------------
  // Ten rounds with rotating directions

  /** `moves.rotate_left(1)`: the first direction triple goes last. */
  function RotateLeft(moves: seq<Look>): (r: seq<Look>)
    requires |moves| > 0
    ensures |r| == |moves|
  {
    moves[1..] + [moves[0]]
  }

  /** `moves` rotated left `n` times. */
  function Rotated(moves: seq<Look>, n: nat): (r: seq<Look>)
    requires |moves| > 0
    ensures |r| == |moves|
    decreases n
  {
    if n == 0 then moves else Rotated(RotateLeft(moves), n - 1)
  }

  /** After `n` rotations of four triples, triple `i` is the original triple `(i + n) % 4`. */
  lemma {:induction false} RotatedIndex(moves: seq<Look>, n: nat, i: nat)
    requires |moves| == 4 && i < 4
    ensures Rotated(moves, n)[i] == moves[(i + n) % 4]
    decreases n
  {
    if n > 0 {
      var j := (i + n - 1) % 4;
      RotatedIndex(RotateLeft(moves), n - 1, i);
      assert Rotated(moves, n)[i] == RotateLeft(moves)[j];
      assert (j + 1) % 4 == (i + n) % 4;
      if j < 3 {
        assert RotateLeft(moves)[j] == moves[j + 1];
      } else {
        assert RotateLeft(moves)[j] == moves[0];
      }
    }
  }

  /** Round `n` (from 0) tries first the direction `MOVES[n % 4]`, and every fourth round the order repeats. */
  lemma RoundDirections(n: nat)
    ensures Rotated(MOVES, n)[0] == MOVES[n % 4]
    ensures Rotated(MOVES, n + 4) == Rotated(MOVES, n)
  {
    RotatedIndex(MOVES, n, 0);
    forall i | 0 <= i < 4
      ensures Rotated(MOVES, n + 4)[i] == Rotated(MOVES, n)[i]
    {
      RotatedIndex(MOVES, n, i);
      RotatedIndex(MOVES, n + 4, i);
    }
  }

  /** `Rotated` one more time is one more rotation of the result. */
  lemma {:induction false} RotatedNext(moves: seq<Look>, n: nat)
    requires |moves| > 0
    ensures Rotated(moves, n + 1) == RotateLeft(Rotated(moves, n))
    decreases n
  {
    if n > 0 {
      RotatedNext(RotateLeft(moves), n - 1);
    }
  }

  /** The first `n` calls of `simulate` in `part_a`, round `k` using `MOVES` rotated `k` times. */
  function Simulation(s: Grove, width: nat, n: nat): (r: Result<Grove>)
    ensures r.Ok? ==> |r.value.elves| == |s.elves| && |r.value.grid| == |s.grid|
    decreases n
  {
    if n == 0 then Ok(s)
    else match Simulation(s, width, n - 1)
      case Err(m) => Err(m)
      case Ok(t) => Round(t, width, Rotated(MOVES, n - 1))
  }

  /** A panic in some round ends the simulation with that panic. */
  lemma {:induction false} SimulationSticky(s: Grove, width: nat, k: nat, n: nat, m: string)
    requires k <= n && Simulation(s, width, k) == Err(m)
    ensures Simulation(s, width, n) == Err(m)
    decreases n
  {
    if n > k {
      SimulationSticky(s, width, k, n - 1, m);
    }
  }

  /**
   * Between rounds the grid holds no counters and every elf's next
   * position is adjacent, so in each round each elf moves at most one cell.
   */
  lemma {:induction false} SimulationInvariant(s: Grove, width: nat, n: nat)
    requires Settled(s.grid) && AllAdjacent(s.elves) && Simulation(s, width, n).Ok?
    ensures Settled(Simulation(s, width, n).value.grid)
    ensures AllAdjacent(Simulation(s, width, n).value.elves)
    decreases n
  {
    if n > 0 {
      var t := Simulation(s, width, n - 1).value;
      SimulationInvariant(s, width, n - 1);
      RoundSettled(t, width, Rotated(MOVES, n - 1));
      RoundStepsOne(t, width, Rotated(MOVES, n - 1));
    }
  }

  // ---------------------------------------------------------------------
  // Score

  /** The `x` (when `horizontal`) or `y` coordinate of a position. */
  function Coord(p: Position, horizontal: bool): U8
  {
    if horizontal then p.x else p.y
  }

  /** The smallest coordinate of the elves' positions, starting from `u8::MAX`. */
  function Low(elves: seq<Elf>, horizontal: bool): U8
  {
    if |elves| == 0 then 255
    else
      var m := Low(elves[..|elves| - 1], horizontal);
      var v := Coord(elves[|elves| - 1].current, horizontal);
      if v < m then v else m
  }

  /** The largest coordinate of the elves' positions, starting from 0. */
  function High(elves: seq<Elf>, horizontal: bool): U8
  {
    if |elves| == 0 then 0
    else
      var m := High(elves[..|elves| - 1], horizontal);
      var v := Coord(elves[|elves| - 1].current, horizontal);
      if m < v then v else m
  }

  /**
   * `Low` and `High` are the least and the greatest coordinate among the
   * elves, or `u8::MAX` and 0 when there are none.
   */
  lemma {:induction false} BoundsMeaning(elves: seq<Elf>, horizontal: bool)
    ensures forall i | 0 <= i < |elves| :: Low(elves, horizontal) <= Coord(elves[i].current, horizontal) <= High(elves, horizontal)
    ensures |elves| > 0 ==> exists i | 0 <= i < |elves| :: Low(elves, horizontal) == Coord(elves[i].current, horizontal)
    ensures |elves| > 0 ==> exists i | 0 <= i < |elves| :: High(elves, horizontal) == Coord(elves[i].current, horizontal)
    ensures |elves| == 0 ==> Low(elves, horizontal) == 255 && High(elves, horizontal) == 0
  {
    if |elves| > 0 {
      var front := elves[..|elves| - 1];
      BoundsMeaning(front, horizontal);
      assert forall i | 0 <= i < |front| :: front[i] == elves[i];
    }
  }

  /** Extending the elves by one extends each bound by that elf's coordinate. */
  lemma BoundsStep(elves: seq<Elf>, i: nat)
    requires i < |elves|
    ensures Low(elves[..i + 1], true) == Min(Low(elves[..i], true), elves[i].current.x)
    ensures High(elves[..i + 1], true) == Max(High(elves[..i], true), elves[i].current.x)
    ensures Low(elves[..i + 1], false) == Min(Low(elves[..i], false), elves[i].current.y)
    ensures High(elves[..i + 1], false) == Max(High(elves[..i], false), elves[i].current.y)
  {
    assert elves[..i + 1][..i] == elves[..i];
  }

  /**
   * The `u8` side of the bounding box along one axis, `max - min + 1`:
   * the subtraction overflows when there are no elves, the addition when
   * the elves span all 256 values.
   */
  function Side(elves: seq<Elf>, horizontal: bool): (r: Result<nat>)
    ensures r.Ok? ==> 1 <= r.value <= 255
  {
    var lo := Low(elves, horizontal);
    var hi := High(elves, horizontal);
    if hi < lo then Err(SUB_OVERFLOW)
    else if hi - lo + 1 > 255 then Err(ADD_OVERFLOW)
    else Ok(hi - lo + 1)
  }

  /** `Map::score`: the cells of the bounding box not holding an elf, with the overflow panics of its arithmetic. */
  function ScoreOf(elves: seq<Elf>): Result<nat>
  {
    match Side(elves, true)
    case Err(m) => Err(m)
    case Ok(w) =>
      match Side(elves, false)
      case Err(m) => Err(m)
      case Ok(h) => if w * h < |elves| then Err(SUB_OVERFLOW) else Ok(w * h - |elves|)
  }

  /** Without elves the score panics: `0 - u8::MAX` overflows. */
  lemma ScoreEmpty()
    ensures ScoreOf([]) == Err(SUB_OVERFLOW)
  {
  }

  /**
   * A score is the bounding box of the elves, spanned from the lowest to the
   * highest coordinate each elf lies between, minus the elves.
   */
  lemma ScoreBox(elves: seq<Elf>) returns (lx: U8, hx: U8, ly: U8, hy: U8)
    requires ScoreOf(elves).Ok?
    ensures |elves| > 0
    ensures forall i | 0 <= i < |elves| :: lx <= elves[i].current.x <= hx && ly <= elves[i].current.y <= hy
    ensures exists i | 0 <= i < |elves| :: elves[i].current.x == lx
    ensures exists i | 0 <= i < |elves| :: elves[i].current.x == hx
    ensures exists i | 0 <= i < |elves| :: elves[i].current.y == ly
    ensures exists i | 0 <= i < |elves| :: elves[i].current.y == hy
    ensures ScoreOf(elves).value + |elves| == (hx - lx + 1) * (hy - ly + 1)
  {
    lx, hx := Low(elves, true), High(elves, true);
    ly, hy := Low(elves, false), High(elves, false);
    BoundsMeaning(elves, true);
    BoundsMeaning(elves, false);
    assert forall i | 0 <= i < |elves| :: lx <= elves[i].current.x <= hx && ly <= elves[i].current.y <= hy;
  }


  // ---------------------------------------------------------------------
  // Building the map

  /** `v as u8`: the value modulo 256. */
  function TruncU8(v: nat): U8
  {
    v % 256
  }

  /**
   * One `#` at column `x` of row `y`: a new elf standing on its padded
   * position, and its grid cell set to `ELF` (a panic past the grid's end).
   */
  function Place(g: Grove, width: nat, x: nat, y: nat): (r: Result<Grove>)
    ensures r.Ok? ==> |r.value.elves| == |g.elves| + 1 && |r.value.grid| == |g.grid|
  {
    var px := x + PADDING;
    var py := y + PADDING;
    var p := Position(TruncU8(px), TruncU8(py));
    if px + py * width >= |g.grid| then Err(OUT_OF_BOUNDS)
    else Ok(Grove(g.elves + [Elf(p, p)], g.grid[px + py * width := ELF]))
  }

  /** The inner loop of `Map::new` over row `y` from column `x` on. */
  function PlaceRow(g: Grove, width: nat, row: string, y: nat, x: nat): (r: Result<Grove>)
    requires x <= |row|
    decreases |row| - x
  {
    if x == |row| then Ok(g)
    else if row[x] == '#' then
      match Place(g, width, x, y)
      case Err(m) => Err(m)
      case Ok(h) => PlaceRow(h, width, row, y, x + 1)
    else PlaceRow(g, width, row, y, x + 1)
  }

  /** The outer loop of `Map::new` from row `y` on. */
  function PlaceRows(g: Grove, width: nat, rows: seq<string>, y: nat): (r: Result<Grove>)
    requires y <= |rows|
    decreases |rows| - y
  {
    if y == |rows| then Ok(g)
    else match PlaceRow(g, width, rows[y], y, 0)
      case Err(m) => Err(m)
      case Ok(h) => PlaceRows(h, width, rows, y + 1)
  }

  /** The padded width: the first row's length and `PADDING` on both sides. */
  function GridWidth(input: seq<string>): nat
    requires |input| > 0
  {
    |input[0]| + 2 * PADDING
  }

  /**
   * `Map::new`: an empty padded grid, then an elf for each `#`. The width
   * comes from the first row, so an empty input panics indexing it.
   */
  function Build(input: seq<string>): (r: Result<Grove>)
  {
    if |input| == 0 then Err(EMPTY_INPUT)
    else
      var width := GridWidth(input);
      var height := |input| + 2 * PADDING;
      PlaceRows(Grove([], seq(width * height, _ => 0)), width, input, 0)
  }

  /** The number of `#` in a row. */
  function Hashes(row: string): nat
  {
    if row == [] then 0 else (if row[0] == '#' then 1 else 0) + Hashes(row[1..])
  }

  /** The number of `#` in rows `y ..`. */
  function AllHashes(rows: seq<string>, y: nat): nat
    requires y <= |rows|
    decreases |rows| - y
  {
    if y == |rows| then 0 else Hashes(rows[y]) + AllHashes(rows, y + 1)
  }

  /** Elves that have not moved yet: each one's next position is its own cell. */
  predicate Placed(elves: seq<Elf>)
  {
    forall i | 0 <= i < |elves| :: elves[i].next == elves[i].current
  }

  /** Placing the rest of a row adds one elf per `#`, keeps the grid settled and the elves unmoved. */
  lemma {:induction false} PlaceRowInvariant(g: Grove, width: nat, row: string, y: nat, x: nat)
    requires x <= |row| && Settled(g.grid) && Placed(g.elves)
    requires PlaceRow(g, width, row, y, x).Ok?
    ensures |PlaceRow(g, width, row, y, x).value.elves| == |g.elves| + Hashes(row[x..])
    ensures Settled(PlaceRow(g, width, row, y, x).value.grid)
    ensures Placed(PlaceRow(g, width, row, y, x).value.elves)
    decreases |row| - x
  {
    if x < |row| {
      assert row[x..][1..] == row[x + 1..];
      if row[x] == '#' {
        var h := Place(g, width, x, y).value;
        assert forall i | 0 <= i < |h.elves| :: h.elves[i] == if i < |g.elves| then g.elves[i] else h.elves[|g.elves|];
        PlaceRowInvariant(h, width, row, y, x + 1);
      } else {
        PlaceRowInvariant(g, width, row, y, x + 1);
      }
    }
  }

  /** Placing rows `y ..` adds one elf per `#` and keeps the grid settled and the elves unmoved. */
  lemma {:induction false} PlaceRowsInvariant(g: Grove, width: nat, rows: seq<string>, y: nat)
    requires y <= |rows| && Settled(g.grid) && Placed(g.elves)
    requires PlaceRows(g, width, rows, y).Ok?
    ensures |PlaceRows(g, width, rows, y).value.elves| == |g.elves| + AllHashes(rows, y)
    ensures Settled(PlaceRows(g, width, rows, y).value.grid)
    ensures Placed(PlaceRows(g, width, rows, y).value.elves)
    decreases |rows| - y
  {
    if y < |rows| {
      assert rows[y][0..] == rows[y];
      PlaceRowInvariant(g, width, rows[y], y, 0);
      PlaceRowsInvariant(PlaceRow(g, width, rows[y], y, 0).value, width, rows, y + 1);
    }
  }

  /**
   * A built map has one elf per `#` of the input, each one's next position
   * its own cell, and a grid of free and taken cells only.
   */
  lemma BuildInvariant(input: seq<string>)
    requires Build(input).Ok?
    ensures |input| > 0
    ensures |Build(input).value.elves| == AllHashes(input, 0)
    ensures |Build(input).value.grid| == GridWidth(input) * (|input| + 2 * PADDING)
    ensures Settled(Build(input).value.grid) && Placed(Build(input).value.elves)
    ensures AllAdjacent(Build(input).value.elves)
  {
    var width := GridWidth(input);
    var g := Grove([], seq(width * (|input| + 2 * PADDING), _ => 0));
    PlaceRowsInvariant(g, width, input, 0);
    assert |PlaceRows(g, width, input, 0).value.grid| == |g.grid| by {
      PlaceRowsLength(g, width, input, 0);
    }
  }

  lemma {:induction false} PlaceRowLength(g: Grove, width: nat, row: string, y: nat, x: nat)
    requires x <= |row| && PlaceRow(g, width, row, y, x).Ok?
    ensures |PlaceRow(g, width, row, y, x).value.grid| == |g.grid|
    decreases |row| - x
  {
    if x < |row| {
      if row[x] == '#' {
        PlaceRowLength(Place(g, width, x, y).value, width, row, y, x + 1);
      } else {
        PlaceRowLength(g, width, row, y, x + 1);
      }
    }
  }

  lemma {:induction false} PlaceRowsLength(g: Grove, width: nat, rows: seq<string>, y: nat)
    requires y <= |rows| && PlaceRows(g, width, rows, y).Ok?
    ensures |PlaceRows(g, width, rows, y).value.grid| == |g.grid|
    decreases |rows| - y
  {
    if y < |rows| {
      PlaceRowLength(g, width, rows[y], y, 0);
      PlaceRowsLength(PlaceRow(g, width, rows[y], y, 0).value, width, rows, y + 1);
    }
  }

  /**
   * After the ten rounds of part A the elves are still one per `#` of the
   * input, and the grid holds only free and taken cells.
   */
  lemma AfterTenRounds(input: seq<string>)
    requires Build(input).Ok? && Simulation(Build(input).value, GridWidth(input), 10).Ok?
    ensures |Simulation(Build(input).value, GridWidth(input), 10).value.elves| == AllHashes(input, 0)
    ensures Settled(Simulation(Build(input).value, GridWidth(input), 10).value.grid)
  {
    BuildInvariant(input);
    SimulationInvariant(Build(input).value, GridWidth(input), 10);
  }

  /** The answer of part A: the score after ten rounds. */
  function Answer(input: seq<string>): Result<nat>
  {
    match Build(input)
    case Err(m) => Err(m)
    case Ok(g) =>
      match Simulation(g, GridWidth(input), 10)
      case Err(m) => Err(m)
      case Ok(h) => ScoreOf(h.elves)
  }

  /** The first pass over one more elf is one more proposal. */
  lemma ProposalsNext(s: Grove, width: nat, moves: seq<Look>, i: nat)
    requires i < |s.elves| && Proposals(s, width, moves, i).Ok?
    ensures Proposals(s, width, moves, i + 1) == ProposeStep(Proposals(s, width, moves, i).value, width, moves, i)
  {
  }

  /** An error in the first pass ends the round with that error. */
  lemma {:induction false} ProposalsSticky(s: Grove, width: nat, moves: seq<Look>, k: nat, n: nat, m: string)
    requires k <= n <= |s.elves| && Proposals(s, width, moves, k) == Err(m)
    ensures Proposals(s, width, moves, n) == Err(m)
    decreases n
  {
    if n > k {
      ProposalsSticky(s, width, moves, k, n - 1, m);
    }
  }

  /** An error in the second pass ends the round with that error. */
  lemma {:induction false} MovesSticky(s: Grove, width: nat, k: nat, n: nat, m: string)
    requires k <= n <= |s.elves| && Moves(s, width, k) == Err(m)
    ensures Moves(s, width, n) == Err(m)
    decreases n
  {
    if n > k {
      MovesSticky(s, width, k, n - 1, m);
    }
  }

  /** The rest of `Map::new` once row `y` has been placed up to where `r` stands. */
  function AfterRow(r: Result<Grove>, width: nat, rows: seq<string>, y: nat): Result<Grove>
    requires y < |rows|
  {
    match r
    case Err(m) => Err(m)
    case Ok(h) => PlaceRows(h, width, rows, y + 1)
  }

  // ---------------------------------------------------------------------
  // The map as the program keeps it

  /** `Map`: the grid width, the elves and the grid, updated in place by `simulate`. */
  class Map {
    const width: nat
    var elves: seq<Elf>
    const grid: array<U8>

    /** The elves and the grid's contents. */
    function State(): Grove
      reads this, grid
    {
      Grove(elves, grid[..])
    }

    constructor (width: nat, elves: seq<Elf>, grid: array<U8>)
      ensures this.width == width && this.elves == elves && this.grid == grid
    {
      this.width := width;
      this.elves := elves;
      this.grid := grid;
    }

    /** `Map::simulate`: one round, both passes in place; a panic ends it with the same error. */
    method Simulate(moves: seq<Look>) returns (r: Result<()>)
        modifies this, grid
      ensures r.Ok? ==> Round(old(State()), width, moves) == Ok(State())
      ensures r.Err? ==> Round(old(State()), width, moves) == Err(r.message)
    {
      r := ProposePass(moves);
      if r.Ok? {
        r := MovePass();
      }
    }

    /** The first loop of `simulate`: every elf with a neighbour proposes a cell. */
    method ProposePass(moves: seq<Look>) returns (r: Result<()>)
        modifies this, grid
      ensures r.Ok? ==> Proposals(old(State()), width, moves, |old(elves)|) == Ok(State())
      ensures r.Err? ==> Proposals(old(State()), width, moves, |old(elves)|) == Err(r.message)
    {
      ghost var start := State();
      var n := |elves|;
      var i := 0;
      while i < n
        invariant i <= n == |start.elves|
        invariant Proposals(start, width, moves, i) == Ok(State())
      {
        r := ProposeOne(moves, start, i);
        if r.Err? {
          ProposalsSticky(start, width, moves, i + 1, n, r.message);
          return;
        }
        i := i + 1;
      }
      return Ok(());
    }

    /**
     * One turn of the first loop: elf `i` proposes a cell, if it has a
     * neighbour and a free direction.
     */
    method ProposeOne(moves: seq<Look>, ghost start: Grove, i: nat) returns (r: Result<()>)
      requires i < |start.elves| && Proposals(start, width, moves, i) == Ok(State())
      modifies this, grid
      ensures r.Ok? ==> Proposals(start, width, moves, i + 1) == Ok(State())
      ensures r.Err? ==> Proposals(start, width, moves, i + 1) == Err(r.message)
    {
      ProposalsNext(start, width, moves, i);
      var e := elves[i];
      var p := Proposal(grid[..], width, e.current, moves);
      match p {
        case Err(m) =>
          return Err(m);
        case Ok(None) =>
        case Ok(Some(q)) =>
          var c := Index(q, width);
          grid[c] := grid[c] + 1;
          elves := elves[i := Elf(e.current, q)];
      }
      return Ok(());
    }

    /** The second loop of `simulate`: elves alone on their proposed cell step onto it. */
    method MovePass() returns (r: Result<()>)
      modifies this, grid
      ensures r.Ok? ==> Moves(old(State()), width, |old(elves)|) == Ok(State())
      ensures r.Err? ==> Moves(old(State()), width, |old(elves)|) == Err(r.message)
    {
      ghost var start := State();
      var i := 0;
      while i < |elves|
        invariant 0 <= i <= |elves| == |start.elves|
        invariant Moves(start, width, i) == Ok(State())
      {
        var e := elves[i];
        var t := Index(e.next, width);
        if t >= grid.Length {
          MovesSticky(start, width, i + 1, |start.elves|, OUT_OF_BOUNDS);
          return Err(OUT_OF_BOUNDS);
        }
        var count := grid[t];
        if count == 1 {
          var c := Index(e.current, width);
          if c >= grid.Length {
            MovesSticky(start, width, i + 1, |start.elves|, OUT_OF_BOUNDS);
            return Err(OUT_OF_BOUNDS);
          }
          grid[c] := 0;
          grid[t] := ELF;
          elves := elves[i := Elf(e.next, e.next)];
        } else if count > 1 && count != ELF {
          grid[t] := 0;
        }
        i := i + 1;
      }
      return Ok(());
    }

    /** `Map::score`: the bounding box from a single pass over the elves. */
    method Score() returns (r: Result<nat>)
      ensures r == ScoreOf(elves)
    {
      var minX: U8, maxX: U8, minY: U8, maxY: U8 := 255, 0, 255, 0;
      var i := 0;
      while i < |elves|
        invariant 0 <= i <= |elves|
        invariant minX == Low(elves[..i], true) && maxX == High(elves[..i], true)
        invariant minY == Low(elves[..i], false) && maxY == High(elves[..i], false)
      {
        BoundsStep(elves, i);
        var p := elves[i].current;
        if p.x < minX { minX := p.x; }
        if p.x > maxX { maxX := p.x; }
        if p.y < minY { minY := p.y; }
        if p.y > maxY { maxY := p.y; }
        i := i + 1;
      }
      assert elves[..i] == elves;
      if maxX < minX { return Err(SUB_OVERFLOW); }
      if maxX - minX + 1 > 255 { return Err(ADD_OVERFLOW); }
      if maxY < minY { return Err(SUB_OVERFLOW); }
      if maxY - minY + 1 > 255 { return Err(ADD_OVERFLOW); }
      var area := (maxX - minX + 1) * (maxY - minY + 1);
      if area < |elves| { return Err(SUB_OVERFLOW); }
      return Ok(area - |elves|);
    }
  }

  /** `Map::new`: the padded grid and an elf for each `#`, filled in row by row. */
  method NewMap(input: seq<string>) returns (r: Result<Map>)
    ensures r.Ok? ==> fresh(r.value) && fresh(r.value.grid)
    ensures r.Ok? ==> |input| > 0 && r.value.width == GridWidth(input) && Build(input) == Ok(r.value.State())
    ensures r.Err? ==> Build(input) == Err(r.message)
  {
    if |input| == 0 {
      return Err(EMPTY_INPUT);
    }
    var width := |input[0]| + 2 * PADDING;
    var height := |input| + 2 * PADDING;
    var grid := new U8[width * height](_ => 0);
    assert grid[..] == seq(width * height, _ => 0);
    var elves: seq<Elf> := [];
    var y := 0;
    while y < |input|
      invariant 0 <= y <= |input| && grid.Length == width * height
      invariant PlaceRows(Grove(elves, grid[..]), width, input, y) == Build(input)
    {
      var row := input[y];
      var x := 0;
      while x < |row|
        invariant 0 <= x <= |row| && grid.Length == width * height
        invariant AfterRow(PlaceRow(Grove(elves, grid[..]), width, row, y, x), width, input, y) == Build(input)
      {
        if row[x] == '#' {
          var px := x + PADDING;
          var py := y + PADDING;
          var p := Position(TruncU8(px), TruncU8(py));
          elves := elves + [Elf(p, p)];
          if px + py * width >= grid.Length {
            return Err(OUT_OF_BOUNDS);
          }
          grid[px + py * width] := ELF;
        }
        x := x + 1;
      }
      y := y + 1;
    }
    var m := new Map(width, elves, grid);
    return Ok(m);
  }

  /** Part A: ten rounds, rotating the directions after each, then the score. */
  method PartA(input: seq<string>) returns (r: Result<nat>)
    ensures r == Answer(input)
  {
    var built := NewMap(input);
    if built.Err? {
      return Err(built.message);
    }
    var grove := built.value;
    ghost var start := grove.State();
    var moves := MOVES;
    var i := 0;
    while i < 10
      invariant 0 <= i <= 10 && moves == Rotated(MOVES, i)
      invariant Simulation(start, grove.width, i) == Ok(grove.State())
    {
      var s := grove.Simulate(moves);
      if s.Err? {
        SimulationSticky(start, grove.width, i + 1, 10, s.message);
        return Err(s.message);
      }
      RotatedNext(MOVES, i);
      moves := RotateLeft(moves);
      i := i + 1;
    }
    r := grove.Score();
  }
}
