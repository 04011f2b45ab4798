/**
 * Day 9: a rope of knots on a grid. The head follows the moves "D n";
 * every other knot follows the one before it, and the answer is the
 * number of distinct positions the last knot visits. Part A uses 2
 * knots, part B 10.
 */
module Day09 {
  import opened Common

  const I16_MIN: int := -0x8000
  const I16_MAX: int := 0x7fff

  datatype Position = Position(x: int, y: int)

  const Origin: Position := Position(0, 0)

  datatype Direction = Up | Down | Left | Right

  // ---------------------------------------------------------------------
  // Geometry

  /** The larger of the two axis distances (the king-move distance). */
  function Chebyshev(a: Position, b: Position): nat
  {
    Max(Abs(a.x - b.x), Abs(a.y - b.y))
  }

  /** `abs_diff(...) > 1` on either axis: the two knots no longer touch. */
  predicate TooFar(previous: Position, current: Position)
  {
    Abs(previous.x - current.x) > 1 || Abs(previous.y - current.y) > 1
  }

  /** One unit step of the head. */
  function Step(p: Position, d: Direction): (r: Position)
    ensures Abs(r.x - p.x) + Abs(r.y - p.y) == 1
    ensures d == Up ==> r.y == p.y + 1
    ensures d == Down ==> r.y == p.y - 1
    ensures d == Left ==> r.x == p.x - 1
    ensures d == Right ==> r.x == p.x + 1
  {
    match d
    case Up => Position(p.x, p.y + 1)
    case Down => Position(p.x, p.y - 1)
    case Left => Position(p.x - 1, p.y)
    case Right => Position(p.x + 1, p.y)
  }

  /**
   * A knot's move towards the knot before it: only when they no longer
   * touch, and then one unit along each axis where they differ.
   */
  function Follow(previous: Position, current: Position): (r: Position)
    ensures r == current <==> !TooFar(previous, current)
    ensures Chebyshev(r, current) <= 1
    ensures Chebyshev(previous, current) <= 2 ==> Chebyshev(previous, r) <= 1
  {
    if TooFar(previous, current) then
      Position(current.x + Signum(previous.x - current.x), current.y + Signum(previous.y - current.y))
    else current
  }

  // ---------------------------------------------------------------------
  // One step of the rope

  /**
   * The knots after knots 1..i-1 have followed in turn, each after the
   * one before it has moved.
   */
  function Pulled(s: seq<Position>, i: nat): (r: seq<Position>)
    requires 1 <= i <= |s|
    ensures |r| == |s| && r[0] == s[0]
    ensures forall j | i <= j < |s| :: r[j] == s[j]
    decreases i
  {
    if i == 1 then s
    else
      var p := Pulled(s, i - 1);
      p[i - 1 := Follow(p[i - 2], p[i - 1])]
  }

  /** The knots once the head has taken its step. */
  function HeadMoved(knots: seq<Position>, d: Direction): seq<Position>
    requires |knots| >= 1
  {
    knots[0 := Step(knots[0], d)]
  }

  /** The head steps, then every later knot follows in turn. */
  function StepRope(knots: seq<Position>, d: Direction): seq<Position>
    requires |knots| >= 1
  {
    Pulled(HeadMoved(knots, d), |knots|)
  }

  /** Once the knots before it have followed, the last knot is too far from the one before it. */
  predicate LastFollows(s: seq<Position>)
    requires |s| >= 1
  {
    |s| >= 2 && TooFar(Pulled(s, |s| - 1)[|s| - 2], Pulled(s, |s| - 1)[|s| - 1])
  }

  /** Whether the last knot moves in this step (never for a rope of one knot). */
  predicate TailMoves(knots: seq<Position>, d: Direction)
    requires |knots| >= 1
  {
    LastFollows(HeadMoved(knots, d))
  }

  function Recorded(s: seq<Position>): seq<Position>
    requires |s| >= 1
  {
    if LastFollows(s) then [Pulled(s, |s|)[|s| - 1]] else []
  }

  /** What the step pushes onto the visited list: the last knot's new position, if it moved. */
  function Record(knots: seq<Position>, d: Direction): seq<Position>
    requires |knots| >= 1
  {
    Recorded(HeadMoved(knots, d))
  }

  /** Every knot touches the knot before it. */
  predicate Touching(knots: seq<Position>)
  {
    forall j | 1 <= j < |knots| :: Chebyshev(knots[j - 1], knots[j]) <= 1
  }

  /**
   * While knots follow in turn, the ones already handled touch, the last
   * one handled is at most one unit from where it was, and the rest have
   * not moved.
   */
  lemma {:induction false} PulledTouching(knots: seq<Position>, s: seq<Position>, i: nat)
    requires Touching(knots) && |s| == |knots| && 1 <= i <= |s|
    requires Chebyshev(s[0], knots[0]) <= 1
    requires forall j | 1 <= j < |s| :: s[j] == knots[j]
    ensures forall j | 1 <= j < i :: Chebyshev(Pulled(s, i)[j - 1], Pulled(s, i)[j]) <= 1
    ensures Chebyshev(Pulled(s, i)[i - 1], knots[i - 1]) <= 1
    decreases i
  {
    if i > 1 {
      PulledTouching(knots, s, i - 1);
      var p := Pulled(s, i - 1);
      assert p[i - 1] == knots[i - 1];
      assert Chebyshev(p[i - 2], knots[i - 2]) <= 1;
      assert Chebyshev(knots[i - 2], knots[i - 1]) <= 1;
      assert Chebyshev(p[i - 2], p[i - 1]) <= 2;
    }
  }

  /** A step keeps every knot touching the one before it. */
  lemma StepKeepsTouching(knots: seq<Position>, d: Direction)
    requires |knots| >= 1 && Touching(knots)
    ensures Touching(StepRope(knots, d))
  {
    var s := knots[0 := Step(knots[0], d)];
    PulledTouching(knots, s, |s|);
  }

  /** The last knot changes position exactly when the step records it. */
  lemma TailMovesIff(knots: seq<Position>, d: Direction)
    requires |knots| >= 2
    ensures TailMoves(knots, d) <==> StepRope(knots, d)[|knots| - 1] != knots[|knots| - 1]
  {
    PulledLast(HeadMoved(knots, d));
  }

  /** The last knot follows the knot before it, as that one stands after its own move. */
  lemma PulledLast(s: seq<Position>)
    requires |s| >= 2
    ensures Pulled(s, |s|)[|s| - 1] == Follow(Pulled(s, |s| - 1)[|s| - 2], s[|s| - 1])
  {
  }

  // ---------------------------------------------------------------------
  // The whole simulation

  /** The positions in a list, each once. */
  function Elems(s: seq<Position>): (r: set<Position>)
    ensures forall p :: p in r <==> p in s
  {
    set p | p in s
  }

  /** The knots and the list of visited positions. */
  datatype Rope = Rope(knots: seq<Position>, visited: seq<Position>)

  /** All knots at the origin, and the origin recorded. */
  function Initial(n: nat): (r: Rope)
    ensures |r.knots| == n && Touching(r.knots)
  {
    Rope(seq(n, _ => Origin), [Origin])
  }

  function StepState(r: Rope, d: Direction): (r': Rope)
    requires |r.knots| >= 1
    ensures |r'.knots| == |r.knots|
  {
    Rope(StepRope(r.knots, d), r.visited + Record(r.knots, d))
  }

  /** The rope after the head has taken the given unit steps. */
  function RunFrom(start: Rope, dirs: seq<Direction>): (r: Rope)
    requires |start.knots| >= 1
    ensures |r.knots| == |start.knots|
  {
    if dirs == [] then start
    else StepState(RunFrom(start, dirs[..|dirs| - 1]), dirs[|dirs| - 1])
  }

  /** The last knot's position after each prefix of the steps, starting with none taken. */
  function Tails(start: Rope, dirs: seq<Direction>): (r: seq<Position>)
    requires |start.knots| >= 1
    ensures |r| == |dirs| + 1
  {
    var tail := RunFrom(start, dirs).knots[|start.knots| - 1];
    if dirs == [] then [tail] else Tails(start, dirs[..|dirs| - 1]) + [tail]
  }

  /** Knots keep touching throughout the run. */
  lemma {:induction false} RunTouching(start: Rope, dirs: seq<Direction>)
    requires |start.knots| >= 1 && Touching(start.knots)
    ensures Touching(RunFrom(start, dirs).knots)
  {
    if dirs != [] {
      RunTouching(start, dirs[..|dirs| - 1]);
      StepKeepsTouching(RunFrom(start, dirs[..|dirs| - 1]).knots, dirs[|dirs| - 1]);
    }
  }

  /**
   * With two knots or more, the recorded positions are exactly the
   * positions the last knot occupies at some point: a step records the
   * last knot whenever it moves, and only then.
   */
  lemma {:induction false} VisitedAreTails(start: Rope, dirs: seq<Direction>)
    requires |start.knots| >= 2 && start.visited == [start.knots[|start.knots| - 1]]
    ensures Elems(RunFrom(start, dirs).visited) == Elems(Tails(start, dirs))
  {
    if dirs != [] {
      var init := dirs[..|dirs| - 1];
      var d := dirs[|dirs| - 1];
      VisitedAreTails(start, init);
      var before := RunFrom(start, init);
      TailMovesIff(before.knots, d);
      LastTail(start, init);
      SeenStep(before.visited, Tails(start, init), Record(before.knots, d),
        RunFrom(start, dirs).knots[|start.knots| - 1], before.knots[|start.knots| - 1]);
    }
  }

  /** The last entry of `Tails` is the last knot's current position. */
  lemma LastTail(start: Rope, dirs: seq<Direction>)
    requires |start.knots| >= 1
    ensures Tails(start, dirs)[|dirs|] == RunFrom(start, dirs).knots[|start.knots| - 1]
  {
  }

  lemma SeenStep(visited: seq<Position>, tails: seq<Position>, recorded: seq<Position>, tail: Position, last: Position)
    requires Elems(visited) == Elems(tails)
    requires |tails| > 0 && tails[|tails| - 1] == last
    requires recorded == [tail] || (recorded == [] && tail == last)
    ensures Elems(visited + recorded) == Elems(tails + [tail])
  {
    assert last in tails;
  }

  /** Taking steps `a` then steps `b` is taking steps `a + b`. */
  lemma {:induction false} RunAppend(start: Rope, a: seq<Direction>, b: seq<Direction>)
    requires |start.knots| >= 1
    ensures RunFrom(start, a + b) == RunFrom(RunFrom(start, a), b)
  {
    if b == [] {
      assert a + b == a;
    } else {
      assert (a + b)[..|a + b| - 1] == a + b[..|b| - 1];
      RunAppend(start, a, b[..|b| - 1]);
    }
  }

  // ---------------------------------------------------------------------
  // Input

  /**
   * A line the source reads without panicking: a direction letter, a
   * space, and an `i16` step count.
   */
  predicate WellFormed(line: string)
  {
    |line| >= 2 && line[0] in "UDLR" && ParseSigned(line[2..], I16_MIN, I16_MAX).Some?
  }

  function ParseDirection(c: char): Direction
    requires c in "UDLR"
  {
    if c == 'U' then Up else if c == 'D' then Down else if c == 'L' then Left else Right
  }

  /** The step count of a line; `0..count` is empty for a negative count. */
  function StepCount(line: string): (r: int)
    requires WellFormed(line)
    ensures I16_MIN <= r <= I16_MAX
  {
    ParseSigned(line[2..], I16_MIN, I16_MAX).value
  }

  function Repeat(d: Direction, count: int): (r: seq<Direction>)
    ensures |r| == if count < 0 then 0 else count
    ensures forall k | 0 <= k < |r| :: r[k] == d
  {
    seq(if count < 0 then 0 else count, _ => d)
  }

  /** The unit steps of the head, line after line. */
  function Steps(input: seq<string>): seq<Direction>
    requires forall l | l in input :: WellFormed(l)
  {
    if input == [] then []
    else
      var line := input[|input| - 1];
      assert line in input && WellFormed(line);
      assert forall l | l in input[..|input| - 1] :: l in input;
      Steps(input[..|input| - 1]) + Repeat(ParseDirection(line[0]), StepCount(line))
  }

  function Simulation(input: seq<string>, n: nat): (r: Rope)
    requires n >= 1 && forall l | l in input :: WellFormed(l)
    ensures |r.knots| == n
  {
    RunFrom(Initial(n), Steps(input))
  }

  // ---------------------------------------------------------------------
  // The imperative simulation

  /**
   * The body of the step loop: move the head one unit, then let each
   * later knot follow the one before it, pushing the last knot's new
   * position when it moves.
   */
  method MoveRope(knots: array<Position>, d: Direction, visited: seq<Position>) returns (visited': seq<Position>)
    requires knots.Length >= 1
    modifies knots
    ensures Rope(knots[..], visited') == StepState(Rope(old(knots[..]), visited), d)
  {
    ghost var s := HeadMoved(knots[..], d);
    var n := knots.Length;
    knots[0] := Step(knots[0], d);
    assert knots[..] == Pulled(s, 1);
    visited' := visited;
    for i := 1 to n
      invariant PullState(s, i, knots[..], visited, visited')
    {
      ghost var before := knots[..];
      ghost var visitedBefore := visited';
      visited' := FollowKnot(knots, i, visited');
      PullAdvance(s, i, before, knots[..], visited, visitedBefore, visited');
    }
  }

  /**
   * Part way through a step: knots 1..i-1 have followed, and the last
   * knot's position is pushed once the last knot has been handled.
   */
  ghost predicate PullState(s: seq<Position>, i: nat, knots: seq<Position>, visited: seq<Position>, visited': seq<Position>)
  {
    1 <= i <= |s| && knots == Pulled(s, i) && visited' == visited + (if i == |s| then Recorded(s) else [])
  }

  lemma PullAdvance(s: seq<Position>, i: nat, before: seq<Position>, after: seq<Position>,
                    visited: seq<Position>, v0: seq<Position>, v1: seq<Position>)
    requires PullState(s, i, before, visited, v0) && i < |s|
    requires after == before[i := Follow(before[i - 1], before[i])]
    requires v1 == v0 + (if i + 1 == |s| && TooFar(before[i - 1], before[i]) then [after[i]] else [])
    ensures PullState(s, i + 1, after, visited, v1)
  {
  }

  /** The body of the knot loop: knot `i` follows knot `i - 1`; the last knot is pushed when it moves. */
  method FollowKnot(knots: array<Position>, i: nat, visited: seq<Position>) returns (visited': seq<Position>)
    requires 1 <= i < knots.Length
    modifies knots
    ensures knots[..] == old(knots[..])[i := Follow(old(knots[i - 1]), old(knots[i]))]
    ensures visited' == visited + (if i + 1 == knots.Length && TooFar(old(knots[i - 1]), old(knots[i])) then [knots[i]] else [])
  {
    visited' := visited;
    var previous := knots[i - 1];
    var current := knots[i];
    if TooFar(previous, current) {
      knots[i] := Position(current.x + Signum(previous.x - current.x), current.y + Signum(previous.y - current.y));
      if i + 1 == knots.Length {
        visited' := visited' + [knots[i]];
      }
    }
  }

  /** One more repetition of a step is one more step. */
  lemma RepeatStep(start: Rope, d: Direction, k: nat)
    requires |start.knots| >= 1
    ensures RunFrom(start, Repeat(d, k + 1)) == StepState(RunFrom(start, Repeat(d, k)), d)
  {
    assert Repeat(d, k + 1)[..k] == Repeat(d, k);
  }

  /** The loop over one line's steps: `count` unit steps in direction `d`. */
  method MoveSteps(knots: array<Position>, d: Direction, count: int, visited: seq<Position>) returns (visited': seq<Position>)
    requires knots.Length >= 1
    modifies knots
    ensures Rope(knots[..], visited') == RunFrom(Rope(old(knots[..]), visited), Repeat(d, count))
  {
    ghost var start := Rope(knots[..], visited);
    visited' := visited;
    var k := 0;
    while k < count
      invariant 0 <= k <= if count < 0 then 0 else count
      invariant Rope(knots[..], visited') == RunFrom(start, Repeat(d, k))
      decreases count - k
    {
      RepeatStep(start, d, k);
      visited' := MoveRope(knots, d, visited');
      k := k + 1;
    }
    assert Repeat(d, k) == Repeat(d, count);
  }

  /**
   * `simulate`: run every line's steps on a rope of `n` knots and count
   * the distinct positions recorded for the last knot (`sort` then
   * `dedup` then `len`).
   */
  method Simulate(input: seq<string>, n: nat) returns (r: nat)
    requires n >= 1 && forall l | l in input :: WellFormed(l)
    ensures r == |Elems(Simulation(input, n).visited)|
    ensures n >= 2 ==> r == |Elems(Tails(Initial(n), Steps(input)))|
  {
    var knots := new Position[n](_ => Origin);
    var visited := [Origin];
    assert knots[..] == Initial(n).knots;
    for j := 0 to |input|
      invariant Rope(knots[..], visited) == RunFrom(Initial(n), Steps(input[..j]))
    {
      var line := input[j];
      assert line in input;
      assert forall l | l in input[..j + 1] :: l in input;
      assert input[..j + 1][..j] == input[..j];
      var direction := ParseDirection(line[0]);
      var count := StepCount(line);
      ghost var done := Steps(input[..j]);
      visited := MoveSteps(knots, direction, count, visited);
      RunAppend(Initial(n), done, Repeat(direction, count));
      assert done + Repeat(direction, count) == Steps(input[..j + 1]);
    }
    assert input[..|input|] == input;
    r := |Elems(visited)|;
    if n >= 2 {
      VisitedAreTails(Initial(n), Steps(input));
    }
  }

  method PartA(input: seq<string>) returns (r: nat)
    requires forall l | l in input :: WellFormed(l)
    ensures r == |Elems(Tails(Initial(2), Steps(input)))|
  {
    r := Simulate(input, 2);
  }

  method PartB(input: seq<string>) returns (r: nat)
    requires forall l | l in input :: WellFormed(l)
    ensures r == |Elems(Tails(Initial(10), Steps(input)))|
  {
    r := Simulate(input, 10);
  }
}
