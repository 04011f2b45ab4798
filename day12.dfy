/**
 * Day 12: a height map of letters, with a start `S` (height `a`) and an
 * end `E` (height `z`). A step goes to an orthogonal neighbour at most
 * one higher. The answer is the fewest steps from the start to the end,
 * found by lowering tentative scores from a worklist.
 */
module Day12 {
  import opened Common

  /** `u16::MAX`: the score of a cell not reached yet. */
  const UNREACHED: nat := U16_MAX

  datatype Position = Position(x: nat, y: nat)

  /** `Map`: the heights, row by row, and the start and end positions. */
  datatype Map = Map(width: nat, height: nat, start: Position, end: Position, grid: seq<seq<nat>>)

  predicate InGrid(m: Map, p: Position)
  {
    p.x < m.width && p.y < m.height
  }

  /**
   * A map the search can run on: `height` rows of `width` bytes, the
   * start and the end inside, and no byte 255 (whose `+ 1` would
   * overflow).
   */
  predicate Valid(m: Map)
  {
    |m.grid| == m.height && (forall y | 0 <= y < m.height :: |m.grid[y]| == m.width)
    && (forall y, x | 0 <= y < m.height && 0 <= x < |m.grid[y]| :: m.grid[y][x] < U8_MAX)
    && InGrid(m, m.start) && InGrid(m, m.end)
  }

  function Height(m: Map, p: Position): nat
    requires Valid(m) && InGrid(m, p)
  {
    m.grid[p.y][p.x]
  }

  /** `p` and `q` are orthogonal neighbours. */
  predicate Adjacent(p: Position, q: Position)
  {
    (p.y == q.y && (q.x == p.x + 1 || p.x == q.x + 1)) || (p.x == q.x && (q.y == p.y + 1 || p.y == q.y + 1))
  }

  /** A legal step: to an orthogonal neighbour inside the map, at most one higher. */
  predicate Step(m: Map, p: Position, q: Position)
    requires Valid(m)
  {
    InGrid(m, p) && InGrid(m, q) && Adjacent(p, q) && Height(m, q) <= Height(m, p) + 1
  }

  /**
   * `fill_neighbors`: the buffer is refilled with exactly the legal steps
   * from `p`, right, down, up and left, at most four of them.
   */
  method FillNeighbors(m: Map, p: Position) returns (buffer: seq<Position>)
    requires Valid(m) && InGrid(m, p)
    ensures buffer == StepsFrom(m, p)
  {
    buffer := [];
    var right := p.x + 1;
    var down := p.y + 1;
    var maxHeight := Height(m, p) + 1;
    if right < m.width {
      var q := Position(right, p.y);
      if Height(m, q) <= maxHeight {
        buffer := buffer + [q];
      }
    }
    assert buffer == StepRight(m, p);
    if down < m.height {
      var q := Position(p.x, down);
      if Height(m, q) <= maxHeight {
        buffer := buffer + [q];
      }
    }
    assert buffer == StepRight(m, p) + StepDown(m, p);
    if p.y > 0 {
      var q := Position(p.x, p.y - 1);
      if Height(m, q) <= maxHeight {
        buffer := buffer + [q];
      }
    }
    assert buffer == StepRight(m, p) + StepDown(m, p) + StepUp(m, p);
    if p.x > 0 {
      var q := Position(p.x - 1, p.y);
      if Height(m, q) <= maxHeight {
        buffer := buffer + [q];
      }
    }
  }

  /** The legal steps from `p`, in the order right, down, up, left. */
  function StepsFrom(m: Map, p: Position): (r: seq<Position>)
    requires Valid(m) && InGrid(m, p)
  {
    StepRight(m, p) + StepDown(m, p) + StepUp(m, p) + StepLeft(m, p)
  }

  /** The step right, when it is legal. */
  function StepRight(m: Map, p: Position): seq<Position>
    requires Valid(m) && InGrid(m, p)
  {
    var q := Position(p.x + 1, p.y);
    if q.x < m.width && Height(m, q) <= Height(m, p) + 1 then [q] else []
  }

  function StepDown(m: Map, p: Position): seq<Position>
    requires Valid(m) && InGrid(m, p)
  {
    var q := Position(p.x, p.y + 1);
    if q.y < m.height && Height(m, q) <= Height(m, p) + 1 then [q] else []
  }

  function StepUp(m: Map, p: Position): seq<Position>
    requires Valid(m) && InGrid(m, p)
  {
    if p.y > 0 && Height(m, Position(p.x, p.y - 1)) <= Height(m, p) + 1 then [Position(p.x, p.y - 1)] else []
  }

  function StepLeft(m: Map, p: Position): seq<Position>
    requires Valid(m) && InGrid(m, p)
  {
    if p.x > 0 && Height(m, Position(p.x - 1, p.y)) <= Height(m, p) + 1 then [Position(p.x - 1, p.y)] else []
  }

  /** The steps listed are exactly the legal steps from `p`, at most four of them. */
  lemma StepsFromExact(m: Map, p: Position)
    requires Valid(m) && InGrid(m, p)
    ensures |StepsFrom(m, p)| <= 4
    ensures forall j | 0 <= j < |StepsFrom(m, p)| :: Step(m, p, StepsFrom(m, p)[j])
    ensures forall q | Step(m, p, q) :: q in StepsFrom(m, p)
  {
    var steps := StepsFrom(m, p);
    var right, down, up, left := StepRight(m, p), StepDown(m, p), StepUp(m, p), StepLeft(m, p);
    assert forall x | x in right + down + up + left :: Step(m, p, x);
    forall j | 0 <= j < |steps|
      ensures Step(m, p, steps[j])
    {
      assert steps[j] in right + down + up + left;
    }
    forall q | Step(m, p, q)
      ensures q in steps
    {
      StepDirections(m, p, q);
    }
  }

  /** A legal step goes right, down, up or left. */
  lemma StepDirections(m: Map, p: Position, q: Position)
    requires Valid(m) && Step(m, p, q)
    ensures q == Position(p.x + 1, p.y) || q == Position(p.x, p.y + 1)
      || (p.y > 0 && q == Position(p.x, p.y - 1)) || (p.x > 0 && q == Position(p.x - 1, p.y))
  {
  }

  // ---------------------------------------------------------------------
  // Walks

  /** A walk of legal steps from the start; its length is `|w| - 1`. */
  predicate IsWalk(m: Map, w: seq<Position>)
    requires Valid(m)
  {
    |w| >= 1 && w[0] == m.start && forall k | 0 <= k < |w| - 1 :: Step(m, w[k], w[k + 1])
  }

  /** A walk extended by a legal step is a walk. */
  lemma WalkExtend(m: Map, w: seq<Position>, q: Position)
    requires Valid(m) && IsWalk(m, w) && Step(m, w[|w| - 1], q)
    ensures IsWalk(m, w + [q])
  {
    var w' := w + [q];
    forall k | 0 <= k < |w'| - 1
      ensures Step(m, w'[k], w'[k + 1])
    {
      if k < |w| - 1 {
        assert w'[k] == w[k] && w'[k + 1] == w[k + 1];
      }
    }
  }

  // ---------------------------------------------------------------------
  // Scores

  /** The scores grid has the map's shape. */
  predicate Shaped(m: Map, scores: seq<seq<nat>>)
  {
    |scores| == m.height && forall y | 0 <= y < |scores| :: |scores[y]| == m.width
  }

  function Score(scores: seq<seq<nat>>, p: Position): nat
    requires p.y < |scores| && p.x < |scores[p.y]|
  {
    scores[p.y][p.x]
  }

  /** `scores[p] = v`: only `p` changes. */
  function SetScore(scores: seq<seq<nat>>, p: Position, v: nat): (r: seq<seq<nat>>)
    requires p.y < |scores| && p.x < |scores[p.y]|
    ensures |r| == |scores| && forall y | 0 <= y < |r| :: |r[y]| == |scores[y]|
    ensures Score(r, p) == v
    ensures forall q: Position | q.y < |scores| && q.x < |scores[q.y]| && q != p :: Score(r, q) == Score(scores, q)
  {
    var row: seq<nat> := scores[p.y][p.x := v];
    scores[p.y := row]
  }

  /** `vec![vec![u16::MAX; width]; height]`: every cell unreached. */
  function Unreached(m: Map): (r: seq<seq<nat>>)
    ensures Shaped(m, r) && forall p | InGrid(m, p) :: Score(r, p) == UNREACHED
  {
    seq(m.height, _ => seq(m.width, _ => UNREACHED))
  }

  /** The sum of all scores; a strict improvement lowers it, so the search ends. */
  function Total(scores: seq<seq<nat>>): nat
  {
    Sum(seq(|scores|, y requires 0 <= y < |scores| => Sum(scores[y])))
  }

  /** Lowering one score lowers the total. */
  lemma LowerTotal(scores: seq<seq<nat>>, p: Position, v: nat)
    requires p.y < |scores| && p.x < |scores[p.y]| && v < Score(scores, p)
    ensures Total(SetScore(scores, p, v)) < Total(scores)
  {
    var row := scores[p.y];
    SumUpdate(row, p.x, v);
    var sums := seq(|scores|, y requires 0 <= y < |scores| => Sum(scores[y]));
    var after := SetScore(scores, p, v);
    assert seq(|after|, y requires 0 <= y < |after| => Sum(after[y])) == sums[p.y := Sum(row[p.x := v])];
    SumUpdate(sums, p.y, Sum(row[p.x := v]));
  }

  // ---------------------------------------------------------------------
  // The search

  /**
   * Relaxed: every reached cell other than the end that is not waiting
   * on the worklist has passed its score on, plus one, to every legal
   * step from it. `skip` names the cell being expanded, which is exempt.
   */
  ghost predicate RelaxedBut(m: Map, scores: seq<seq<nat>>, queue: seq<Position>, skip: Position)
    requires Valid(m) && Shaped(m, scores)
  {
    forall a, b | Step(m, a, b) && a != m.end && a != skip && a !in queue && Score(scores, a) < UNREACHED ::
      Score(scores, b) <= Score(scores, a) + 1
  }

  ghost predicate Relaxed(m: Map, scores: seq<seq<nat>>, queue: seq<Position>)
    requires Valid(m) && Shaped(m, scores)
  {
    forall a, b | Step(m, a, b) && a != m.end && a !in queue && Score(scores, a) < UNREACHED ::
      Score(scores, b) <= Score(scores, a) + 1
  }

  /** Every reached cell's score is the length of a recorded walk to it. */
  ghost predicate Witnessed(m: Map, scores: seq<seq<nat>>, walks: map<Position, seq<Position>>)
    requires Valid(m) && Shaped(m, scores)
  {
    forall p | InGrid(m, p) && Score(scores, p) < UNREACHED ::
      p in walks && IsWalk(m, walks[p]) && walks[p][|walks[p]| - 1] == p && |walks[p]| == Score(scores, p) + 1
  }

  /**
   * The worklist holds reached cells inside the map, and the end only
   * when it is the start (the end is never pushed).
   */
  predicate Queued(m: Map, scores: seq<seq<nat>>, queue: seq<Position>)
    requires Valid(m) && Shaped(m, scores)
  {
    forall k | 0 <= k < |queue| ::
      InGrid(m, queue[k]) && Score(scores, queue[k]) < UNREACHED && (queue[k] == m.start || queue[k] != m.end)
  }

  /** The state the search keeps between two pops of the worklist. */
  ghost predicate Search(m: Map, scores: seq<seq<nat>>, queue: seq<Position>, walks: map<Position, seq<Position>>)
  {
    Valid(m) && Shaped(m, scores) && Score(scores, m.start) == 0
    && (forall p | InGrid(m, p) :: Score(scores, p) <= UNREACHED)
    && Queued(m, scores, queue) && Witnessed(m, scores, walks)
  }

  /**
   * The `for` loop over the neighbours of `p`: a neighbour whose score
   * `score` (one more than `p`'s) strictly improves gets it, and is
   * pushed unless it is the end. Afterwards `p` is relaxed too; either
   * nothing changed or the total of the scores went down.
   */
  method Relax(m: Map, p: Position, score: nat, neighbors: seq<Position>,
               scores0: seq<seq<nat>>, queue0: seq<Position>, ghost walks0: map<Position, seq<Position>>)
    returns (scores: seq<seq<nat>>, queue: seq<Position>, ghost walks: map<Position, seq<Position>>)
    requires Search(m, scores0, queue0, walks0) && InGrid(m, p) && score == Score(scores0, p) + 1 <= UNREACHED
    requires forall j | 0 <= j < |neighbors| :: Step(m, p, neighbors[j])
    requires forall q | Step(m, p, q) :: q in neighbors
    requires RelaxedBut(m, scores0, queue0, p)
    ensures Search(m, scores, queue, walks) && Relaxed(m, scores, queue)
    ensures (scores == scores0 && queue == queue0) || Total(scores) < Total(scores0)
  {
    scores, queue, walks := scores0, queue0, walks0;
    ghost var changed := false;
    for i := 0 to |neighbors|
      invariant Search(m, scores, queue, walks) && RelaxedBut(m, scores, queue, p)
      invariant Score(scores, p) + 1 == score
      invariant Bounded(m, neighbors, i, score, scores)
      invariant !changed ==> scores == scores0 && queue == queue0
      invariant changed ==> Total(scores) < Total(scores0)
    {
      ghost var before := scores;
      var improved;
      improved, scores, queue, walks := Improve(m, p, score, neighbors[i], scores, queue, walks);
      changed := changed || improved;
      BoundedStep(m, neighbors, i, score, before, scores);
    }
    ExpandedRelaxed(m, p, neighbors, scores, queue);
  }

  /**
   * One pass of the `for` loop: when `score` beats the neighbour's score,
   * the neighbour takes it and is queued unless it is the end; nothing
   * but that neighbour's score changes.
   */
  method Improve(m: Map, p: Position, score: nat, neighbor: Position,
                 scores0: seq<seq<nat>>, queue0: seq<Position>, ghost walks0: map<Position, seq<Position>>)
    returns (improved: bool, scores: seq<seq<nat>>, queue: seq<Position>, ghost walks: map<Position, seq<Position>>)
    requires Search(m, scores0, queue0, walks0) && RelaxedBut(m, scores0, queue0, p)
    requires Step(m, p, neighbor) && score == Score(scores0, p) + 1
    ensures Search(m, scores, queue, walks) && RelaxedBut(m, scores, queue, p)
    ensures Score(scores, p) == Score(scores0, p) && Score(scores, neighbor) <= score
    ensures forall q | InGrid(m, q) && q != neighbor :: Score(scores, q) == Score(scores0, q)
    ensures improved <==> score < Score(scores0, neighbor)
    ensures improved ==> scores == SetScore(scores0, neighbor, score) && Total(scores) < Total(scores0)
    ensures improved ==> queue == if neighbor != m.end then queue0 + [neighbor] else queue0
    ensures !improved ==> scores == scores0 && queue == queue0
  {
    scores, queue, walks := scores0, queue0, walks0;
    improved := score < Score(scores, neighbor);
    if !improved {
      return;
    }
    scores := SetScore(scores, neighbor, score);
    walks := walks[neighbor := walks[p] + [neighbor]];
    if neighbor != m.end {
      queue := queue + [neighbor];
    }
    LowerKeepsSearch(m, p, neighbor, score, scores0, queue0, walks0, scores, queue, walks);
  }

  /** The first `i` neighbours lie inside the map and score at most `score`. */
  ghost predicate Bounded(m: Map, neighbors: seq<Position>, i: nat, score: nat, scores: seq<seq<nat>>)
    requires Shaped(m, scores) && i <= |neighbors|
  {
    forall j | 0 <= j < i :: InGrid(m, neighbors[j]) && Score(scores, neighbors[j]) <= score
  }

  /** Settling neighbour `i` to at most `score`, changing no other cell, extends the bound to it. */
  lemma BoundedStep(m: Map, neighbors: seq<Position>, i: nat, score: nat, before: seq<seq<nat>>, scores: seq<seq<nat>>)
    requires Shaped(m, before) && Shaped(m, scores) && i < |neighbors| && Bounded(m, neighbors, i, score, before)
    requires InGrid(m, neighbors[i]) && Score(scores, neighbors[i]) <= score
    requires forall q | InGrid(m, q) && q != neighbors[i] :: Score(scores, q) == Score(before, q)
    ensures Bounded(m, neighbors, i + 1, score, scores)
  {
    forall j | 0 <= j < i + 1
      ensures InGrid(m, neighbors[j]) && Score(scores, neighbors[j]) <= score
    {
      if j < i && neighbors[j] != neighbors[i] {
        assert Score(scores, neighbors[j]) == Score(before, neighbors[j]);
      }
    }
  }

  /** Once every legal step from `p` scores at most one more than `p`, `p` is relaxed as well. */
  lemma ExpandedRelaxed(m: Map, p: Position, neighbors: seq<Position>, scores: seq<seq<nat>>, queue: seq<Position>)
    requires Valid(m) && Shaped(m, scores) && InGrid(m, p) && RelaxedBut(m, scores, queue, p)
    requires forall q | Step(m, p, q) :: q in neighbors
    requires Bounded(m, neighbors, |neighbors|, Score(scores, p) + 1, scores)
    ensures Relaxed(m, scores, queue)
  {
    forall a, b | Step(m, a, b) && a != m.end && a !in queue && Score(scores, a) < UNREACHED
      ensures Score(scores, b) <= Score(scores, a) + 1
    {
      if a == p {
        var j :| 0 <= j < |neighbors| && neighbors[j] == b;
      }
    }
  }

  /**
   * Giving a neighbour `q` of `p` the better score `score`, recording the
   * walk to `p` extended by `q` and queueing `q` (unless it is the end)
   * keeps the search state, lowers the total and keeps every cell but
   * `p` relaxed.
   */
  lemma LowerKeepsSearch(m: Map, p: Position, q: Position, score: nat,
                         before: seq<seq<nat>>, queued: seq<Position>, walks0: map<Position, seq<Position>>,
                         scores: seq<seq<nat>>, queue: seq<Position>, walks: map<Position, seq<Position>>)
    requires Search(m, before, queued, walks0) && RelaxedBut(m, before, queued, p)
    requires Step(m, p, q) && score == Score(before, p) + 1 && score < Score(before, q)
    requires scores == SetScore(before, q, score)
    requires walks == walks0[q := walks0[p] + [q]]
    requires queue == if q != m.end then queued + [q] else queued
    ensures Search(m, scores, queue, walks) && RelaxedBut(m, scores, queue, p)
    ensures Score(scores, p) == Score(before, p) && Total(scores) < Total(before)
  {
    LowerTotal(before, q, score);
    assert q != m.start;
    LowerKeepsRelaxed(m, p, q, score, before, queued, scores, queue);
    LowerKeepsQueued(m, q, score, before, queued, scores, queue);
    LowerKeepsWitnessed(m, p, q, score, before, walks0, scores, walks);
  }

  /** Every cell but `p` and `q` keeps its score; `q` is queued or is the end, so the rest stay relaxed. */
  lemma LowerKeepsRelaxed(m: Map, p: Position, q: Position, score: nat, before: seq<seq<nat>>, queued: seq<Position>,
                          scores: seq<seq<nat>>, queue: seq<Position>)
    requires Valid(m) && Shaped(m, before) && RelaxedBut(m, before, queued, p)
    requires InGrid(m, q) && score < Score(before, q) && scores == SetScore(before, q, score)
    requires queue == if q != m.end then queued + [q] else queued
    ensures Shaped(m, scores) && RelaxedBut(m, scores, queue, p)
  {
    forall a, b | Step(m, a, b) && a != m.end && a != p && a !in queue && Score(scores, a) < UNREACHED
      ensures Score(scores, b) <= Score(scores, a) + 1
    {
      assert a != q && a !in queued;
      assert Score(scores, a) == Score(before, a);
      assert Score(scores, b) <= Score(before, b);
    }
  }

  /** Queueing `q`, now reached and not the end, keeps the worklist well formed. */
  lemma LowerKeepsQueued(m: Map, q: Position, score: nat, before: seq<seq<nat>>, queued: seq<Position>,
                         scores: seq<seq<nat>>, queue: seq<Position>)
    requires Valid(m) && Shaped(m, before) && Queued(m, before, queued)
    requires InGrid(m, q) && score < Score(before, q) <= UNREACHED && scores == SetScore(before, q, score)
    requires queue == if q != m.end then queued + [q] else queued
    ensures Shaped(m, scores) && Queued(m, scores, queue)
  {
    forall k | 0 <= k < |queue|
      ensures InGrid(m, queue[k]) && Score(scores, queue[k]) < UNREACHED && (queue[k] == m.start || queue[k] != m.end)
    {
      if k < |queued| {
        assert queue[k] == queued[k];
        assert Score(scores, queue[k]) <= Score(before, queue[k]);
      }
    }
  }

  /** The walk to `p` extended by the step to `q` witnesses `q`'s new score. */
  lemma LowerKeepsWitnessed(m: Map, p: Position, q: Position, score: nat,
                            before: seq<seq<nat>>, walks0: map<Position, seq<Position>>,
                            scores: seq<seq<nat>>, walks: map<Position, seq<Position>>)
    requires Valid(m) && Shaped(m, before) && Witnessed(m, before, walks0)
    requires Step(m, p, q) && score == Score(before, p) + 1 && score < Score(before, q) <= UNREACHED
    requires scores == SetScore(before, q, score)
    requires walks == walks0[q := walks0[p] + [q]]
    ensures Shaped(m, scores) && Witnessed(m, scores, walks)
  {
    WalkExtend(m, walks0[p], q);
    forall x | InGrid(m, x) && Score(scores, x) < UNREACHED
      ensures x in walks && IsWalk(m, walks[x]) && walks[x][|walks[x]| - 1] == x && |walks[x]| == Score(scores, x) + 1
    {
      if x != q {
        assert Score(scores, x) == Score(before, x);
      }
    }
  }

  /** Taking the last cell off the worklist leaves that cell, reached, to be expanded. */
  lemma Popped(m: Map, scores: seq<seq<nat>>, queue: seq<Position>, walks: map<Position, seq<Position>>)
    requires Search(m, scores, queue, walks) && Relaxed(m, scores, queue) && queue != []
    ensures InGrid(m, queue[|queue| - 1]) && Score(scores, queue[|queue| - 1]) < UNREACHED
    ensures Search(m, scores, queue[..|queue| - 1], walks)
    ensures RelaxedBut(m, scores, queue[..|queue| - 1], queue[|queue| - 1])
  {
    var rest := queue[..|queue| - 1];
    assert forall a | a !in rest && a != queue[|queue| - 1] :: a !in queue;
    forall k | 0 <= k < |rest|
      ensures InGrid(m, rest[k]) && Score(scores, rest[k]) < UNREACHED && (rest[k] == m.start || rest[k] != m.end)
    {
      assert rest[k] == queue[k];
    }
  }

  /**
   * Once the worklist is empty, the end's score is the length of a walk
   * to it (when reached) and no walk to it is shorter.
   */
  lemma Settled(m: Map, scores: seq<seq<nat>>, walks: map<Position, seq<Position>>)
    requires Search(m, scores, [], walks) && Relaxed(m, scores, [])
    ensures Score(scores, m.end) < UNREACHED ==>
      m.end in walks && Reaches(m, walks[m.end]) && |walks[m.end]| - 1 == Score(scores, m.end)
    ensures forall w | Reaches(m, w) :: Score(scores, m.end) <= |w| - 1
  {
    forall w | Reaches(m, w)
      ensures Score(scores, m.end) <= |w| - 1
    {
      EndBound(m, scores, w, 0);
    }
  }

  /** A walk from the start that ends at the end. */
  ghost predicate Reaches(m: Map, w: seq<Position>)
    requires Valid(m)
  {
    IsWalk(m, w) && w[|w| - 1] == m.end
  }

  /**
   * `find_path`: the fewest steps from the start to the end, or nothing
   * when no walk of fewer than 65535 steps reaches the end (`u16::MAX`
   * marks an unreached cell).
   */
  method FindPath(m: Map) returns (r: Option<nat>)
    requires Valid(m)
    ensures r.Some? ==> r.value < UNREACHED && exists w :: Reaches(m, w) && |w| - 1 == r.value
    ensures r.Some? ==> forall w | Reaches(m, w) :: r.value <= |w| - 1
    ensures r.None? ==> forall w | Reaches(m, w) :: |w| - 1 >= UNREACHED
  {
    var queue := [m.start];
    var scores := SetScore(Unreached(m), m.start, 0);
    ghost var walks := map[m.start := [m.start]];
    assert Relaxed(m, scores, queue);
    while queue != []
      invariant Search(m, scores, queue, walks) && Relaxed(m, scores, queue)
      decreases Total(scores), |queue|
    {
      Popped(m, scores, queue, walks);
      var position := queue[|queue| - 1];
      queue := queue[..|queue| - 1];
      var score := Score(scores, position) + 1;
      var neighbors := FillNeighbors(m, position);
      StepsFromExact(m, position);
      scores, queue, walks := Relax(m, position, score, neighbors, scores, queue, walks);
    }
    Settled(m, scores, walks);
    r := match Score(scores, m.end)
      case 65535 => None
      case score => Some(score);
  }

  /** Along a walk that has not met the end yet, the relaxed scores are at most the step counts. */
  lemma {:induction false} PrefixBound(m: Map, scores: seq<seq<nat>>, w: seq<Position>, k: nat)
    requires Valid(m) && Shaped(m, scores) && Relaxed(m, scores, []) && Score(scores, m.start) == 0
    requires forall p | InGrid(m, p) :: Score(scores, p) <= UNREACHED
    requires IsWalk(m, w) && k < |w| && forall j | 0 <= j < k :: w[j] != m.end
    ensures InGrid(m, w[k]) && Score(scores, w[k]) <= k
  {
    if k == 0 {
      assert w[0] == m.start;
    } else {
      assert Step(m, w[k - 1], w[k]);
      PrefixBound(m, scores, w, k - 1);
    }
  }

  /** A walk to the end takes at least as many steps as the end's final score. */
  lemma {:induction false} EndBound(m: Map, scores: seq<seq<nat>>, w: seq<Position>, k: nat)
    requires Valid(m) && Shaped(m, scores) && Relaxed(m, scores, []) && Score(scores, m.start) == 0
    requires forall p | InGrid(m, p) :: Score(scores, p) <= UNREACHED
    requires IsWalk(m, w) && w[|w| - 1] == m.end && k < |w| && forall j | 0 <= j < k :: w[j] != m.end
    ensures Score(scores, m.end) <= |w| - 1
    decreases |w| - k
  {
    if w[k] == m.end {
      PrefixBound(m, scores, w, k);
    } else {
      EndBound(m, scores, w, k + 1);
    }
  }

  // ---------------------------------------------------------------------
  // Map::new

  /** The first offset of `c` in `row`. */
  function Find(row: string, c: char): (r: Option<nat>)
    ensures r.Some? ==> r.value < |row| && row[r.value] == c && forall j | 0 <= j < r.value :: row[j] != c
    ensures r.None? ==> c !in row
  {
    if |row| == 0 then None
    else if row[0] == c then Some(0)
    else match Find(row[1..], c)
      case None => None
      case Some(k) => Some(k + 1)
  }

  /**
   * A row of heights: the bytes of the line, except that its first `S`
   * reads `a` and its first `E` reads `z`.
   */
  function Heights(row: string): (r: seq<nat>)
    ensures |r| == |row|
  {
    var s := Find(row, 'S');
    var e := Find(row, 'E');
    seq(|row|, j requires 0 <= j < |row| =>
      if e == Some(j) then 'z' as nat else if s == Some(j) then 'a' as nat else row[j] as nat)
  }

  /** The position of `c` in the last of the first `n` lines holding it; `Position::MIN` when none does. */
  function Marker(lines: seq<string>, n: nat, c: char): (r: Position)
    requires n <= |lines|
    ensures r == Position(0, 0) || (r.y < n && r.x < |lines[r.y]|)
  {
    if n == 0 then Position(0, 0)
    else match Find(lines[n - 1], c)
      case Some(x) => Position(x, n - 1)
      case None => Marker(lines, n - 1, c)
  }

  /**
   * The marker is the first `c` of the last line holding one, and
   * `Position::MIN` when no line holds one.
   */
  lemma {:induction false} MarkerLast(lines: seq<string>, n: nat, c: char)
    requires n <= |lines|
    ensures (exists i | 0 <= i < n :: c in lines[i]) ==> (
      var r := Marker(lines, n, c);
      r.y < n && Find(lines[r.y], c) == Some(r.x) && forall i | r.y < i < n :: c !in lines[i])
    ensures (forall i | 0 <= i < n :: c !in lines[i]) ==> Marker(lines, n, c) == Position(0, 0)
  {
    if n > 0 {
      MarkerLast(lines, n - 1, c);
      if Find(lines[n - 1], c).None? {
        assert forall i | 0 <= i < n :: c in lines[i] ==> i < n - 1;
      }
    }
  }

  /** Input that makes a map: rectangular and non-empty, no byte above 254, sizes that fit a `u16`. */
  predicate WellFormed(input: seq<string>)
  {
    |input| >= 1 && |input| <= U16_MAX && 1 <= |input[0]| <= U16_MAX
    && (forall i | 0 <= i < |input| :: |input[i]| == |input[0]|)
    && (forall i, j | 0 <= i < |input| && 0 <= j < |input[i]| :: input[i][j] as nat < U8_MAX)
  }

  /** The rows of heights of the first `n` lines. */
  function Rows(input: seq<string>, n: nat): (r: seq<seq<nat>>)
    requires n <= |input|
    ensures |r| == n
  {
    seq(n, y requires 0 <= y < n => Heights(input[y]))
  }

  /** One more line adds its row of heights. */
  lemma RowsStep(input: seq<string>, n: nat)
    requires n < |input|
    ensures Rows(input, n + 1) == Rows(input, n) + [Heights(input[n])]
  {
    assert forall y | 0 <= y < n :: Rows(input, n + 1)[y] == Rows(input, n)[y];
  }

  /** The map the input describes. */
  function MapOf(input: seq<string>): (m: Map)
    requires WellFormed(input)
    ensures Valid(m) && m.width == |input[0]| && m.height == |input|
  {
    var m := Map(|input[0]|, |input|, Marker(input, |input|, 'S'), Marker(input, |input|, 'E'),
                 Rows(input, |input|));
    assert forall y, x | 0 <= y < m.height && 0 <= x < |m.grid[y]| :: m.grid[y][x] < U8_MAX by {
      forall y, x | 0 <= y < m.height && 0 <= x < |m.grid[y]|
        ensures m.grid[y][x] < U8_MAX
      {
        assert x < |input[y]| && input[y][x] as nat < U8_MAX;
      }
    }
    m
  }

  /**
   * `Map::new`: the rows are the input's bytes with the first `S` of each
   * made `a` and its first `E` made `z`; start and end are where `S` and
   * `E` are, the last line holding them winning.
   */
  method NewMap(input: seq<string>) returns (m: Map)
    requires WellFormed(input)
    ensures m == MapOf(input)
  {
    var width := |input[0]|;
    var height := |input|;
    var start := Position(0, 0);
    var end := Position(0, 0);
    var grid: seq<seq<nat>> := [];
    for i := 0 to |input|
      invariant grid == Rows(input, i)
      invariant start == Marker(input, i, 'S') && end == Marker(input, i, 'E')
    {
      var row := input[i];
      var heights := seq(|row|, j requires 0 <= j < |row| => row[j] as nat);
      var s := Find(row, 'S');
      if s.Some? {
        start := Position(s.value, i);
        heights := heights[s.value := 'a' as nat];
      }
      var e := Find(row, 'E');
      if e.Some? {
        end := Position(e.value, i);
        heights := heights[e.value := 'z' as nat];
      }
      assert heights == Heights(row) by {
        forall j | 0 <= j < |row|
          ensures heights[j] == Heights(row)[j]
        {
        }
      }
      RowsStep(input, i);
      grid := grid + [heights];
    }
    m := Map(width, height, start, end, grid);
  }

  /**
   * `part_a`: the fewest steps from `S` to `E`; an error exactly when no
   * walk of fewer than 65535 steps reaches `E`.
   */
  method PartA(input: seq<string>) returns (r: Result<nat>)
    requires WellFormed(input)
    ensures r.Ok? ==> exists w :: Reaches(MapOf(input), w) && |w| - 1 == r.value
    ensures r.Ok? ==> forall w | Reaches(MapOf(input), w) :: r.value <= |w| - 1
    ensures r.Err? ==> forall w | Reaches(MapOf(input), w) :: |w| - 1 >= UNREACHED
  {
    var m := NewMap(input);
    var found := FindPath(m);
    if found.Some? {
      r := Ok(found.value);
    } else {
      r := Err("Could not find path");
    }
  }
}
