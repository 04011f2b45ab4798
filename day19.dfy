// Day 19: Not Enough Minerals. Each blueprint prices four kinds of robot;
// a depth-first search over 24 minutes finds the most geodes one
// blueprint can open, and part A sums each blueprint's id times that.
module Day19 {
  import opened Common

  /** The minutes the search runs for. */
  const MINUTES: nat := 24

  /** `Resource`: how much of a material is held and how many robots
    * collect it. */
  datatype Resource = Resource(count: nat, production: nat)

  /** `State`: the minute reached and the four materials. */
  datatype State = State(minute: nat, ore: Resource, clay: Resource, obsidian: Resource, geode: Resource)

  /** `Blueprint`: the id and the six robot costs, plus the largest ore
    * cost. */
  datatype Blueprint = Blueprint(
    id: nat,
    oreRobotOre: nat,
    clayRobotOre: nat,
    obsidianRobotOre: nat,
    obsidianRobotClay: nat,
    geodeRobotOre: nat,
    geodeRobotObsidian: nat,
    maxOreCost: nat)

  // ---------------------------------------------------------------------
  // Parsing

  /** Skip `offset` characters, then split at the first `sep`: the source's
    * `text[offset..].split_once(sep).unwrap()`. `None` is a panic: the
    * slice runs past the end or there is no separator. */
  function Field(text: string, offset: nat, sep: char): (r: Option<(string, string)>)
    ensures r.Some? ==> offset <= |text| && text[offset..] == r.value.0 + [sep] + r.value.1
    ensures r.Some? ==> sep !in r.value.0
    ensures offset <= |text| && sep in text[offset..] ==> r.Some?
  {
    if |text| < offset then None else SplitOnce(text[offset..], sep)
  }

  /** The seven fields of `score_blueprint`, in order: the characters
    * skipped before each one and the character that ends it. */
  const OFFSETS: seq<nat> := [10, 22, 27, 31, 8, 29, 8]
  const SEPARATORS: seq<char> := [':', ' ', ' ', ' ', ' ', ' ', ' ']

  /** The words of the puzzle's sentence that the offsets skip. */
  const PREFIXES: seq<string> := [
    "Blueprint ",
    " Each ore robot costs ",
    "ore. Each clay robot costs ",
    "ore. Each obsidian robot costs ",
    "ore and ",
    "clay. Each geode robot costs ",
    "ore and "]
  const SUFFIX: string := "obsidian."

  /** The fields from the `k`-th on, each split off in turn. */
  function Pieces(text: string, k: nat): (r: Option<seq<string>>)
    requires k <= 7
    ensures r.Some? ==> |r.value| == 7 - k
    decreases 7 - k
  {
    if k == 7 then Some([])
    else
      match Field(text, OFFSETS[k], SEPARATORS[k])
      case None => None
      case Some((piece, rest)) =>
        match Pieces(rest, k + 1)
        case None => None
        case Some(pieces) => Some([piece] + pieces)
  }

  /** The largest of the four ore costs, `max_ore_cost`. */
  function MaxOreCost(ore: nat, clay: nat, obsidian: nat, geode: nat): (r: nat)
    ensures r >= ore && r >= clay && r >= obsidian && r >= geode
    ensures r == ore || r == clay || r == obsidian || r == geode
  {
    Max(Max(Max(ore, clay), obsidian), geode)
  }

  /** The seven fields parsed: the id as a `usize`, the costs as `u8`. */
  function FromPieces(pieces: seq<string>): (r: Option<Blueprint>)
    requires |pieces| == 7
  {
    match (ParseUsize(pieces[0]), ParseUnsigned(pieces[1], U8_MAX), ParseUnsigned(pieces[2], U8_MAX),
      ParseUnsigned(pieces[3], U8_MAX), ParseUnsigned(pieces[4], U8_MAX), ParseUnsigned(pieces[5], U8_MAX),
      ParseUnsigned(pieces[6], U8_MAX))
    case (Some(id), Some(oreRobotOre), Some(clayRobotOre), Some(obsidianRobotOre), Some(obsidianRobotClay),
      Some(geodeRobotOre), Some(geodeRobotObsidian)) =>
      Some(Blueprint(id, oreRobotOre, clayRobotOre, obsidianRobotOre, obsidianRobotClay, geodeRobotOre,
        geodeRobotObsidian, MaxOreCost(oreRobotOre, clayRobotOre, obsidianRobotOre, geodeRobotOre)))
    case _ => None
  }

  /** `score_blueprint`'s reading of a line; `None` is a panic of one of the
    * `unwrap`s. */
  function ParseBlueprint(line: string): (r: Option<Blueprint>)
    ensures r.Some? ==>
      r.value.maxOreCost == MaxOreCost(r.value.oreRobotOre, r.value.clayRobotOre, r.value.obsidianRobotOre, r.value.geodeRobotOre)
    ensures r.Some? ==> r.value.oreRobotOre <= U8_MAX && r.value.clayRobotOre <= U8_MAX
    ensures r.Some? ==> r.value.obsidianRobotOre <= U8_MAX && r.value.obsidianRobotClay <= U8_MAX
    ensures r.Some? ==> r.value.geodeRobotOre <= U8_MAX && r.value.geodeRobotObsidian <= U8_MAX
  {
    match Pieces(line, 0)
    case None => None
    case Some(pieces) => FromPieces(pieces)
  }

  /** The numbers of a blueprint in the order the sentence gives them. */
  function Numbers(b: Blueprint): seq<nat>
  {
    [b.id, b.oreRobotOre, b.clayRobotOre, b.obsidianRobotOre, b.obsidianRobotClay, b.geodeRobotOre,
      b.geodeRobotObsidian]
  }

  /** The sentence from the `k`-th number on. */
  function FormatFrom(numbers: seq<nat>, k: nat): string
    requires |numbers| == 7 && k <= 7
    decreases 7 - k
  {
    if k == 7 then SUFFIX
    else PREFIXES[k] + NatToString(numbers[k]) + [SEPARATORS[k]] + FormatFrom(numbers, k + 1)
  }

  /** The puzzle's sentence for a blueprint: "Blueprint 1: Each ore robot
    * costs 4 ore. Each clay robot costs 2 ore. ..." */
  function FormatBlueprint(b: Blueprint): string
  {
    FormatFrom(Numbers(b), 0)
  }

  function Texts(numbers: seq<nat>): (r: seq<string>)
    ensures |r| == |numbers| && forall i | 0 <= i < |r| :: r[i] == NatToString(numbers[i])
  {
    if numbers == [] then [] else [NatToString(numbers[0])] + Texts(numbers[1..])
  }

  /** A fixed-width prefix, a number and a separator split as the source
    * expects. */
  lemma FieldOfNumber(prefix: string, n: nat, sep: char, rest: string)
    requires !IsDigit(sep)
    ensures Field(prefix + NatToString(n) + [sep] + rest, |prefix|, sep) == Some((NatToString(n), rest))
  {
    var text := prefix + NatToString(n) + [sep] + rest;
    assert text[|prefix|..] == NatToString(n) + [sep] + rest;
    NoSeparatorInNumber(n, sep);
    SplitAtFirst(NatToString(n), sep, rest);
  }

  /** The offsets of the source are the lengths of the sentence's words. */
  lemma OffsetsMatch(k: nat)
    requires k < 7
    ensures |PREFIXES[k]| == OFFSETS[k] && !IsDigit(SEPARATORS[k])
  {
  }

  /** Splitting the written sentence yields the written numbers. */
  lemma {:induction false} PiecesFormat(numbers: seq<nat>, k: nat)
    requires |numbers| == 7 && k <= 7
    ensures Pieces(FormatFrom(numbers, k), k) == Some(Texts(numbers[k..]))
    decreases 7 - k
  {
    if k < 7 {
      OffsetsMatch(k);
      FieldOfNumber(PREFIXES[k], numbers[k], SEPARATORS[k], FormatFrom(numbers, k + 1));
      PiecesFormat(numbers, k + 1);
      assert numbers[k..][1..] == numbers[k + 1..];
    }
  }

  /** Reading the sentence of a blueprint gives the blueprint back, with
    * `max_ore_cost` filled in. */
  lemma ParseFormatBlueprint(b: Blueprint)
    requires b.id <= USIZE_MAX
    requires b.oreRobotOre <= U8_MAX && b.clayRobotOre <= U8_MAX && b.obsidianRobotOre <= U8_MAX
    requires b.obsidianRobotClay <= U8_MAX && b.geodeRobotOre <= U8_MAX && b.geodeRobotObsidian <= U8_MAX
    requires b.maxOreCost == MaxOreCost(b.oreRobotOre, b.clayRobotOre, b.obsidianRobotOre, b.geodeRobotOre)
    ensures ParseBlueprint(FormatBlueprint(b)) == Some(b)
  {
    PiecesFormat(Numbers(b), 0);
    assert Numbers(b)[0..] == Numbers(b);
    ParseNatToString(b.id, USIZE_MAX);
    ParseNatToString(b.oreRobotOre, U8_MAX);
    ParseNatToString(b.clayRobotOre, U8_MAX);
    ParseNatToString(b.obsidianRobotOre, U8_MAX);
    ParseNatToString(b.obsidianRobotClay, U8_MAX);
    ParseNatToString(b.geodeRobotOre, U8_MAX);
    ParseNatToString(b.geodeRobotObsidian, U8_MAX);
  }

  /** A line that stops before the last field panics. */
  lemma TruncatedPanics(b: Blueprint)
    ensures ParseBlueprint(PREFIXES[0] + NatToString(b.id)) == None
  {
    NoSeparatorInNumber(b.id, ':');
    assert (PREFIXES[0] + NatToString(b.id))[10..] == NatToString(b.id);
  }

  // ---------------------------------------------------------------------
  // The search

  /** `State::default()` with one ore robot. */
  function Initial(): State
  {
    State(0, Resource(0, 1), Resource(0, 0), Resource(0, 0), Resource(0, 0))
  }

  predicate CanBuildOre(b: Blueprint, s: State)
  {
    b.oreRobotOre <= s.ore.count && s.ore.production < b.maxOreCost
  }

  predicate CanBuildClay(b: Blueprint, s: State)
  {
    b.clayRobotOre <= s.ore.count && s.clay.production < b.obsidianRobotClay
  }

  predicate CanBuildObsidian(b: Blueprint, s: State)
  {
    b.obsidianRobotOre <= s.ore.count && b.obsidianRobotClay <= s.clay.count
    && s.obsidian.production < b.geodeRobotObsidian
  }

  predicate CanBuildGeode(b: Blueprint, s: State)
  {
    b.geodeRobotOre <= s.ore.count && b.geodeRobotObsidian <= s.obsidian.count
  }

  function Gather(r: Resource): Resource
  {
    Resource(r.count + r.production, r.production)
  }

  /** One minute passes and every robot collects one unit. */
  function Collect(s: State): (r: State)
  {
    State(s.minute + 1, Gather(s.ore), Gather(s.clay), Gather(s.obsidian), Gather(s.geode))
  }

  /** The affordability the build predicates check before collecting still
    * holds after collecting, so paying the cost afterwards never goes
    * below zero. */
  lemma CollectKeepsAffordable(b: Blueprint, s: State)
    ensures CanBuildOre(b, s) ==> b.oreRobotOre <= Collect(s).ore.count
    ensures CanBuildClay(b, s) ==> b.clayRobotOre <= Collect(s).ore.count
    ensures CanBuildObsidian(b, s) ==>
      b.obsidianRobotOre <= Collect(s).ore.count && b.obsidianRobotClay <= Collect(s).clay.count
    ensures CanBuildGeode(b, s) ==>
      b.geodeRobotOre <= Collect(s).ore.count && b.geodeRobotObsidian <= Collect(s).obsidian.count
  {
  }

  function BuildOre(b: Blueprint, s: State): State
    requires b.oreRobotOre <= s.ore.count
  {
    s.(ore := Resource(s.ore.count - b.oreRobotOre, s.ore.production + 1))
  }

  function BuildClay(b: Blueprint, s: State): State
    requires b.clayRobotOre <= s.ore.count
  {
    s.(ore := s.ore.(count := s.ore.count - b.clayRobotOre),
       clay := s.clay.(production := s.clay.production + 1))
  }

  function BuildObsidian(b: Blueprint, s: State): State
    requires b.obsidianRobotOre <= s.ore.count && b.obsidianRobotClay <= s.clay.count
  {
    s.(ore := s.ore.(count := s.ore.count - b.obsidianRobotOre),
       clay := s.clay.(count := s.clay.count - b.obsidianRobotClay),
       obsidian := s.obsidian.(production := s.obsidian.production + 1))
  }

  function BuildGeode(b: Blueprint, s: State): State
    requires b.geodeRobotOre <= s.ore.count && b.geodeRobotObsidian <= s.obsidian.count
  {
    s.(ore := s.ore.(count := s.ore.count - b.geodeRobotOre),
       obsidian := s.obsidian.(count := s.obsidian.count - b.geodeRobotObsidian),
       geode := s.geode.(production := s.geode.production + 1))
  }

  function Robots(s: State): nat
  {
    s.ore.production + s.clay.production + s.obsidian.production + s.geode.production
  }

  function Held(s: State): nat
  {
    s.ore.count + s.clay.count + s.obsidian.count + s.geode.count
  }

  /** Each build adds exactly one robot, of its own kind, pays exactly that
    * robot's costs and leaves the minute alone. */
  lemma BuildEffects(b: Blueprint, s: State)
    ensures b.oreRobotOre <= s.ore.count ==>
      var t := BuildOre(b, s);
      Robots(t) == Robots(s) + 1 && t.ore.production == s.ore.production + 1
      && Held(t) + b.oreRobotOre == Held(s) && t.minute == s.minute
    ensures b.clayRobotOre <= s.ore.count ==>
      var t := BuildClay(b, s);
      Robots(t) == Robots(s) + 1 && t.clay.production == s.clay.production + 1
      && Held(t) + b.clayRobotOre == Held(s) && t.minute == s.minute
    ensures b.obsidianRobotOre <= s.ore.count && b.obsidianRobotClay <= s.clay.count ==>
      var t := BuildObsidian(b, s);
      Robots(t) == Robots(s) + 1 && t.obsidian.production == s.obsidian.production + 1
      && Held(t) + b.obsidianRobotOre + b.obsidianRobotClay == Held(s) && t.minute == s.minute
    ensures b.geodeRobotOre <= s.ore.count && b.geodeRobotObsidian <= s.obsidian.count ==>
      var t := BuildGeode(b, s);
      Robots(t) == Robots(s) + 1 && t.geode.production == s.geode.production + 1
      && Held(t) + b.geodeRobotOre + b.geodeRobotObsidian == Held(s) && t.minute == s.minute
  {
  }

  /** Collecting adds one minute and each kind's production to its count. */
  lemma CollectEffects(s: State)
    ensures Collect(s).minute == s.minute + 1
    ensures Held(Collect(s)) == Held(s) + Robots(s) && Robots(Collect(s)) == Robots(s)
    ensures Collect(s).geode.count == s.geode.count + s.geode.production
  {
  }

  /** `simulate`: the most geodes reachable from `s` by the end of minute
    * 24. Each minute the four build options are decided on the state before
    * collecting, then every robot collects, then each affordable build and
    * the idle option are searched and the best kept. */
  function Simulate(b: Blueprint, s: State): (r: nat)
    requires s.minute <= MINUTES
    ensures s.minute == MINUTES ==> r == s.geode.count
    ensures r >= s.geode.count
    decreases MINUTES - s.minute
  {
    if s.minute == MINUTES then s.geode.count
    else
      var next := Collect(s);
      var best := 0;
      var best := if CanBuildGeode(b, s) then Max(best, Simulate(b, BuildGeode(b, next))) else best;
      var best := if CanBuildObsidian(b, s) then Max(best, Simulate(b, BuildObsidian(b, next))) else best;
      var best := if CanBuildClay(b, s) then Max(best, Simulate(b, BuildClay(b, next))) else best;
      var best := if CanBuildOre(b, s) then Max(best, Simulate(b, BuildOre(b, next))) else best;
      Max(best, Simulate(b, next))
  }

  /** The search keeps the best option: the result is at least the idle
    * option and every affordable build, and it is one of them. */
  lemma SimulateBest(b: Blueprint, s: State)
    requires s.minute < MINUTES
    ensures var next := Collect(s);
      Simulate(b, s) >= Simulate(b, next)
      && (CanBuildGeode(b, s) ==> Simulate(b, s) >= Simulate(b, BuildGeode(b, next)))
      && (CanBuildObsidian(b, s) ==> Simulate(b, s) >= Simulate(b, BuildObsidian(b, next)))
      && (CanBuildClay(b, s) ==> Simulate(b, s) >= Simulate(b, BuildClay(b, next)))
      && (CanBuildOre(b, s) ==> Simulate(b, s) >= Simulate(b, BuildOre(b, next)))
    ensures var next := Collect(s);
      Simulate(b, s) == Simulate(b, next)
      || (CanBuildGeode(b, s) && Simulate(b, s) == Simulate(b, BuildGeode(b, next)))
      || (CanBuildObsidian(b, s) && Simulate(b, s) == Simulate(b, BuildObsidian(b, next)))
      || (CanBuildClay(b, s) && Simulate(b, s) == Simulate(b, BuildClay(b, next)))
      || (CanBuildOre(b, s) && Simulate(b, s) == Simulate(b, BuildOre(b, next)))
  {
  }

  /** Doing nothing for the remaining minutes already opens the geodes held
    * plus the current geode robots' output, so the search finds at least
    * that many. */
  lemma {:induction false} IdleLowerBound(b: Blueprint, s: State)
    requires s.minute <= MINUTES
    ensures Simulate(b, s) >= s.geode.count + s.geode.production * (MINUTES - s.minute)
    decreases MINUTES - s.minute
  {
    if s.minute < MINUTES {
      var next := Collect(s);
      IdleLowerBound(b, next);
      assert Simulate(b, s) >= Simulate(b, next) by {
        SimulateBest(b, s);
      }
      MulStep(s.geode.production, MINUTES - s.minute);
    }
  }

  lemma MulStep(p: nat, m: nat)
    requires m > 0
    ensures p * m == p + p * (m - 1)
  {
  }

  /** The geodes opened when a geode robot is added in every one of the
    * remaining `minutes`, starting from `count` geodes and `production`
    * robots. */
  function Ceiling(count: nat, production: nat, minutes: nat): nat
    decreases minutes
  {
    if minutes == 0 then count else Ceiling(count + production, production + 1, minutes - 1)
  }

  lemma {:induction false} CeilingMonotone(count: nat, production: nat, more: nat, minutes: nat)
    requires production <= more
    ensures Ceiling(count, production, minutes) <= Ceiling(count, more, minutes)
    decreases minutes
  {
    if minutes > 0 {
      CeilingCount(count + production, count + more, production + 1, minutes - 1);
      CeilingMonotone(count + more, production + 1, more + 1, minutes - 1);
    }
  }

  lemma {:induction false} CeilingCount(count: nat, more: nat, production: nat, minutes: nat)
    requires count <= more
    ensures Ceiling(count, production, minutes) <= Ceiling(more, production, minutes)
    decreases minutes
  {
    if minutes > 0 {
      CeilingCount(count + production, more + production, production + 1, minutes - 1);
    }
  }

  /** No sequence of builds opens more geodes than adding a geode robot
    * every remaining minute, whatever the costs. */
  lemma {:induction false} SimulateCeiling(b: Blueprint, s: State)
    requires s.minute <= MINUTES
    ensures Simulate(b, s) <= Ceiling(s.geode.count, s.geode.production, MINUTES - s.minute)
    decreases MINUTES - s.minute
  {
    if s.minute < MINUTES {
      var t := SimulateChoice(b, s);
      SimulateCeiling(b, t);
      StepBelowCeiling(s, t);
    }
  }

  /** The option the search keeps: a state a minute later, with the
    * geodes collected and at most one more geode robot, that opens as many
    * geodes as `s`. */
  lemma SimulateChoice(b: Blueprint, s: State) returns (t: State)
    requires s.minute < MINUTES
    ensures t.minute == s.minute + 1 && t.geode.count == s.geode.count + s.geode.production
    ensures s.geode.production <= t.geode.production <= s.geode.production + 1
    ensures Simulate(b, s) == Simulate(b, t)
  {
    var next := Collect(s);
    SimulateBest(b, s);
    if Simulate(b, s) == Simulate(b, next) {
      t := next;
    } else if CanBuildGeode(b, s) && Simulate(b, s) == Simulate(b, BuildGeode(b, next)) {
      t := BuildGeode(b, next);
    } else if CanBuildObsidian(b, s) && Simulate(b, s) == Simulate(b, BuildObsidian(b, next)) {
      t := BuildObsidian(b, next);
    } else if CanBuildClay(b, s) && Simulate(b, s) == Simulate(b, BuildClay(b, next)) {
      t := BuildClay(b, next);
    } else {
      t := BuildOre(b, next);
    }
  }

  /** A minute later, with the geodes collected and at most one more geode
    * robot, the ceiling is no higher. */
  lemma StepBelowCeiling(s: State, t: State)
    requires s.minute < MINUTES && t.minute == s.minute + 1
    requires t.geode.count == s.geode.count + s.geode.production
    requires s.geode.production <= t.geode.production <= s.geode.production + 1
    ensures Ceiling(t.geode.count, t.geode.production, MINUTES - t.minute)
         <= Ceiling(s.geode.count, s.geode.production, MINUTES - s.minute)
  {
    var left := MINUTES - t.minute;
    assert MINUTES - s.minute == left + 1;
    assert Ceiling(s.geode.count, s.geode.production, left + 1)
        == Ceiling(t.geode.count, s.geode.production + 1, left);
    CeilingMonotone(t.geode.count, t.geode.production, s.geode.production + 1, left);
  }

  /** The states the search visits keep the production caps: at least one
    * ore robot and at most `max(1, max_ore_cost)`, no more clay robots than
    * an obsidian robot's clay cost, no more obsidian robots than a geode
    * robot's obsidian cost. */
  predicate Capped(b: Blueprint, s: State)
  {
    s.minute <= MINUTES
    && 1 <= s.ore.production <= Max(1, b.maxOreCost)
    && s.clay.production <= b.obsidianRobotClay
    && s.obsidian.production <= b.geodeRobotObsidian
  }

  /** Every move of the search keeps the caps. */
  lemma StepCapped(b: Blueprint, s: State)
    requires Capped(b, s) && s.minute < MINUTES
    ensures Capped(b, Collect(s))
    ensures CanBuildGeode(b, s) ==> Capped(b, BuildGeode(b, Collect(s)))
    ensures CanBuildObsidian(b, s) ==> Capped(b, BuildObsidian(b, Collect(s)))
    ensures CanBuildClay(b, s) ==> Capped(b, BuildClay(b, Collect(s)))
    ensures CanBuildOre(b, s) ==> Capped(b, BuildOre(b, Collect(s)))
  {
  }

  lemma InitialCapped(b: Blueprint)
    ensures Capped(b, Initial())
  {
  }

  /** No blueprint opens more geodes than 276, the geodes of a geode robot built in each of the 24 minutes. */
  const GEODE_CEILING: nat := 276

  lemma CeilingFromStart()
    ensures Ceiling(0, 0, MINUTES) == GEODE_CEILING
  {
    CeilingClosed(0, 0, MINUTES);
  }

  /** The ceiling in closed form: the count, plus `production` for every minute, plus 0 + 1 + ... + (minutes - 1). */
  lemma {:induction false} CeilingClosed(count: nat, production: nat, minutes: nat)
    ensures 2 * Ceiling(count, production, minutes) == 2 * count + 2 * production * minutes + minutes * (minutes - 1)
    decreases minutes
  {
    if minutes > 0 {
      CeilingClosed(count + production, production + 1, minutes - 1);
      var m := minutes - 1;
      assert 2 * (production + 1) * m == 2 * production * m + 2 * m;
      assert minutes * (minutes - 1) == m * (m - 1) + 2 * m;
      assert 2 * production * minutes == 2 * production * m + 2 * production;
    }
  }

  /** `score_blueprint`: the id times the most geodes, at most the id times the geode ceiling. */
  function Score(line: string): (r: nat)
    requires ParseBlueprint(line).Some?
    ensures r <= ParseBlueprint(line).value.id * GEODE_CEILING
  {
    BlueprintScore(ParseBlueprint(line).value)
  }

  /** The score of a parsed blueprint. */
  function BlueprintScore(b: Blueprint): (r: nat)
    ensures r <= b.id * GEODE_CEILING
  {
    var geodes := Simulate(b, Initial());
    MulNat(b.id, geodes);
    ScoreBound(b);
    b.id * geodes
  }

  /** A blueprint's score is at most its id times the geode ceiling. */
  lemma ScoreBound(b: Blueprint)
    ensures b.id * Simulate(b, Initial()) <= b.id * GEODE_CEILING
  {
    var s := Initial();
    var geodes := Simulate(b, s);
    SimulateCeiling(b, s);
    CeilingFromStart();
    MulMonotone(b.id, geodes, GEODE_CEILING);
  }

  lemma MulMonotone(a: nat, x: nat, y: nat)
    requires x <= y
    ensures a * x <= a * y
  {
    assert a * y == a * x + a * (y - x);
    MulNat(a, y - x);
  }

  /** Part A: the sum of the blueprints' scores; every score counts toward it. */
  function PartA(input: seq<string>): (r: nat)
    requires forall k | 0 <= k < |input| :: ParseBlueprint(input[k]).Some?
    ensures input == [] ==> r == 0
    ensures forall k | 0 <= k < |input| :: Score(input[k]) <= r
  {
    var scores := Scores(input);
    SumAtLeastEach(scores);
    Sum(scores)
  }

  /** Every line's score, in order. */
  function Scores(input: seq<string>): (r: seq<nat>)
    requires forall k | 0 <= k < |input| :: ParseBlueprint(input[k]).Some?
    ensures |r| == |input| && forall k | 0 <= k < |input| :: r[k] == Score(input[k])
  {
    seq(|input|, k requires 0 <= k < |input| => Score(input[k]))
  }

  /** Each term of a sum of naturals is at most the sum. */
  lemma SumAtLeastEach(s: seq<nat>)
    ensures forall k | 0 <= k < |s| :: s[k] <= Sum(s)
  {
    forall k | 0 <= k < |s|
      ensures s[k] <= Sum(s)
    {
      SumUpdate(s, k, 0);
    }
  }
}
