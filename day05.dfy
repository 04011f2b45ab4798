/**
 * Day 5: a drawing of crate stacks, an empty line, then instructions
 * "move <count> from <from> to <to>". A crane carries out the moves and
 * the answer spells the top crate of each non-empty stack. The
 * CrateMover 9000 lifts one crate at a time (so a moved run lands
 * reversed), the CrateMover 9001 lifts the run at once.
 */
module Day05 {
  import opened Common

  datatype Crane = CrateMover9000 | CrateMover9001

  /** A move; `from` and `to` are already 0-based. */
  datatype Instruction = Instruction(count: nat, from: nat, to: nat)

  // ---------------------------------------------------------------------
  // Parsing instructions

  /**
   * `Instruction::from_str`: words 2, 4 and 6 (every other word after
   * the first) are the count, the source and the target; source and
   * target are made 0-based by subtracting 1 from a `usize`.
   */
  function ParseInstruction(line: string): (r: Result<Instruction>)
    ensures r.Ok? ==> (|Words(line)| >= 6
      && ParseUsize(Words(line)[1]) == Some(r.value.count)
      && ParseUsize(Words(line)[3]) == Some(r.value.from + 1)
      && ParseUsize(Words(line)[5]) == Some(r.value.to + 1))
    ensures |Words(line)| < 6 ==> r.Err?
    ensures (|Words(line)| >= 6
      && ParseUsize(Words(line)[1]).Some? && ParseUsize(Words(line)[3]).Some? && ParseUsize(Words(line)[5]).Some?
      && ParseUsize(Words(line)[3]).value >= 1 && ParseUsize(Words(line)[5]).value >= 1) ==> r.Ok?
  {
    var words := Words(line);
    var missing := line + " in not a valid instruction";
    if |words| < 2 then Err(missing)
    else match ParseUsize(words[1])
      case None => Err("invalid digit found in string")
      case Some(count) =>
        if |words| < 4 then Err(missing)
        else match ParseUsize(words[3])
          case None => Err("invalid digit found in string")
          case Some(from) =>
            if from == 0 then Err("attempt to subtract with overflow")
            else if |words| < 6 then Err(missing)
            else match ParseUsize(words[5])
              case None => Err("invalid digit found in string")
              case Some(to) =>
                if to == 0 then Err("attempt to subtract with overflow")
                else Ok(Instruction(count, from - 1, to - 1))
  }

  /** An instruction as the puzzle writes it, with 1-based stacks. */
  function FormatInstruction(ins: Instruction): string
  {
    Spaced(["move", NatToString(ins.count), "from", NatToString(ins.from + 1), "to", NatToString(ins.to + 1)])
  }

  /** A number is written as a non-empty word. */
  lemma NumberWord(n: nat)
    ensures |NatToString(n)| > 0 && forall i | 0 <= i < |NatToString(n)| :: !IsAsciiWhitespace(NatToString(n)[i])
  {
  }

  /** An instruction written out splits into its six words. */
  lemma FormatWords(ins: Instruction)
    ensures Words(FormatInstruction(ins))
      == ["move", NatToString(ins.count), "from", NatToString(ins.from + 1), "to", NatToString(ins.to + 1)]
  {
    NumberWord(ins.count);
    NumberWord(ins.from + 1);
    NumberWord(ins.to + 1);
    WordsSpaced(["move", NatToString(ins.count), "from", NatToString(ins.from + 1), "to", NatToString(ins.to + 1)]);
  }

  /** An instruction written out reads back as itself. */
  lemma ParseFormatInstruction(ins: Instruction)
    requires ins.count <= USIZE_MAX && ins.from < USIZE_MAX && ins.to < USIZE_MAX
    ensures ParseInstruction(FormatInstruction(ins)) == Ok(ins)
  {
    var words := Words(FormatInstruction(ins));
    FormatWords(ins);
    ParseNatToString(ins.count, USIZE_MAX);
    ParseNatToString(ins.from + 1, USIZE_MAX);
    ParseNatToString(ins.to + 1, USIZE_MAX);
    assert ParseUsize(words[1]) == Some(ins.count);
    assert ParseUsize(words[3]) == Some(ins.from + 1);
    assert ParseUsize(words[5]) == Some(ins.to + 1);
  }

  // ---------------------------------------------------------------------
  // Moving crates

  /**
   * The source indexes both stacks and computes `from.len() - count` only
   * when the stacks differ; a move between one stack and itself is
   * dropped before either is looked at.
   */
  predicate CanMove(columns: seq<seq<char>>, ins: Instruction)
  {
    ins.from != ins.to ==> ins.from < |columns| && ins.to < |columns| && ins.count <= |columns[ins.from]|
  }

  /**
   * `move_crates`: drain the top `count` crates of `from` and extend `to`
   * with them, reversed for the CrateMover 9000; a move from a stack to
   * itself changes nothing (`borrow_stacks` gives `None`).
   */
  function Move(crane: Crane, columns: seq<seq<char>>, ins: Instruction): (r: seq<seq<char>>)
    requires CanMove(columns, ins)
    ensures |r| == |columns|
    ensures ins.from == ins.to ==> r == columns
    ensures ins.from != ins.to ==>
      var moved := columns[ins.from][|columns[ins.from]| - ins.count..];
      && r[ins.from] == columns[ins.from][..|columns[ins.from]| - ins.count]
      && r[ins.to] == columns[ins.to] + (if crane == CrateMover9000 then Reverse(moved) else moved)
      && forall i | 0 <= i < |columns| && i != ins.from && i != ins.to :: r[i] == columns[i]
  {
    if ins.from == ins.to then columns
    else
      var source := columns[ins.from];
      var cut := |source| - ins.count;
      var moved := source[cut..];
      var lifted := if crane == CrateMover9000 then Reverse(moved) else moved;
      columns[ins.from := source[..cut]][ins.to := columns[ins.to] + lifted]
  }

  /** All crates, stack after stack. */
  function Crates(columns: seq<seq<char>>): seq<char>
  {
    if columns == [] then [] else Crates(columns[..|columns| - 1]) + columns[|columns| - 1]
  }

  lemma {:induction false} CratesUpdate(columns: seq<seq<char>>, i: nat, column: seq<char>)
    requires i < |columns|
    ensures multiset(Crates(columns[i := column])) + multiset(columns[i]) == multiset(Crates(columns)) + multiset(column)
  {
    var n := |columns|;
    if i < n - 1 {
      CratesUpdate(columns[..n - 1], i, column);
      assert columns[i := column][..n - 1] == columns[..n - 1][i := column];
      assert columns[..n - 1][i] == columns[i];
    } else {
      assert columns[i := column][..n - 1] == columns[..n - 1];
    }
  }

  lemma Cancel(a: multiset<char>, b: multiset<char>, c: multiset<char>, d: multiset<char>)
    requires a + b + c == d + b
    ensures a + c == d
  {
    forall x
      ensures (a + c)[x] == d[x]
    {
      assert (a + b + c)[x] == (d + b)[x];
    }
  }

  /** Taking `moved` off one stack and putting a rearrangement of it on another keeps the crates. */
  lemma Transfer(columns: seq<seq<char>>, from: nat, to: nat, rest: seq<char>, moved: seq<char>, lifted: seq<char>)
    requires from < |columns| && to < |columns| && from != to
    requires columns[from] == rest + moved && multiset(lifted) == multiset(moved)
    ensures multiset(Crates(columns[from := rest][to := columns[to] + lifted])) == multiset(Crates(columns))
  {
    var step := columns[from := rest];
    var target := columns[to] + lifted;
    CratesUpdate(columns, from, rest);
    Cancel(multiset(Crates(step)), multiset(rest), multiset(moved), multiset(Crates(columns)));
    CratesUpdate(step, to, target);
    assert step[to] == columns[to];
    assert multiset(target) == multiset(columns[to]) + multiset(lifted);
    Cancel(multiset(Crates(step)), multiset(columns[to]), multiset(lifted), multiset(Crates(step[to := target])));
  }

  /** No crate appears or disappears: a move permutes the crates. */
  lemma MoveKeepsCrates(crane: Crane, columns: seq<seq<char>>, ins: Instruction)
    requires CanMove(columns, ins)
    ensures multiset(Crates(Move(crane, columns, ins))) == multiset(Crates(columns))
  {
    if ins.from != ins.to {
      var source := columns[ins.from];
      var cut := |source| - ins.count;
      var moved := source[cut..];
      var lifted := if crane == CrateMover9000 then Reverse(moved) else moved;
      ReverseMultiset(moved);
      assert source == source[..cut] + moved;
      Transfer(columns, ins.from, ins.to, source[..cut], moved, lifted);
    }
  }

  /**
   * The CrateMover 9000 moving `count` crates is the same as moving one
   * crate, then the other `count - 1`: it lifts one crate at a time.
   */
  lemma OneAtATime(columns: seq<seq<char>>, ins: Instruction)
    requires CanMove(columns, ins) && ins.from != ins.to && ins.count >= 1
    ensures CanMove(Move(CrateMover9000, columns, Instruction(1, ins.from, ins.to)), Instruction(ins.count - 1, ins.from, ins.to))
    ensures Move(CrateMover9000, columns, ins)
         == Move(CrateMover9000, Move(CrateMover9000, columns, Instruction(1, ins.from, ins.to)),
                 Instruction(ins.count - 1, ins.from, ins.to))
  {
    LiftOneLeaves(columns, ins);
    var once := Move(CrateMover9000, columns, Instruction(1, ins.from, ins.to));
    var twice := Move(CrateMover9000, once, Instruction(ins.count - 1, ins.from, ins.to));
    var direct := Move(CrateMover9000, columns, ins);
    forall i | 0 <= i < |columns|
      ensures twice[i] == direct[i]
    {
      if i == ins.from {
        SourceOneByOne(columns, ins, once, twice, direct);
      } else if i == ins.to {
        TargetOneByOne(columns, ins, once, twice, direct);
      } else {
        assert twice[i] == once[i] == columns[i];
      }
    }
    SameStacks(twice, direct);
  }

  /** The stack lifted from ends the same whether the crates go one, then `count - 1`, or all at once. */
  lemma SourceOneByOne(columns: seq<seq<char>>, ins: Instruction, once: seq<seq<char>>, twice: seq<seq<char>>, direct: seq<seq<char>>)
    requires CanMove(columns, ins) && ins.from != ins.to && ins.count >= 1
    requires once == Move(CrateMover9000, columns, Instruction(1, ins.from, ins.to))
    requires CanMove(once, Instruction(ins.count - 1, ins.from, ins.to))
    requires twice == Move(CrateMover9000, once, Instruction(ins.count - 1, ins.from, ins.to))
    requires direct == Move(CrateMover9000, columns, ins)
    ensures twice[ins.from] == direct[ins.from]
  {
    FromColumnOneByOne(columns[ins.from], once[ins.from], twice[ins.from], direct[ins.from], ins.count);
  }

  /** The stack lifted onto ends the same whether the crates come one, then `count - 1`, or all at once. */
  lemma TargetOneByOne(columns: seq<seq<char>>, ins: Instruction, once: seq<seq<char>>, twice: seq<seq<char>>, direct: seq<seq<char>>)
    requires CanMove(columns, ins) && ins.from != ins.to && ins.count >= 1
    requires once == Move(CrateMover9000, columns, Instruction(1, ins.from, ins.to))
    requires CanMove(once, Instruction(ins.count - 1, ins.from, ins.to))
    requires twice == Move(CrateMover9000, once, Instruction(ins.count - 1, ins.from, ins.to))
    requires direct == Move(CrateMover9000, columns, ins)
    ensures twice[ins.to] == direct[ins.to]
  {
    var f, t, c := ins.from, ins.to, ins.count;
    Moved9000(columns, Instruction(1, f, t), once);
    Moved9000(once, Instruction(c - 1, f, t), twice);
    Moved9000(columns, ins, direct);
    ToColumnOneByOne(columns[f], columns[t], once[f], once[t], twice[t], direct[t], ins.count);
  }

  /** The two stacks a move of the CrateMover 9000 between different stacks changes. */
  lemma Moved9000(columns: seq<seq<char>>, ins: Instruction, r: seq<seq<char>>)
    requires CanMove(columns, ins) && ins.from != ins.to && r == Move(CrateMover9000, columns, ins)
    ensures r[ins.from] == columns[ins.from][..|columns[ins.from]| - ins.count]
    ensures r[ins.to] == columns[ins.to] + Reverse(columns[ins.from][|columns[ins.from]| - ins.count..])
  {
  }

  /** After the top crate is lifted, the other `count - 1` can still be lifted. */
  lemma LiftOneLeaves(columns: seq<seq<char>>, ins: Instruction)
    requires CanMove(columns, ins) && ins.from != ins.to && ins.count >= 1
    ensures CanMove(Move(CrateMover9000, columns, Instruction(1, ins.from, ins.to)), Instruction(ins.count - 1, ins.from, ins.to))
  {
  }

  /** The stack lifted from keeps the same crates whether they go one, then `c - 1`, or `c` at once. */
  lemma FromColumnOneByOne(source: seq<char>, once: seq<char>, twice: seq<char>, direct: seq<char>, c: nat)
    requires 1 <= c <= |source|
    requires once == source[..|source| - 1] && twice == once[..|once| - (c - 1)]
    requires direct == source[..|source| - c]
    ensures twice == direct
  {
  }

  /** The stack lifted onto ends with the same crates whether they come one, then `c - 1`, or `c` at once. */
  lemma ToColumnOneByOne(source: seq<char>, target: seq<char>, left: seq<char>, once: seq<char>,
                         twice: seq<char>, direct: seq<char>, c: nat)
    requires 1 <= c <= |source| && left == source[..|source| - 1]
    requires once == target + Reverse(source[|source| - 1..])
    requires twice == once + Reverse(left[|left| - (c - 1)..])
    requires direct == target + Reverse(source[|source| - c..])
    ensures twice == direct
  {
    LiftOneThenRest(source, left, c);
    AppendInTwo(target, Reverse(source[|source| - 1..]), Reverse(left[|left| - (c - 1)..]), Reverse(source[|source| - c..]));
  }

  /** Two equally long rows of stacks that agree stack by stack are equal. */
  lemma SameStacks(a: seq<seq<char>>, b: seq<seq<char>>)
    requires |a| == |b| && forall i | 0 <= i < |a| :: a[i] == b[i]
    ensures a == b
  {
  }

  /** Appending two parts of `whole` one after the other appends `whole`. */
  lemma AppendInTwo<T>(s: seq<T>, a: seq<T>, b: seq<T>, whole: seq<T>)
    requires a + b == whole
    ensures (s + a) + b == s + whole
  {
  }

  /** Taking the top crate off, then `c - 1` more, takes the top `c` crates, reversed. */
  lemma LiftOneThenRest(s: seq<char>, p: seq<char>, c: nat)
    requires 1 <= c <= |s| && p == s[..|s| - 1]
    ensures p[..|p| - (c - 1)] == s[..|s| - c]
    ensures Reverse(s[|s| - 1..]) + Reverse(p[|p| - (c - 1)..]) == Reverse(s[|s| - c..])
  {
    var n := |s|;
    var u := s[n - c..];
    assert p[|p| - (c - 1)..] == u[..c - 1];
    assert s[n - 1..] == [u[c - 1]];
    assert Reverse(s[n - 1..]) == [u[c - 1]];
  }

  /** For a single crate both cranes do the same. */
  lemma SingleCrateSame(columns: seq<seq<char>>, from: nat, to: nat)
    requires CanMove(columns, Instruction(1, from, to))
    ensures Move(CrateMover9000, columns, Instruction(1, from, to)) == Move(CrateMover9001, columns, Instruction(1, from, to))
  {
    if from != to {
      var source := columns[from];
      assert Reverse(source[|source| - 1..]) == source[|source| - 1..];
    }
  }

  // ---------------------------------------------------------------------
  // Reading the drawing

  /** The byte of the drawing line at crate position `i` (byte `1 + 4i`), if the line has one. */
  predicate HasCrate(line: string, i: nat)
  {
    1 + 4 * i < |line| && line[1 + 4 * i] != ' '
  }

  /** `(lines[0].len() + 1) / 4`: the number of stacks. */
  function ColumnCount(lines: seq<string>): nat
    requires |lines| > 0
  {
    (|lines[0]| + 1) / 4
  }

  /** Every crate of the drawing (all lines but the label line) falls in a stack that exists. */
  predicate CratesFit(lines: seq<string>)
    requires |lines| > 0
  {
    forall k, i | 0 <= k < |lines| - 1 && 0 <= i < |lines[k]| && HasCrate(lines[k], i) :: i < ColumnCount(lines)
  }

  /**
   * Stack `i` after reading the `k` drawing lines just above the label
   * line, bottom up: the non-blank bytes at position `1 + 4i`.
   */
  function ColumnUpTo(lines: seq<string>, i: nat, k: nat): (r: seq<char>)
    requires k < |lines|
    ensures forall c | c in r :: c != ' '
  {
    if k == 0 then []
    else
      var line := lines[|lines| - 1 - k];
      ColumnUpTo(lines, i, k - 1) + (if HasCrate(line, i) then [line[1 + 4 * i]] else [])
  }

  /** The stacks `Stacks::new` builds. */
  function Build(lines: seq<string>): (r: seq<seq<char>>)
    requires |lines| > 0
    ensures |r| == ColumnCount(lines)
  {
    var height := |lines| - 1;
    seq(ColumnCount(lines), i requires 0 <= i => ColumnUpTo(lines, i, height))
  }

  /** The letters on top of the non-empty stacks, in stack order. */
  function Tops(columns: seq<seq<char>>): (r: string)
    ensures |r| <= |columns|
    ensures (forall i | 0 <= i < |columns| :: columns[i] != []) ==>
      |r| == |columns| && forall i | 0 <= i < |columns| :: r[i] == columns[i][|columns[i]| - 1]
  {
    if columns == [] then []
    else
      var last := columns[|columns| - 1];
      Tops(columns[..|columns| - 1]) + (if last == [] then [] else [last[|last| - 1]])
  }

  /** One stack gives its top crate, or nothing when it is empty. */
  lemma TopsSingle(column: seq<char>)
    ensures Tops([column]) == if column == [] then [] else [column[|column| - 1]]
  {
    assert [column][..0] == [];
  }

  /** The tops of stacks side by side are the tops of the first, then those of the second. */
  lemma {:induction false} TopsAppend(a: seq<seq<char>>, b: seq<seq<char>>)
    ensures Tops(a + b) == Tops(a) + Tops(b)
    decreases |b|
  {
    if b == [] {
      assert a + b == a;
    } else {
      var n := |b| - 1;
      assert (a + b)[..|a + b| - 1] == a + b[..n];
      assert (a + b)[|a + b| - 1] == b[n];
      TopsAppend(a, b[..n]);
    }
  }

  // ---------------------------------------------------------------------
  // The stacks, changed in place

  class Stacks {
    var columns: seq<seq<char>>

    /** `Stacks::new`: read the drawing bottom up, skipping the label line and blanks. */
    constructor (lines: seq<string>)
      requires |lines| > 0 && CratesFit(lines)
      ensures columns == Build(lines)
    {
      var count := ColumnCount(lines);
      var built: seq<seq<char>> := seq(count, i => []);
      for k := 1 to |lines|
        invariant |built| == count
        invariant forall i | 0 <= i < count :: built[i] == ColumnUpTo(lines, i, k - 1)
      {
        built := PushRow(lines, k, built);
      }
      columns := built;
    }

    /** `move_crates` of the given crane, on these stacks. */
    method MoveCrates(crane: Crane, ins: Instruction)
      requires CanMove(columns, ins)
      modifies this
      ensures columns == Move(crane, old(columns), ins)
    {
      if ins.from == ins.to {
        return;
      }
      var source := columns[ins.from];
      var cut := |source| - ins.count;
      var moved := source[cut..];
      if crane == CrateMover9000 {
        moved := Reverse(moved);
      }
      columns := columns[ins.from := source[..cut]];
      columns := columns[ins.to := columns[ins.to] + moved];
    }

    function Top(): string
      reads this
    {
      Tops(columns)
    }
  }

  /** One drawing line (the `k`-th above the label line): push its crates onto their stacks. */
  method PushRow(lines: seq<string>, k: nat, built: seq<seq<char>>) returns (built': seq<seq<char>>)
    requires 1 <= k < |lines| && CratesFit(lines) && |built| == ColumnCount(lines)
    requires forall i | 0 <= i < |built| :: built[i] == ColumnUpTo(lines, i, k - 1)
    ensures |built'| == |built|
    ensures forall i | 0 <= i < |built'| :: built'[i] == ColumnUpTo(lines, i, k)
  {
    var line := lines[|lines| - 1 - k];
    built' := built;
    var i := 0;
    while 1 + 4 * i < |line|
      invariant |built'| == |built|
      invariant forall j | 0 <= j < |built'| :: built'[j] == (if j < i then ColumnUpTo(lines, j, k) else ColumnUpTo(lines, j, k - 1))
      decreases |line| - 4 * i
    {
      if line[1 + 4 * i] != ' ' {
        CrateOnLine(lines, k, i);
        built' := built'[i := built'[i] + [line[1 + 4 * i]]];
      }
      i := i + 1;
    }
    NothingBeyondLine(lines, k);
  }

  /** A crate on drawing line `k` at stack `i` lands on top of that stack, which exists. */
  lemma CrateOnLine(lines: seq<string>, k: nat, i: nat)
    requires 1 <= k < |lines| && CratesFit(lines)
    requires HasCrate(lines[|lines| - 1 - k], i)
    ensures i < ColumnCount(lines)
    ensures ColumnUpTo(lines, i, k) == ColumnUpTo(lines, i, k - 1) + [lines[|lines| - 1 - k][1 + 4 * i]]
  {
  }

  /** Stacks past the end of drawing line `k` get nothing from it. */
  lemma NothingBeyondLine(lines: seq<string>, k: nat)
    requires 1 <= k < |lines|
    ensures forall j | 1 + 4 * j >= |lines[|lines| - 1 - k]| :: ColumnUpTo(lines, j, k) == ColumnUpTo(lines, j, k - 1)
  {
  }

  // ---------------------------------------------------------------------
  // Solving

  /** The index of the first empty line. */
  function FirstEmpty(lines: seq<string>): (r: Option<nat>)
    ensures r.Some? ==> r.value < |lines| && lines[r.value] == [] && forall k | 0 <= k < r.value :: lines[k] != []
    ensures r.None? ==> forall k | 0 <= k < |lines| :: lines[k] != []
  {
    if lines == [] then None
    else if lines[0] == [] then Some(0)
    else match FirstEmpty(lines[1..])
      case None => None
      case Some(k) => Some(k + 1)
  }

  /**
   * One instruction line applied to the stacks: a parse error is returned,
   * and so are the panics of a move (a stack index out of range, or more
   * crates than the source stack holds).
   */
  function Step(crane: Crane, columns: seq<seq<char>>, line: string): (r: Result<seq<seq<char>>>)
    ensures r.Ok? ==> (ParseInstruction(line).Ok? && CanMove(columns, ParseInstruction(line).value)
      && r.value == Move(crane, columns, ParseInstruction(line).value))
  {
    match ParseInstruction(line)
    case Err(m) => Err(m)
    case Ok(ins) =>
      if ins.from != ins.to && (ins.from >= |columns| || ins.to >= |columns|) then Err("index out of bounds")
      else if ins.from != ins.to && ins.count > |columns[ins.from]| then Err("attempt to subtract with overflow")
      else Ok(Move(crane, columns, ins))
  }

  /** All instruction lines in order; the first error stops the run. */
  function Run(crane: Crane, columns: seq<seq<char>>, lines: seq<string>): (r: Result<seq<seq<char>>>)
    ensures r.Ok? ==> multiset(Crates(r.value)) == multiset(Crates(columns))
    decreases |lines|
  {
    if lines == [] then Ok(columns)
    else match Step(crane, columns, lines[0])
      case Err(m) => Err(m)
      case Ok(next) =>
        MoveKeepsCrates(crane, columns, ParseInstruction(lines[0]).value);
        Run(crane, next, lines[1..])
  }

  /** A line that does not apply stops the run with its error. */
  lemma RunStops(crane: Crane, columns: seq<seq<char>>, lines: seq<string>)
    requires lines != [] && Step(crane, columns, lines[0]).Err?
    ensures Run(crane, columns, lines) == Err(Step(crane, columns, lines[0]).message)
  {
  }

  /** What `solve` returns: the tops after running the instructions on the drawing. */
  function SolveResult(input: seq<string>, crane: Crane): Result<string>
  {
    match FirstEmpty(input)
    case None => Err("Input doesn't contain a new line")
    case Some(index) =>
      if index == 0 then Err("index out of bounds")
      else if !CratesFit(input[..index]) then Err("index out of bounds")
      else match Run(crane, Build(input[..index]), input[index + 1..])
        case Err(m) => Err(m)
        case Ok(columns) => Ok(Tops(columns))
  }

  /** `solve`: build the stacks, apply every instruction with the crane, read the tops. */
  method Solve(input: seq<string>, crane: Crane) returns (r: Result<string>)
    ensures r == SolveResult(input, crane)
  {
    var position := FirstEmpty(input);
    if position.None? {
      return Err("Input doesn't contain a new line");
    }
    var index := position.value;
    if index == 0 || !CratesFit(input[..index]) {
      return Err("index out of bounds");
    }
    var stacks := new Stacks(input[..index]);
    var rest := input[index + 1..];
    ghost var outcome := Run(crane, Build(input[..index]), rest);
    assert SolveResult(input, crane) == if outcome.Err? then Err(outcome.message) else Ok(Tops(outcome.value));
    for k := 0 to |rest|
      invariant Run(crane, stacks.columns, rest[k..]) == outcome
    {
      var ins := ParseInstruction(rest[k]);
      if ins.Err? {
        RunStops(crane, stacks.columns, rest[k..]);
        return Err(ins.message);
      }
      var i := ins.value;
      if i.from != i.to && (i.from >= |stacks.columns| || i.to >= |stacks.columns|) {
        RunStops(crane, stacks.columns, rest[k..]);
        return Err("index out of bounds");
      }
      if i.from != i.to && i.count > |stacks.columns[i.from]| {
        RunStops(crane, stacks.columns, rest[k..]);
        return Err("attempt to subtract with overflow");
      }
      assert rest[k..][1..] == rest[k + 1..];
      stacks.MoveCrates(crane, i);
    }
    assert rest[|rest|..] == [];
    r := Ok(stacks.Top());
  }
}
