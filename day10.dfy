/**
 * Day 10: a CPU with one register X, starting at 1, runs `noop` (one
 * cycle) and `addx v` (two cycles, then X += v). The answer sums, for
 * the cycles 20, 60, ..., 220, the cycle number times the value of X
 * during that cycle.
 */
module Day10 {
  import opened Common

  /** `CYCLES`: the sampled cycles, 40 apart. */
  const CYCLES: seq<nat> := [20, 60, 100, 140, 180, 220]

  /** The cycle counter and the register after some instructions. */
  datatype Cpu = Cpu(cycle: nat, register: int)

  /** A line `execute` accepts: `noop`, or `addx` with an `isize` from byte 5 on. */
  predicate WellFormed(line: string)
  {
    |line| >= 1 && (line[0] == 'n' || (line[0] == 'a' && |line| >= 5 && ParseIsize(line[5..]).Some?))
  }

  /** `execute`: `noop` takes one cycle; `addx v` takes two and adds `v` to the register. */
  function Execute(line: string, cpu: Cpu): (r: Cpu)
    requires WellFormed(line)
    ensures line[0] == 'n' ==> r.cycle == cpu.cycle + 1 && r.register == cpu.register
    ensures line[0] == 'a' ==> r.cycle == cpu.cycle + 2 && r.register == cpu.register + ParseIsize(line[5..]).value
    ensures cpu.cycle < r.cycle <= cpu.cycle + 2
  {
    if line[0] == 'n' then Cpu(cpu.cycle + 1, cpu.register)
    else Cpu(cpu.cycle + 2, cpu.register + ParseIsize(line[5..]).value)
  }

  /** The CPU after the first `k` lines, starting from `cpu`. */
  function RunFrom(lines: seq<string>, k: nat, cpu: Cpu): (r: Cpu)
    requires k <= |lines| && forall l | l in lines :: WellFormed(l)
    ensures r.cycle >= cpu.cycle + k
  {
    if k == 0 then cpu
    else
      assert lines[0] in lines;
      assert forall l | l in lines[1..] :: l in lines;
      RunFrom(lines[1..], k - 1, Execute(lines[0], cpu))
  }

  /** Running `k + 1` lines is running `k` lines and then line `k`. */
  lemma {:induction false} RunStep(lines: seq<string>, k: nat, cpu: Cpu)
    requires k < |lines| && forall l | l in lines :: WellFormed(l)
    ensures lines[k] in lines
    ensures RunFrom(lines, k + 1, cpu) == Execute(lines[k], RunFrom(lines, k, cpu))
  {
    assert lines[0] in lines;
    assert forall l | l in lines[1..] :: l in lines;
    if k > 0 {
      RunStep(lines[1..], k - 1, Execute(lines[0], cpu));
    }
  }

  /**
   * The register during cycle `t`: the value before the instruction that
   * is executing in that cycle, or none when the program ends first.
   */
  function During(lines: seq<string>, cpu: Cpu, t: nat): Option<int>
    requires forall l | l in lines :: WellFormed(l)
  {
    if lines == [] then None
    else
      assert lines[0] in lines;
      assert forall l | l in lines[1..] :: l in lines;
      var next := Execute(lines[0], cpu);
      if t <= next.cycle then Some(cpu.register) else During(lines[1..], next, t)
  }

  /** When line `k` is executing during cycle `t`, the register during `t` is the one before line `k`. */
  lemma {:induction false} DuringAt(lines: seq<string>, k: nat, cpu: Cpu, t: nat)
    requires k < |lines| && forall l | l in lines :: WellFormed(l)
    requires RunFrom(lines, k, cpu).cycle < t <= RunFrom(lines, k + 1, cpu).cycle
    ensures During(lines, cpu, t) == Some(RunFrom(lines, k, cpu).register)
  {
    assert lines[0] in lines;
    assert forall l | l in lines[1..] :: l in lines;
    if k > 0 {
      var next := Execute(lines[0], cpu);
      assert RunFrom(lines, k, cpu) == RunFrom(lines[1..], k - 1, next);
      DuringAt(lines[1..], k - 1, next, t);
    }
  }

  /** A cycle after the whole program has no register value. */
  lemma {:induction false} DuringAfterEnd(lines: seq<string>, cpu: Cpu, t: nat)
    requires forall l | l in lines :: WellFormed(l)
    requires RunFrom(lines, |lines|, cpu).cycle < t
    ensures During(lines, cpu, t) == None
  {
    if lines != [] {
      assert lines[0] in lines;
      assert forall l | l in lines[1..] :: l in lines;
      DuringAfterEnd(lines[1..], Execute(lines[0], cpu), t);
    }
  }

  /** The signal strength at sampled cycle `j`: the cycle times the register during it. */
  function Signal(lines: seq<string>, j: nat): int
    requires j < |CYCLES| && forall l | l in lines :: WellFormed(l)
  {
    match During(lines, Cpu(0, 1), CYCLES[j])
    case Some(x) => x * CYCLES[j]
    case None => 0
  }

  /** The sum of the first `i` signal strengths. */
  function Signals(lines: seq<string>, i: nat): int
    requires i <= |CYCLES| && forall l | l in lines :: WellFormed(l)
  {
    if i == 0 then 0 else Signals(lines, i - 1) + Signal(lines, i - 1)
  }

  /** Sampled cycles the program never reaches add nothing. */
  lemma {:induction false} UnreachedAddNothing(lines: seq<string>, i: nat, j: nat)
    requires i <= j <= |CYCLES| && forall l | l in lines :: WellFormed(l)
    requires i < |CYCLES| ==> RunFrom(lines, |lines|, Cpu(0, 1)).cycle < CYCLES[i]
    ensures Signals(lines, j) == Signals(lines, i)
    decreases j
  {
    if j > i {
      UnreachedAddNothing(lines, i, j - 1);
      DuringAfterEnd(lines, Cpu(0, 1), CYCLES[j - 1]);
    }
  }

  /** The last sampled cycle, after which the loop stops reading. */
  const LAST: nat := 220

  /**
   * The number of lines the loop reads, starting from `cpu`: up to and
   * including the line that takes the cycle counter to `LAST`, or up to
   * and including the first line `execute` rejects, or every line.
   */
  function LinesRead(lines: seq<string>, cpu: Cpu): (r: nat)
    ensures r <= |lines|
    ensures lines != [] ==> r >= 1
  {
    if lines == [] then 0
    else if !WellFormed(lines[0]) then 1
    else
      var next := Execute(lines[0], cpu);
      if next.cycle >= LAST then 1 else 1 + LinesRead(lines[1..], next)
  }

  /** Every line the loop reads is one `execute` accepts. */
  predicate ReadsWellFormed(input: seq<string>)
  {
    forall j | 0 <= j < LinesRead(input, Cpu(0, 1)) :: WellFormed(input[j])
  }

  /** The lines the loop reads, from the start of the input. */
  function ReadLines(input: seq<string>): (r: seq<string>)
    requires ReadsWellFormed(input)
    ensures forall l | l in r :: WellFormed(l)
  {
    var n := LinesRead(input, Cpu(0, 1));
    assert forall l | l in input[..n] :: exists j :: 0 <= j < n && input[j] == l;
    input[..n]
  }

  /**
   * When well-formed lines stop before the end of the input, the lines
   * read have taken the cycle counter to `LAST`.
   */
  lemma {:induction false} ReadStops(lines: seq<string>, cpu: Cpu)
    requires forall j | 0 <= j < LinesRead(lines, cpu) :: WellFormed(lines[j])
    ensures forall l | l in lines[..LinesRead(lines, cpu)] :: WellFormed(l)
    ensures LinesRead(lines, cpu) < |lines| ==>
      RunFrom(lines[..LinesRead(lines, cpu)], LinesRead(lines, cpu), cpu).cycle >= LAST
  {
    var n := LinesRead(lines, cpu);
    assert forall l | l in lines[..n] :: exists j :: 0 <= j < n && lines[j] == l;
    if lines != [] {
      assert WellFormed(lines[0]);
      var next := Execute(lines[0], cpu);
      var prefix := lines[..n];
      assert prefix[0] in prefix;
      if next.cycle < LAST {
        var m := LinesRead(lines[1..], next);
        assert forall j | 0 <= j < m :: lines[1..][j] == lines[j + 1];
        ReadStops(lines[1..], next);
        assert prefix[1..] == lines[1..][..m];
        assert forall l | l in prefix[1..] :: l in prefix;
      }
    }
  }

  /**
   * A cycle up to `LAST` has the same register value in the lines read
   * as in the whole input: the lines after them do not matter.
   */
  lemma {:induction false} DuringRead(lines: seq<string>, cpu: Cpu, t: nat)
    requires forall l | l in lines :: WellFormed(l)
    requires t <= LAST
    ensures forall l | l in lines[..LinesRead(lines, cpu)] :: WellFormed(l)
    ensures During(lines[..LinesRead(lines, cpu)], cpu, t) == During(lines, cpu, t)
  {
    var n := LinesRead(lines, cpu);
    var prefix := lines[..n];
    assert forall l | l in prefix :: l in lines;
    if lines != [] {
      assert lines[0] in lines;
      assert forall l | l in lines[1..] :: l in lines;
      assert prefix[0] == lines[0];
      var next := Execute(lines[0], cpu);
      if t > next.cycle {
        var m := LinesRead(lines[1..], next);
        DuringRead(lines[1..], next, t);
        assert prefix[1..] == lines[1..][..m];
      }
    }
  }

  /** On well-formed input the signals of the lines read are those of the whole input. */
  lemma {:induction false} SignalsRead(input: seq<string>, i: nat)
    requires forall l | l in input :: WellFormed(l)
    requires i <= |CYCLES|
    ensures ReadsWellFormed(input)
    ensures Signals(ReadLines(input), i) == Signals(input, i)
  {
    assert forall j | 0 <= j < LinesRead(input, Cpu(0, 1)) :: input[j] in input;
    if i > 0 {
      SignalsRead(input, i - 1);
      DuringRead(input, Cpu(0, 1), CYCLES[i - 1]);
    }
  }

  /**
   * `part_a`: sample the register before each instruction; when the
   * instruction takes the cycle counter to the next sampled cycle, add
   * the sample times that cycle, and stop after the last one.
   */
  method PartA(input: seq<string>) returns (result: int)
    requires ReadsWellFormed(input)
    ensures result == Signals(ReadLines(input), |CYCLES|)
  {
    ghost var n := LinesRead(input, Cpu(0, 1));
    ghost var lines := ReadLines(input);
    ReadStops(input, Cpu(0, 1));
    var i := 0;
    var cycle := 0;
    var register := 1;
    result := 0;
    for k := 0 to |input|
      invariant k <= n
      invariant Cpu(cycle, register) == RunFrom(lines, k, Cpu(0, 1))
      invariant i < |CYCLES| && cycle < CYCLES[i]
      invariant result == Signals(lines, i)
    {
      assert k < n;
      assert input[k] == lines[k];
      RunStep(lines, k, Cpu(0, 1));
      var value := register;
      var next := Execute(input[k], Cpu(cycle, register));
      cycle, register := next.cycle, next.register;
      if cycle < CYCLES[i] {
        continue;
      }
      DuringAt(lines, k, Cpu(0, 1), CYCLES[i]);
      result := result + value * CYCLES[i];
      i := i + 1;
      if i == |CYCLES| {
        return;
      }
    }
    assert lines == input[..n];
    UnreachedAddNothing(lines, i, |CYCLES|);
  }
}
