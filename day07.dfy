/**
 * Day 7: a terminal session walks a file system depth first with `$ cd`
 * and lists file sizes. Every `cd` into a directory opens a new
 * directory, numbered in order of opening; a file's size is added to
 * every directory on the current path. Part A sums the small
 * directories, part B finds the smallest directory whose deletion frees
 * enough space.
 */
module Day07 {
  import opened Common

  predicate StartsWithDigit(line: string) { |line| > 0 && IsDigit(line[0]) }

  predicate IsCd(line: string) { |line| >= 4 && line[..4] == "$ cd" }

  /**
   * The lines the source reads without panicking: a file line has a space
   * and a `usize` before it, and a `cd` line has a target after "$ cd ".
   */
  predicate WellFormed(line: string)
  {
    (StartsWithDigit(line) ==>
      SplitOnce(line, ' ').Some? && ParseUsize(SplitOnce(line, ' ').value.0).Some?)
    && (!StartsWithDigit(line) && IsCd(line) ==> |line| >= 5)
  }

  /** The size in a file line: the number before the first space. */
  function FileSize(line: string): nat
    requires WellFormed(line) && StartsWithDigit(line)
  {
    ParseUsize(SplitOnce(line, ' ').value.0).value
  }

  /**
   * The walk so far: the stack of open directory indices, the size of
   * every directory opened, and (for the proofs) the directory each one
   * was opened from, -1 for one opened with an empty stack.
   */
  datatype Walk = Walk(stack: seq<nat>, sizes: seq<nat>, parents: seq<int>)

  /** `sizes` with `size` added at every index on `stack`. */
  function AddToPath(sizes: seq<nat>, stack: seq<nat>, size: nat): (r: seq<nat>)
    ensures |r| == |sizes|
    ensures forall k | 0 <= k < |sizes| :: r[k] == if k in stack then sizes[k] + size else sizes[k]
  {
    seq(|sizes|, k requires 0 <= k < |sizes| => if k in stack then sizes[k] + size else sizes[k])
  }

  /** One line of the session, as `compute_directory_sizes` handles it. */
  function StepLine(w: Walk, line: string): Walk
    requires WellFormed(line)
  {
    if StartsWithDigit(line) then Walk(w.stack, AddToPath(w.sizes, w.stack, FileSize(line)), w.parents)
    else if IsCd(line) then
      if line[5..] == ".." then
        Walk(if w.stack == [] then [] else w.stack[..|w.stack| - 1], w.sizes, w.parents)
      else
        Walk(w.stack + [|w.sizes|], w.sizes + [0],
          w.parents + [if w.stack == [] then -1 else w.stack[|w.stack| - 1] as int])
    else w
  }

  /** The walk after the given lines. */
  function Walks(lines: seq<string>): Walk
    requires forall l | l in lines :: WellFormed(l)
  {
    if lines == [] then Walk([], [], [])
    else
      assert forall l | l in lines[..|lines| - 1] :: l in lines;
      StepLine(Walks(lines[..|lines| - 1]), lines[|lines| - 1])
  }

  /**
   * What every walk satisfies: the stack holds strictly increasing
   * directory indices, it is a path (each entry was opened from the one
   * below it, the bottom one from nothing), and every directory is at
   * least as large as any directory opened from it.
   */
  ghost predicate Valid(w: Walk)
  {
    |w.parents| == |w.sizes|
    && (forall i, j | 0 <= i < j < |w.stack| :: w.stack[i] < w.stack[j])
    && (forall i | 0 <= i < |w.stack| :: w.stack[i] < |w.sizes|)
    && (|w.stack| > 0 ==> w.parents[w.stack[0]] == -1)
    && (forall i | 0 < i < |w.stack| :: w.parents[w.stack[i]] == w.stack[i - 1] as int)
    && forall j | 0 <= j < |w.sizes| :: w.parents[j] == -1
         || (0 <= w.parents[j] < j && w.sizes[w.parents[j]] >= w.sizes[j])
  }

  /** A file line adds to the directories on the path only, so parents stay at least as large. */
  lemma FileKeepsValid(w: Walk, size: nat)
    requires Valid(w)
    ensures Valid(Walk(w.stack, AddToPath(w.sizes, w.stack, size), w.parents))
  {
    var v := Walk(w.stack, AddToPath(w.sizes, w.stack, size), w.parents);
    forall j | 0 <= j < |v.sizes| && w.parents[j] != -1
      ensures 0 <= v.parents[j] < j && v.sizes[v.parents[j]] >= v.sizes[j]
    {
      if j in w.stack {
        var i :| 0 <= i < |w.stack| && w.stack[i] == j;
        assert i > 0;
        assert w.parents[j] == w.stack[i - 1] as int;
      }
    }
  }

  /** Opening a directory pushes a new, larger index whose parent is the old top. */
  lemma PushKeepsValid(w: Walk)
    requires Valid(w)
    ensures Valid(Walk(w.stack + [|w.sizes|], w.sizes + [0],
      w.parents + [if w.stack == [] then -1 else w.stack[|w.stack| - 1] as int]))
  {
  }

  lemma PopKeepsValid(w: Walk)
    requires Valid(w)
    ensures Valid(Walk(if w.stack == [] then [] else w.stack[..|w.stack| - 1], w.sizes, w.parents))
  {
  }

  lemma StepValid(w: Walk, line: string)
    requires Valid(w) && WellFormed(line)
    ensures Valid(StepLine(w, line))
  {
    if StartsWithDigit(line) {
      FileKeepsValid(w, FileSize(line));
    } else if IsCd(line) {
      if line[5..] == ".." {
        PopKeepsValid(w);
      } else {
        PushKeepsValid(w);
      }
    }
  }

  lemma {:induction false} WalksValid(lines: seq<string>)
    requires forall l | l in lines :: WellFormed(l)
    ensures Valid(Walks(lines))
  {
    if lines != [] {
      assert forall l | l in lines[..|lines| - 1] :: l in lines;
      WalksValid(lines[..|lines| - 1]);
      StepValid(Walks(lines[..|lines| - 1]), lines[|lines| - 1]);
    }
  }

  /** Following parents from `j` stays within sizes no larger than the root's. */
  lemma {:induction false} BelowRoot(w: Walk, j: nat)
    requires Valid(w) && j < |w.sizes|
    requires forall k | 0 < k < |w.sizes| :: w.parents[k] != -1
    ensures w.sizes[j] <= w.sizes[0]
    decreases j
  {
    if j > 0 {
      BelowRoot(w, w.parents[j] as nat);
    }
  }

  /**
   * When the session never leaves the first directory (every later one
   * is opened from some directory), the first directory is the largest.
   */
  lemma RootIsLargest(lines: seq<string>)
    requires forall l | l in lines :: WellFormed(l)
    requires forall k | 0 < k < |Walks(lines).parents| :: Walks(lines).parents[k] != -1
    ensures forall j | 0 <= j < |Walks(lines).sizes| :: Walks(lines).sizes[j] <= Walks(lines).sizes[0]
  {
    var w := Walks(lines);
    WalksValid(lines);
    assert |w.parents| == |w.sizes|;
    assert forall k | 0 < k < |w.sizes| :: w.parents[k] != -1;
    forall j | 0 <= j < |w.sizes| {
      BelowRoot(w, j);
    }
  }

  /** `compute_directory_sizes`: replay the session on a path stack and a size list. */
  method ComputeDirectorySizes(lines: seq<string>) returns (sizes: seq<nat>)
    requires forall l | l in lines :: WellFormed(l)
    ensures sizes == Walks(lines).sizes
  {
    var workingDirectory: seq<nat> := [];
    sizes := [];
    for k := 0 to |lines|
      invariant workingDirectory == Walks(lines[..k]).stack
      invariant sizes == Walks(lines[..k]).sizes
    {
      assert lines[..k + 1][..k] == lines[..k];
      assert forall l | l in lines[..k] :: l in lines;
      WalksValid(lines[..k]);
      var line := lines[k];
      assert line in lines;
      if StartsWithDigit(line) {
        var size := FileSize(line);
        sizes := AddSize(sizes, workingDirectory, size);
      } else if IsCd(line) {
        if line[5..] == ".." {
          if workingDirectory != [] {
            workingDirectory := workingDirectory[..|workingDirectory| - 1];
          }
        } else {
          workingDirectory := workingDirectory + [|sizes|];
          sizes := sizes + [0];
        }
      }
    }
    assert lines[..|lines|] == lines;
  }

  /** `for &i in &working_directory { directory_sizes[i] += size }`. */
  method AddSize(sizes: seq<nat>, stack: seq<nat>, size: nat) returns (sizes': seq<nat>)
    requires forall i, j | 0 <= i < j < |stack| :: stack[i] < stack[j]
    requires forall i | 0 <= i < |stack| :: stack[i] < |sizes|
    ensures sizes' == AddToPath(sizes, stack, size)
  {
    sizes' := sizes;
    for j := 0 to |stack|
      invariant |sizes'| == |sizes|
      invariant forall k | 0 <= k < |sizes| :: sizes'[k] == if k in stack[..j] then sizes[k] + size else sizes[k]
    {
      assert stack[j] !in stack[..j];
      assert forall k | 0 <= k < |sizes| :: k in stack[..j + 1] <==> k in stack[..j] || k == stack[j];
      sizes' := sizes'[stack[j] := sizes'[stack[j]] + size];
    }
    assert stack[..|stack|] == stack;
  }

  /** The sum of the sizes of at most 100000. */
  function SmallTotal(sizes: seq<nat>): (r: nat)
    ensures r <= 100000 * |sizes|
    ensures (forall k | 0 <= k < |sizes| :: sizes[k] > 100000) ==> r == 0
  {
    if sizes == [] then 0
    else
      var last := sizes[|sizes| - 1];
      SmallTotal(sizes[..|sizes| - 1]) + (if last <= 100000 then last else 0)
  }

  /** `part_a`: add up every directory of size at most 100000. */
  method PartA(lines: seq<string>) returns (r: nat)
    requires forall l | l in lines :: WellFormed(l)
    ensures r == SmallTotal(Walks(lines).sizes)
  {
    var sizes := ComputeDirectorySizes(lines);
    r := SmallTotal(sizes);
  }

  /** The smallest of the sizes that are at least `bound`, if any. */
  function SmallestAtLeast(sizes: seq<nat>, bound: nat): (r: Option<nat>)
    ensures r.Some? ==> r.value in sizes && r.value >= bound
    ensures r.Some? ==> forall s | s in sizes && s >= bound :: r.value <= s
    ensures r.None? <==> forall s | s in sizes :: s < bound
  {
    if sizes == [] then None
    else
      var rest := SmallestAtLeast(sizes[1..], bound);
      assert forall s | s in sizes :: s == sizes[0] || s in sizes[1..];
      if sizes[0] < bound then rest
      else if rest.Some? && rest.value < sizes[0] then rest
      else Some(sizes[0])
  }

  /**
   * `part_b`: the disk holds 70000000 and the update needs 30000000, so
   * the directory to delete is the smallest of size at least
   * `root - 40000000`. The subtraction panics when the root is smaller
   * than 40000000, and indexing panics when no directory was opened.
   */
  method PartB(lines: seq<string>) returns (r: Result<nat>)
    requires forall l | l in lines :: WellFormed(l)
    ensures var sizes := Walks(lines).sizes;
      r.Ok? <==> |sizes| > 0 && sizes[0] >= 40000000
    ensures var sizes := Walks(lines).sizes;
      r.Ok? ==> (r.value in sizes && r.value >= sizes[0] - 40000000
        && forall s | s in sizes && s >= sizes[0] - 40000000 :: r.value <= s)
  {
    var sizes := ComputeDirectorySizes(lines);
    if |sizes| == 0 {
      return Err("index out of bounds: the len is 0 but the index is 0");
    }
    if sizes[0] < 40000000 {
      return Err("attempt to subtract with overflow");
    }
    var minSize := sizes[0] - 40000000;
    var smallest := SmallestAtLeast(sizes, minSize);
    assert sizes[0] in sizes;
    r := Ok(smallest.value);
  }
}
