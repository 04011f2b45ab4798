/** Single-bit masks of a `u16` and what `&`, `!` and `-` do to one bit. */
module Day16Bits {
  /** The mask `1 << v`, written out as a table. */
  function Bit(v: nat): bv16
    requires v < 16
  {
    match v
    case 0 => 0x0001 case 1 => 0x0002 case 2 => 0x0004 case 3 => 0x0008
    case 4 => 0x0010 case 5 => 0x0020 case 6 => 0x0040 case 7 => 0x0080
    case 8 => 0x0100 case 9 => 0x0200 case 10 => 0x0400 case 11 => 0x0800
    case 12 => 0x1000 case 13 => 0x2000 case 14 => 0x4000 case _ => 0x8000
  }

  lemma BitIsShift(v: nat)
    requires v < 16
    ensures Bit(v) == (1 as bv16) << v
  {
    if v == 0 {} else if v == 1 {} else if v == 2 {} else if v == 3 {}
    else if v == 4 {} else if v == 5 {} else if v == 6 {} else if v == 7 {}
    else if v == 8 {} else if v == 9 {} else if v == 10 {} else if v == 11 {}
    else if v == 12 {} else if v == 13 {} else if v == 14 {} else {}
  }

  /** Bit `v` of `x` is set. */
  predicate Has(x: bv16, v: nat)
    requires v < 16
  {
    x & Bit(v) != 0
  }

  /** The test as the source writes it, `x & mask == mask`, is the same test. */
  lemma MaskTest(x: bv16, v: nat)
    requires v < 16
    ensures x & Bit(v) == Bit(v) <==> Has(x, v)
  {
    MaskRaw(x, v);
  }

  lemma MaskRaw(x: bv16, v: nat)
    requires v < 16
    ensures x & Bit(v) == Bit(v) <==> x & Bit(v) != 0
  {
  }

  lemma AndRaw(x: bv16, y: bv16, v: nat)
    requires v < 16
    ensures (x & y) & Bit(v) != 0 <==> x & Bit(v) != 0 && y & Bit(v) != 0
  {
  }

  lemma AndHas(x: bv16, y: bv16, v: nat)
    requires v < 16
    ensures Has(x & y, v) <==> Has(x, v) && Has(y, v)
  {
    AndRaw(x, y, v);
  }

  lemma DiffRaw(x: bv16, y: bv16, v: nat)
    requires v < 16
    ensures (x & !y) & Bit(v) != 0 <==> x & Bit(v) != 0 && y & Bit(v) == 0
  {
  }

  lemma DiffHas(x: bv16, y: bv16, v: nat)
    requires v < 16
    ensures Has(x & !y, v) <==> Has(x, v) && !Has(y, v)
  {
    DiffRaw(x, y, v);
  }

  lemma RemoveRaw(x: bv16, w: nat, v: nat)
    requires w < 16 && v < 16
    ensures (x & !Bit(w)) & Bit(v) != 0 <==> x & Bit(v) != 0 && v != w
  {
  }

  lemma RemoveHas(x: bv16, w: nat, v: nat)
    requires w < 16 && v < 16
    ensures Has(x & !Bit(w), v) <==> Has(x, v) && v != w
  {
    RemoveRaw(x, w, v);
  }

  lemma LowRaw(n: nat, v: nat)
    requires n < 16 && v < 16
    ensures (Bit(n) - 1) & Bit(v) != 0 <==> v < n
  {
  }

  lemma LowHas(n: nat, v: nat)
    requires n < 16 && v < 16
    ensures Has(Bit(n) - 1, v) <==> v < n
  {
    LowRaw(n, v);
  }

  lemma ZeroRaw(x: bv16)
    requires x & Bit(0) == 0 && x & Bit(1) == 0 && x & Bit(2) == 0 && x & Bit(3) == 0
    requires x & Bit(4) == 0 && x & Bit(5) == 0 && x & Bit(6) == 0 && x & Bit(7) == 0
    requires x & Bit(8) == 0 && x & Bit(9) == 0 && x & Bit(10) == 0 && x & Bit(11) == 0
    requires x & Bit(12) == 0 && x & Bit(13) == 0 && x & Bit(14) == 0 && x & Bit(15) == 0
    ensures x == 0
  {
  }

  lemma ZeroHas(x: bv16)
    ensures x == 0 <==> forall v | 0 <= v < 16 :: !Has(x, v)
  {
    if forall v | 0 <= v < 16 :: !Has(x, v) {
      assert !Has(x, 0) && !Has(x, 1) && !Has(x, 2) && !Has(x, 3);
      assert !Has(x, 4) && !Has(x, 5) && !Has(x, 6) && !Has(x, 7);
      assert !Has(x, 8) && !Has(x, 9) && !Has(x, 10) && !Has(x, 11);
      assert !Has(x, 12) && !Has(x, 13) && !Has(x, 14) && !Has(x, 15);
      ZeroRaw(x);
    }
  }

  lemma SameRaw(x: bv16, y: bv16)
    requires x & !y == 0 && y & !x == 0
    ensures x == y
  {
  }

  /** A set inside another leaves nothing in the difference. */
  lemma DiffEmpty(x: bv16, y: bv16)
    requires forall v | 0 <= v < 16 :: Has(x, v) ==> Has(y, v)
    ensures x & !y == 0
  {
    var d := x & !y;
    forall v | 0 <= v < 16
      ensures !Has(d, v)
    {
      DiffHas(x, y, v);
    }
    ZeroHas(d);
  }

  /** Two sets holding the same valves are the same bits. */
  lemma SameHas(x: bv16, y: bv16)
    requires forall v | 0 <= v < 16 :: Has(x, v) <==> Has(y, v)
    ensures x == y
  {
    DiffEmpty(x, y);
    DiffEmpty(y, x);
    SameRaw(x, y);
  }

  lemma CommonHas(x: bv16, y: bv16)
    ensures x & y != 0 <==> exists v | 0 <= v < 16 :: Has(x, v) && Has(y, v)
  {
    ZeroHas(x & y);
    forall v | 0 <= v < 16
      ensures Has(x & y, v) <==> Has(x, v) && Has(y, v)
    {
      AndHas(x, y, v);
    }
  }
}

/**
 * Day 16, "Proboscidea Volcanium": a valve-opening planner.
 *
 * The valve network is compacted to the valves worth opening plus the
 * start valve AA, all-pairs tunnel distances are computed with
 * Floyd–Warshall, an explicit-stack depth-first search lists every
 * (opened set, released pressure) outcome, and the answer is the best
 * outcome (part A) or the best pair of outcomes with disjoint valve sets
 * (part B).
 */
module Day16 {
  import opened Common
  import opened Day16Bits

  const MAX_LINKS: nat := 5

  // ---------------------------------------------------------------------
  // ValveSet: one bit of a u16 per valve

  /** `ValveSet(u16)`: valve `v` is in the set when bit `v` is set. */
  datatype ValveSet = ValveSet(bits: bv16)
  {
    predicate Contains(valve: nat)
      requires valve < 16
    {
      Has(bits, valve)
    }

    predicate Overlaps(other: ValveSet)
      ensures Overlaps(other) <==> exists v | 0 <= v < 16 :: Contains(v) && other.Contains(v)
    {
      if bits & other.bits != 0 then
        OverlapWitness(this, other);
        true
      else
        NoOverlap(this, other);
        false
    }

    function Diff(other: ValveSet): (r: ValveSet)
      ensures forall v | 0 <= v < 16 :: r.Contains(v) <==> Contains(v) && !other.Contains(v)
    {
      var r := ValveSet(bits & !other.bits);
      forall v | 0 <= v < 16
        ensures r.Contains(v) <==> Contains(v) && !other.Contains(v)
      {
        DiffHas(bits, other.bits, v);
      }
      r
    }

    function Remove(valve: nat): (r: ValveSet)
      requires valve < 16
      ensures forall v | 0 <= v < 16 :: r.Contains(v) <==> Contains(v) && v != valve
    {
      var r := ValveSet(bits & !Bit(valve));
      forall v | 0 <= v < 16
        ensures r.Contains(v) <==> Contains(v) && v != valve
      {
        RemoveHas(bits, valve, v);
      }
      r
    }
  }

  lemma OverlapWitness(a: ValveSet, b: ValveSet)
    requires a.bits & b.bits != 0
    ensures exists v | 0 <= v < 16 :: a.Contains(v) && b.Contains(v)
  {
    CommonHas(a.bits, b.bits);
    var w :| 0 <= w < 16 && Has(a.bits, w) && Has(b.bits, w);
    assert a.Contains(w) && b.Contains(w);
  }

  lemma NoOverlap(a: ValveSet, b: ValveSet)
    requires a.bits & b.bits == 0
    ensures forall v | 0 <= v < 16 :: !(a.Contains(v) && b.Contains(v))
  {
    CommonHas(a.bits, b.bits);
    forall v | 0 <= v < 16 ensures !(a.Contains(v) && b.Contains(v)) {
      assert !(Has(a.bits, v) && Has(b.bits, v));
    }
  }

  function LowValves(n: nat): (r: ValveSet)
    requires n < 16
    ensures forall v | 0 <= v < 16 :: r.Contains(v) <==> v < n
  {
    var r := ValveSet(Bit(n) - 1);
    forall v | 0 <= v < 16
      ensures r.Contains(v) <==> v < n
    {
      LowHas(n, v);
    }
    r
  }

  // ---------------------------------------------------------------------
  // Row-major square matrices stored flat

  /**
   * `i * n`, the flat position where row `i` starts, counted one row at a
   * time; `RowStart(n, n)` is the size `n * n` of an n-by-n matrix. Keeping
   * the products out of the proofs keeps the solver in linear arithmetic.
   */
  function RowStart(n: nat, i: nat): nat
  {
    if i == 0 then 0 else RowStart(n, i - 1) + n
  }

  /** `RowStart` is the product the source computes with `*`. */
  lemma {:induction false} RowStartIsProduct(n: nat, i: nat)
    ensures RowStart(n, i) == i * n
  {
    if i > 0 {
      RowStartIsProduct(n, i - 1);
    }
  }

  lemma {:induction false} RowStartGap(n: nat, i: nat, k: nat)
    requires i < k
    ensures RowStart(n, i) + n <= RowStart(n, k)
  {
    if i + 1 < k {
      RowStartGap(n, i, k - 1);
    }
  }

  lemma RowStartsOrdered(n: nat)
    ensures forall i, k | i < k :: RowStart(n, i) + n <= RowStart(n, k)
  {
    forall i, k | i < k ensures RowStart(n, i) + n <= RowStart(n, k) {
      RowStartGap(n, i, k);
    }
  }

  /** `i * n + j`, the flat position of entry (i, j). */
  function Idx(n: nat, i: nat, j: nat): (r: nat)
    requires i < n && j < n
    ensures r < RowStart(n, n)
  {
    RowStartGap(n, i, n);
    RowStart(n, i) + j
  }

  /** The row holding flat position z of an n-by-n matrix. */
  function RowOf(n: nat, z: nat): (i: nat)
    requires z < RowStart(n, n)
    ensures i < n && RowStart(n, i) <= z < RowStart(n, i) + n
  {
    RowOfFrom(n, z, 0)
  }

  /** Every flat position of an n-by-n matrix is the index of one entry. */
  lemma EntryAt(n: nat, z: nat) returns (i: nat, j: nat)
    requires z < RowStart(n, n)
    ensures i < n && j < n && Idx(n, i, j) == z
  {
    i := RowOf(n, z);
    j := z - RowStart(n, i);
  }

  function RowOfFrom(n: nat, z: nat, i: nat): (r: nat)
    requires i < n && RowStart(n, i) <= z < RowStart(n, n)
    ensures i <= r < n && RowStart(n, r) <= z < RowStart(n, r) + n
    decreases n - i
  {
    if z < RowStart(n, i) + n then i
    else
      RowOfFrom(n, z, i + 1)
  }

  lemma IdxInjective(n: nat)
    ensures forall a, b, c, e | 0 <= a < n && 0 <= b < n && 0 <= c < n && 0 <= e < n ::
      Idx(n, a, b) == Idx(n, c, e) ==> a == c && b == e
  {
    forall a, b, c, e | 0 <= a < n && 0 <= b < n && 0 <= c < n && 0 <= e < n && Idx(n, a, b) == Idx(n, c, e)
      ensures a == c && b == e
    {
      if a < c { RowStartGap(n, a, c); }
      if c < a { RowStartGap(n, c, a); }
    }
  }

  ghost predicate Bounded(d: seq<nat>)
  {
    forall x | 0 <= x < |d| :: d[x] <= USIZE_MAX
  }

  // ---------------------------------------------------------------------
  // Valves and all-pairs distances

  /** An input line, already cut into its fields: name, flow rate, tunnel names. */
  datatype ValveRecord = ValveRecord(name: string, flowRate: nat, tunnels: seq<string>)

  /** A valve with the ids of the valves its tunnels lead to (at most `MAX_LINKS`). */
  datatype Valve = Valve(flowRate: nat, links: seq<nat>)

  ghost predicate LinksInRange(valves: seq<Valve>)
  {
    forall i, k | 0 <= i < |valves| && 0 <= k < |valves[i].links| :: valves[i].links[k] < |valves|
  }

  /** A direct tunnel is 1 step, a valve is 0 steps from itself, anything else unknown. */
  function InitialDistance(valves: seq<Valve>, i: nat, j: nat): nat
    requires i < |valves| && j < |valves|
  {
    if j in valves[i].links then 1 else if i == j then 0 else USIZE_MAX
  }

  /**
   * The distance from i to j once routes through valves `0..k` are allowed:
   * stage k-1 of Floyd–Warshall keeps the direct entry unless the saturated
   * sum through valve k-1 is smaller.
   */
  ghost function Dist(valves: seq<Valve>, k: nat, i: nat, j: nat): (r: nat)
    requires k <= |valves| && i < |valves| && j < |valves|
    ensures r <= USIZE_MAX
  {
    if k == 0 then InitialDistance(valves, i, j)
    else
      var direct := Dist(valves, k - 1, i, j);
      var through := SaturatingAdd(Dist(valves, k - 1, i, k - 1), Dist(valves, k - 1, k - 1, j));
      if through < direct then through else direct
  }

  /** Routing through valve k leaves row k and column k as they were. */
  lemma DistKeepsPivot(valves: seq<Valve>, k: nat, i: nat)
    requires k < |valves| && i < |valves|
    ensures Dist(valves, k + 1, i, k) == Dist(valves, k, i, k)
    ensures Dist(valves, k + 1, k, i) == Dist(valves, k, k, i)
  {
  }

  /**
   * Pass k of Floyd–Warshall has visited the entries before (i, j) in
   * row-major order: those hold stage k+1, the others still stage k.
   */
  ghost predicate Stage(valves: seq<Valve>, d: seq<nat>, k: nat, i: nat, j: nat)
    requires k < |valves|
  {
    var n := |valves|;
    |d| == RowStart(n, n) &&
    forall a, b | 0 <= a < n && 0 <= b < n ::
      d[Idx(n, a, b)] == Dist(valves, if a < i || (a == i && b < j) then k + 1 else k, a, b)
  }

  /** Writing stage k+1 into entry (i, j) moves the pass one entry on. */
  lemma StageStep(valves: seq<Valve>, d: seq<nat>, k: nat, i: nat, j: nat, x: nat)
    requires k < |valves| && i < |valves| && j < |valves|
    requires Stage(valves, d, k, i, j) && x == Dist(valves, k + 1, i, j)
    ensures Stage(valves, d[Idx(|valves|, i, j) := x], k, i, j + 1)
  {
    var n := |valves|;
    IdxInjective(n);
  }

  /** A pass that has finished row i has started row i+1. */
  lemma StageNextRow(valves: seq<Valve>, d: seq<nat>, k: nat, i: nat)
    requires k < |valves| && i < |valves|
    requires Stage(valves, d, k, i, |valves|)
    ensures Stage(valves, d, k, i + 1, 0)
  {
  }

  /** A finished pass is the start of the next one. */
  lemma StageNextPivot(valves: seq<Valve>, d: seq<nat>, k: nat)
    requires k + 1 < |valves|
    requires Stage(valves, d, k, |valves|, 0)
    ensures Stage(valves, d, k + 1, 0, 0)
  {
  }

  /** One iteration of the innermost loop: relax (i, j) through valve k. */
  method RelaxEntry(valves: seq<Valve>, d: seq<nat>, k: nat, i: nat, j: nat) returns (e: seq<nat>)
    requires k < |valves| && i < |valves| && j < |valves|
    requires Stage(valves, d, k, i, j)
    ensures Stage(valves, e, k, i, j + 1)
  {
    var n := |valves|;
    DistKeepsPivot(valves, k, i);
    DistKeepsPivot(valves, k, j);
    var index := Idx(n, i, j);
    var distance := SaturatingAdd(d[Idx(n, i, k)], d[Idx(n, k, j)]);
    e := d;
    if distance < d[index] {
      e := d[index := distance];
    }
    StageStep(valves, d, k, i, j, e[index]);
    assert d[index := e[index]] == e;
  }

  /** `compute_distances`: Floyd–Warshall over a flat row-major vector with saturating sums. */
  method ComputeDistances(valves: seq<Valve>) returns (distances: seq<nat>)
    requires LinksInRange(valves)
    ensures |distances| == RowStart(|valves|, |valves|)
    ensures forall i, j | 0 <= i < |valves| && 0 <= j < |valves| ::
      distances[Idx(|valves|, i, j)] == Dist(valves, |valves|, i, j)
  {
    var n := |valves|;
    distances := Initialize(valves);
    if n == 0 {
      return;
    }
    for k := 0 to n
      invariant Stage(valves, distances, if k < n then k else n - 1, if k < n then 0 else n, 0)
    {
      for i := 0 to n
        invariant Stage(valves, distances, k, i, 0)
      {
        for j := 0 to n
          invariant Stage(valves, distances, k, i, j)
        {
          distances := RelaxEntry(valves, distances, k, i, j);
        }
        StageNextRow(valves, distances, k, i);
      }
      if k + 1 < n {
        StageNextPivot(valves, distances, k);
      }
    }
  }

  /** The first two loops of `compute_distances`: 0 on the diagonal, then 1 per tunnel. */
  method Initialize(valves: seq<Valve>) returns (d: seq<nat>)
    requires LinksInRange(valves)
    ensures |d| == RowStart(|valves|, |valves|)
    ensures forall a, b | 0 <= a < |valves| && 0 <= b < |valves| ::
      d[Idx(|valves|, a, b)] == Dist(valves, 0, a, b)
  {
    var n := |valves|;
    IdxInjective(n);
    d := seq(RowStart(n, n), _ => USIZE_MAX);
    for i := 0 to n
      invariant |d| == RowStart(n, n)
      invariant forall a, b | 0 <= a < n && 0 <= b < n ::
        d[Idx(n, a, b)] == if a == b && a < i then 0 else USIZE_MAX
    {
      d := d[Idx(n, i, i) := 0];
    }
    for source := 0 to n
      invariant |d| == RowStart(n, n)
      invariant forall a, b | 0 <= a < n && 0 <= b < n ::
        d[Idx(n, a, b)] == if a < source && b in valves[a].links then 1 else if a == b then 0 else USIZE_MAX
    {
      var links := valves[source].links;
      for l := 0 to |links|
        invariant |d| == RowStart(n, n)
        invariant forall a, b | 0 <= a < n && 0 <= b < n ::
          d[Idx(n, a, b)] ==
            if (a < source && b in valves[a].links) || (a == source && b in links[..l]) then 1
            else if a == b then 0 else USIZE_MAX
      {
        assert links[..l + 1] == links[..l] + [links[l]];
        d := d[Idx(n, source, links[l]) := 1];
      }
      assert links[..|links|] == links;
    }
  }

  // ---------------------------------------------------------------------
  // What the distance matrix satisfies

  /** `Dist(k)` never exceeds the initial distance. */
  lemma {:induction false} DistBelowInitial(valves: seq<Valve>, k: nat, i: nat, j: nat)
    requires k <= |valves| && i < |valves| && j < |valves|
    ensures Dist(valves, k, i, j) <= InitialDistance(valves, i, j)
  {
    if k > 0 {
      DistBelowInitial(valves, k - 1, i, j);
    }
  }

  /** Distinct valves stay at least one step apart. */
  lemma {:induction false} DistOffDiagonal(valves: seq<Valve>, k: nat, i: nat, j: nat)
    requires k <= |valves| && i < |valves| && j < |valves| && i != j
    ensures Dist(valves, k, i, j) >= 1
  {
    if k > 0 {
      DistOffDiagonal(valves, k - 1, i, j);
      if i != k - 1 {
        DistOffDiagonal(valves, k - 1, i, k - 1);
      } else {
        DistOffDiagonal(valves, k - 1, k - 1, j);
      }
    }
  }

  /** One stage either keeps an entry, takes the detour through the pivot, or saturates. */
  lemma DistStage(valves: seq<Valve>, p: nat, i: nat, j: nat)
    requires p < |valves| && i < |valves| && j < |valves|
    ensures Dist(valves, p + 1, i, j) <= Dist(valves, p, i, j)
    ensures Dist(valves, p + 1, i, j) <= Dist(valves, p, i, p) + Dist(valves, p, p, j)
    ensures Dist(valves, p + 1, i, j) == Dist(valves, p, i, j)
      || Dist(valves, p + 1, i, j) == Dist(valves, p, i, p) + Dist(valves, p, p, j)
      || Dist(valves, p + 1, i, j) == USIZE_MAX
  {
  }

  /** The pivot of the last stage is no shortcut for the entries it produced. */
  lemma TriangleAtPivot(valves: seq<Valve>, p: nat, i: nat, j: nat)
    requires p < |valves| && i < |valves| && j < |valves|
    ensures Dist(valves, p + 1, i, j) <= Dist(valves, p + 1, i, p) + Dist(valves, p + 1, p, j)
  {
    DistKeepsPivot(valves, p, i);
    DistKeepsPivot(valves, p, j);
    DistStage(valves, p, i, j);
  }

  /** Stage p+1 keeps the triangle inequality through m < p that stage p had. */
  lemma TriangleStep(valves: seq<Valve>, p: nat, i: nat, j: nat, m: nat)
    requires m < p < |valves| && i < |valves| && j < |valves|
    requires Dist(valves, p, i, j) <= Dist(valves, p, i, m) + Dist(valves, p, m, j)
    requires Dist(valves, p, i, p) <= Dist(valves, p, i, m) + Dist(valves, p, m, p)
    requires Dist(valves, p, p, j) <= Dist(valves, p, p, m) + Dist(valves, p, m, j)
    ensures Dist(valves, p + 1, i, j) <= Dist(valves, p + 1, i, m) + Dist(valves, p + 1, m, j)
  {
    DistStage(valves, p, i, j);
    DistStage(valves, p, i, m);
    DistStage(valves, p, m, j);
  }

  /** Stage p + 1 written as k. */
  lemma DistNext(valves: seq<Valve>, p: nat, k: nat, i: nat, j: nat)
    requires k == p + 1 && k <= |valves| && i < |valves| && j < |valves|
    ensures Dist(valves, k, i, j) == Dist(valves, p + 1, i, j)
  {
  }

  /** After stage k no route through a valve below k is shorter. */
  lemma {:induction false} DistTriangle(valves: seq<Valve>, k: nat, i: nat, j: nat, m: nat)
    requires k <= |valves| && i < |valves| && j < |valves| && m < k
    ensures Dist(valves, k, i, j) <= Dist(valves, k, i, m) + Dist(valves, k, m, j)
  {
    var p := k - 1;
    if m == p {
      TriangleAtPivot(valves, p, i, j);
    } else {
      DistTriangle(valves, p, i, j, m);
      DistTriangle(valves, p, i, p, m);
      DistTriangle(valves, p, p, j, m);
      TriangleStep(valves, p, i, j, m);
    }
    DistNext(valves, p, k, i, j);
    DistNext(valves, p, k, i, m);
    DistNext(valves, p, k, m, j);
  }

  /**
   * The distances `compute_distances` returns never exceed the initial
   * ones (0 on the diagonal, 1 per direct tunnel), distinct valves stay at
   * least 1 apart, and no route through a third valve is shorter:
   * `d[i][j] ≤ sat(d[i][k] + d[k][j])`.
   */
  lemma DistanceProperties(valves: seq<Valve>, i: nat, j: nat, k: nat)
    requires i < |valves| && j < |valves| && k < |valves|
    ensures Dist(valves, |valves|, i, j) <= InitialDistance(valves, i, j)
    ensures i != j ==> Dist(valves, |valves|, i, j) >= 1
    ensures Dist(valves, |valves|, i, j)
      <= SaturatingAdd(Dist(valves, |valves|, i, k), Dist(valves, |valves|, k, j))
  {
    DistBelowInitial(valves, |valves|, i, j);
    if i != j {
      DistOffDiagonal(valves, |valves|, i, j);
    }
    DistTriangle(valves, |valves|, i, j, k);
  }

  // ---------------------------------------------------------------------
  // The compacted graph

  /**
   * The valves worth opening (AA excluded) and the distance matrix over
   * them plus AA, which sits at row and column `|valves|`.
   */
  datatype Graph = Graph(valves: seq<Valve>, distances: seq<nat>, closedValves: ValveSet)
  {
    ghost predicate Valid()
    {
      |valves| < 16 && |distances| == RowStart(|valves| + 1, |valves| + 1) && Bounded(distances)
    }

    /** `distance`: entry (source, destination) of the (n+1)-by-(n+1) matrix. */
    function Distance(source: nat, destination: nat): (r: nat)
      requires Valid() && source <= |valves| && destination <= |valves|
      ensures r <= USIZE_MAX
    {
      distances[Idx(|valves| + 1, source, destination)]
    }

    /** No distance is `usize::MAX`, so `distance + 1` cannot overflow. */
    predicate Connected()
      requires Valid()
    {
      forall z | 0 <= z < |distances| :: distances[z] < USIZE_MAX
    }
  }

  /** The `HashMap` of ids built by inserting each name with the current map size. */
  function Ids(records: seq<ValveRecord>): (ids: map<string, nat>)
    ensures |ids| <= |records|
    ensures ids.Keys == set r | 0 <= r < |records| :: records[r].name
    ensures forall name | name in ids :: ids[name] < |records|
  {
    if records == [] then map[]
    else
      var prefix := Ids(records[..|records| - 1]);
      assert forall r | 0 <= r < |records| - 1 :: records[..|records| - 1][r] == records[r];
      prefix[records[|records| - 1].name := |prefix|]
  }

  /** The ids of `names`, or None when one of them names no valve. */
  function ResolveLinks(names: seq<string>, ids: map<string, nat>): (r: Option<seq<nat>>)
    ensures r.Some? <==> forall t | t in names :: t in ids
    ensures r.Some? ==> |r.value| == |names| && forall k | 0 <= k < |names| :: r.value[k] == ids[names[k]]
  {
    if names == [] then Some([])
    else if names[0] !in ids then None
    else match ResolveLinks(names[1..], ids)
      case None => None
      case Some(rest) => Some([ids[names[0]]] + rest)
  }

  /** `Valve::new`: resolve the tunnel names; an error stands for the source's panic. */
  function NewValve(record: ValveRecord, ids: map<string, nat>): (r: Result<Valve>)
    ensures r.Ok? <==> |record.tunnels| <= MAX_LINKS && forall t | t in record.tunnels :: t in ids
    ensures r.Ok? ==> (r.value.flowRate == record.flowRate && |r.value.links| == |record.tunnels|
      && forall k | 0 <= k < |record.tunnels| :: r.value.links[k] == ids[record.tunnels[k]])
  {
    if |record.tunnels| > MAX_LINKS then Err("index out of bounds: more than MAX_LINKS tunnels")
    else match ResolveLinks(record.tunnels, ids)
      case None => Err("called `Option::unwrap()` on a `None` value: unknown valve")
      case Some(links) => Ok(Valve(record.flowRate, links))
  }

  /** The valves of every line, resolved in order; the first line that fails is the error. */
  function AllValves(records: seq<ValveRecord>, ids: map<string, nat>): (r: Result<seq<Valve>>)
    ensures r.Ok? <==> forall k | 0 <= k < |records| :: NewValve(records[k], ids).Ok?
    ensures r.Ok? ==> (|r.value| == |records|
      && forall k | 0 <= k < |records| :: r.value[k] == NewValve(records[k], ids).value)
  {
    if records == [] then Ok([])
    else match NewValve(records[0], ids)
      case Err(e) => Err(e)
      case Ok(valve) =>
        match AllValves(records[1..], ids)
        case Err(e) => Err(e)
        case Ok(rest) => Ok([valve] + rest)
  }

  /** Every tunnel of a resolved input leads to one of its valves. */
  lemma AllValvesLinksInRange(records: seq<ValveRecord>)
    requires AllValves(records, Ids(records)).Ok?
    ensures LinksInRange(AllValves(records, Ids(records)).value)
  {
    var ids := Ids(records);
    var all := AllValves(records, ids).value;
    forall i, k | 0 <= i < |all| && 0 <= k < |all[i].links|
      ensures all[i].links[k] < |all|
    {
      assert all[i].links[k] == ids[records[i].tunnels[k]];
    }
  }

  /** A valve survives compaction when it releases pressure or is the start. */
  predicate Kept(valve: Valve, id: nat, start: nat)
  {
    valve.flowRate > 0 || id == start
  }

  /** The ids below k of the valves that survive compaction, in increasing order. */
  function KeptIds(all: seq<Valve>, start: nat, k: nat): (r: seq<nat>)
    requires k <= |all|
    ensures forall i | 0 <= i < |r| :: r[i] < k && Kept(all[r[i]], r[i], start)
    ensures forall x | 0 <= x < k && Kept(all[x], x, start) :: x in r
    ensures forall a, b | 0 <= a < b < |r| :: r[a] < r[b]
  {
    if k == 0 then []
    else KeptIds(all, start, k - 1) + if Kept(all[k - 1], k - 1, start) then [k - 1] else []
  }

  /** The first position of `x` in `s`. */
  function IndexOf(s: seq<nat>, x: nat): (p: nat)
    requires x in s
    ensures p < |s| && s[p] == x && x !in s[..p]
  {
    if s[0] == x then 0 else 1 + IndexOf(s[1..], x)
  }

  /** `swap(p, len - 1)`: slot p and the last slot exchanged. */
  function SwapLast<T>(s: seq<T>, p: nat): (r: seq<T>)
    requires p < |s|
    ensures |r| == |s| && r[|s| - 1] == s[p]
    ensures forall x | 0 <= x < |s| - 1 :: r[x] == if x == p then s[|s| - 1] else s[x]
  {
    s[p := s[|s| - 1]][|s| - 1 := s[p]]
  }

  /** Swapping two slots of a list without repeats leaves it without repeats. */
  lemma SwapDistinct(s: seq<nat>, p: nat)
    requires p < |s|
    requires forall a, b | 0 <= a < b < |s| :: s[a] != s[b]
    ensures var t := SwapLast(s, p);
      forall a, b | 0 <= a < b < |t| :: t[a] != t[b]
  {
  }

  /** The kept ids after the start has been swapped into the last slot. */
  function Lookup(all: seq<Valve>, start: nat): (r: seq<nat>)
    requires start < |all|
    ensures |r| == |KeptIds(all, start, |all|)| && |r| > 0 && r[|r| - 1] == start
    ensures forall x | 0 <= x < |r| :: r[x] < |all|
  {
    var kept := KeptIds(all, start, |all|);
    SwapLast(kept, IndexOf(kept, start))
  }

  /**
   * The compacted list is exactly the valves with a positive flow rate other
   * than the start, each once, with the start after them.
   */
  lemma LookupKeepsExactly(all: seq<Valve>, start: nat)
    requires start < |all|
    ensures var lookup := Lookup(all, start);
      (forall a, b | 0 <= a < b < |lookup| :: lookup[a] != lookup[b])
      && (forall x | 0 <= x < |lookup| - 1 :: lookup[x] != start && all[lookup[x]].flowRate > 0)
      && (forall id | 0 <= id < |all| && all[id].flowRate > 0 && id != start :: id in lookup[..|lookup| - 1])
  {
    LookupDistinct(all, start);
    LookupKeepsOnly(all, start);
    LookupKeepsAll(all, start);
  }

  lemma LookupDistinct(all: seq<Valve>, start: nat)
    requires start < |all|
    ensures var lookup := Lookup(all, start);
      forall a, b | 0 <= a < b < |lookup| :: lookup[a] != lookup[b]
  {
    var kept := KeptIds(all, start, |all|);
    SwapDistinct(kept, IndexOf(kept, start));
  }

  lemma LookupKeepsOnly(all: seq<Valve>, start: nat)
    requires start < |all|
    ensures var lookup := Lookup(all, start);
      forall x | 0 <= x < |lookup| - 1 :: lookup[x] != start && all[lookup[x]].flowRate > 0
  {
    var kept := KeptIds(all, start, |all|);
    var p := IndexOf(kept, start);
    var lookup := Lookup(all, start);
    assert lookup == SwapLast(kept, p);
    forall x | 0 <= x < |lookup| - 1
      ensures lookup[x] != start && all[lookup[x]].flowRate > 0
    {
      var i := if x == p then |kept| - 1 else x;
      assert lookup[x] == kept[i] && i != p;
    }
  }

  lemma LookupKeepsAll(all: seq<Valve>, start: nat)
    requires start < |all|
    ensures var lookup := Lookup(all, start);
      forall id | 0 <= id < |all| && all[id].flowRate > 0 && id != start :: id in lookup[..|lookup| - 1]
  {
    var kept := KeptIds(all, start, |all|);
    var p := IndexOf(kept, start);
    var last := |kept| - 1;
    var lookup := Lookup(all, start);
    assert lookup == SwapLast(kept, p);
    forall id | 0 <= id < |all| && all[id].flowRate > 0 && id != start
      ensures id in lookup[..last]
    {
      var q :| 0 <= q < |kept| && kept[q] == id;
      var x := if q == last then p else q;
      assert lookup[x] == id && x < last;
      assert lookup[..last][x] == id;
    }
  }

  /** What `Graph::new` builds from a resolved input whose start valve is `start`. */
  ghost predicate CompactedFrom(all: seq<Valve>, start: nat, g: Graph)
    requires start < |all|
  {
    var lookup := Lookup(all, start);
    g.Valid()
    && |g.valves| + 1 == |lookup|
    && (forall x | 0 <= x < |g.valves| :: g.valves[x] == all[lookup[x]])
    && (forall x, y | 0 <= x <= |g.valves| && 0 <= y <= |g.valves| ::
          g.Distance(x, y) == Dist(all, |all|, lookup[x], lookup[y]))
    && (forall v | 0 <= v < 16 :: g.closedValves.Contains(v) <==> v < |g.valves|)
  }

  /** The conditions under which `Graph::new` does not panic. */
  ghost predicate Buildable(records: seq<ValveRecord>)
  {
    var ids := Ids(records);
    "AA" in ids && AllValves(records, ids).Ok?
    && |KeptIds(AllValves(records, ids).value, ids["AA"], |records|)| <= 16
  }

  /** `g` is the graph `Graph::new` builds from the records. */
  ghost predicate GraphOf(records: seq<ValveRecord>, g: Graph)
    requires Buildable(records)
  {
    CompactedFrom(AllValves(records, Ids(records)).value, Ids(records)["AA"], g)
  }

  /**
   * No two kept valves are `usize::MAX` apart in the full graph, so no
   * `distance + 1` of the search can overflow.
   */
  ghost predicate KeptConnected(records: seq<ValveRecord>)
    requires Buildable(records)
  {
    var ids := Ids(records);
    var all := AllValves(records, ids).value;
    PairsConnected(all, Lookup(all, ids["AA"]))
  }

  /** No two of the listed valves are `usize::MAX` apart. */
  ghost predicate PairsConnected(all: seq<Valve>, lookup: seq<nat>)
    requires forall x | 0 <= x < |lookup| :: lookup[x] < |all|
  {
    forall x, y | 0 <= x < |lookup| && 0 <= y < |lookup| :: Dist(all, |all|, lookup[x], lookup[y]) < USIZE_MAX
  }

  /** The compacted graph has no `usize::MAX` distance exactly when the kept valves are connected. */
  lemma ConnectedIffKept(records: seq<ValveRecord>, g: Graph)
    requires Buildable(records)
    requires CompactedFrom(AllValves(records, Ids(records)).value, Ids(records)["AA"], g)
    ensures g.Connected() <==> KeptConnected(records)
  {
    var ids := Ids(records);
    var all := AllValves(records, ids).value;
    ConnectedIffBounded(all, Lookup(all, ids["AA"]), g);
  }

  /** A matrix copied out of the full distances has no `usize::MAX` entry exactly when the copied pairs have none. */
  lemma ConnectedIffBounded(all: seq<Valve>, lookup: seq<nat>, g: Graph)
    requires g.Valid() && |g.valves| + 1 == |lookup| && forall x | 0 <= x < |lookup| :: lookup[x] < |all|
    requires forall x, y | 0 <= x <= |g.valves| && 0 <= y <= |g.valves| ::
      g.Distance(x, y) == Dist(all, |all|, lookup[x], lookup[y])
    ensures g.Connected() <==> PairsConnected(all, lookup)
  {
    if PairsConnected(all, lookup) {
      ConnectedFromPairs(all, lookup, g);
    } else {
      var x, y :| 0 <= x < |lookup| && 0 <= y < |lookup| && Dist(all, |all|, lookup[x], lookup[y]) >= USIZE_MAX;
      assert g.Distance(x, y) == Dist(all, |all|, lookup[x], lookup[y]);
    }
  }

  lemma ConnectedFromPairs(all: seq<Valve>, lookup: seq<nat>, g: Graph)
    requires g.Valid() && |g.valves| + 1 == |lookup| && forall x | 0 <= x < |lookup| :: lookup[x] < |all|
    requires forall x, y | 0 <= x <= |g.valves| && 0 <= y <= |g.valves| ::
      g.Distance(x, y) == Dist(all, |all|, lookup[x], lookup[y])
    requires PairsConnected(all, lookup)
    ensures g.Connected()
  {
    forall z | 0 <= z < |g.distances|
      ensures g.distances[z] < USIZE_MAX
    {
      var x, y := EntryAt(|g.valves| + 1, z);
      assert g.Distance(x, y) == Dist(all, |all|, lookup[x], lookup[y]);
    }
  }

  /** A list of valves has one compacted graph. */
  lemma CompactedUnique(all: seq<Valve>, start: nat, g1: Graph, g2: Graph)
    requires start < |all| && CompactedFrom(all, start, g1) && CompactedFrom(all, start, g2)
    ensures g1 == g2
  {
    assert g1.valves == g2.valves;
    var n := |g1.valves| + 1;
    forall x, y | 0 <= x < n && 0 <= y < n
      ensures g1.distances[Idx(n, x, y)] == g2.distances[Idx(n, x, y)]
    {
      assert g1.Distance(x, y) == g2.Distance(x, y);
    }
    SameMatrix(n, g1.distances, g2.distances);
    SameClosed(|g1.valves|, g1.closedValves, g2.closedValves);
  }

  /** Two n-by-n matrices that agree on every entry are equal. */
  lemma SameMatrix(n: nat, d1: seq<nat>, d2: seq<nat>)
    requires |d1| == |d2| == RowStart(n, n)
    requires forall i, j | 0 <= i < n && 0 <= j < n :: d1[Idx(n, i, j)] == d2[Idx(n, i, j)]
    ensures d1 == d2
  {
    forall z | 0 <= z < |d1|
      ensures d1[z] == d2[z]
    {
      var i, j := EntryAt(n, z);
    }
  }

  /** Two sets that both hold exactly the valves below `m` are equal. */
  lemma SameClosed(m: nat, c1: ValveSet, c2: ValveSet)
    requires forall v | 0 <= v < 16 :: c1.Contains(v) <==> v < m
    requires forall v | 0 <= v < 16 :: c2.Contains(v) <==> v < m
    ensures c1 == c2
  {
    forall v | 0 <= v < 16
      ensures Has(c1.bits, v) <==> Has(c2.bits, v)
    {
      assert c1.Contains(v) <==> c2.Contains(v);
    }
    SameHas(c1.bits, c2.bits);
  }

  /** Every entry of a matrix copied out of a bounded one is bounded. */
  lemma CopyBounded(distances: seq<nat>, m: nat, allDistances: seq<nat>, length: nat, lookup: seq<nat>)
    requires |allDistances| == RowStart(length, length) && Bounded(allDistances)
    requires |lookup| == m && forall k | 0 <= k < m :: lookup[k] < length
    requires |distances| == RowStart(m, m)
    requires forall a, b | 0 <= a < m && 0 <= b < m ::
      distances[Idx(m, a, b)] == allDistances[Idx(length, lookup[a], lookup[b])]
    ensures Bounded(distances)
  {
    forall z | 0 <= z < |distances| ensures distances[z] <= USIZE_MAX {
      var a := RowOf(m, z);
      var b := z - RowStart(m, a);
      assert Idx(m, a, b) == z;
    }
  }

  /** The pieces `Graph::new` assembles make a compacted graph. */
  lemma CompactedGraph(all: seq<Valve>, start: nat, allDistances: seq<nat>, lookup: seq<nat>, g: Graph)
    requires start < |all| && lookup == Lookup(all, start)
    requires |allDistances| == RowStart(|all|, |all|)
    requires forall i, j | 0 <= i < |all| && 0 <= j < |all| ::
      allDistances[Idx(|all|, i, j)] == Dist(all, |all|, i, j)
    requires |g.valves| < 16 && |g.valves| + 1 == |lookup|
    requires forall x | 0 <= x < |g.valves| :: g.valves[x] == all[lookup[x]]
    requires |g.distances| == RowStart(|lookup|, |lookup|)
    requires forall a, b | 0 <= a < |lookup| && 0 <= b < |lookup| ::
      g.distances[Idx(|lookup|, a, b)] == allDistances[Idx(|all|, lookup[a], lookup[b])]
    requires g.closedValves == LowValves(|g.valves|)
    ensures CompactedFrom(all, start, g)
  {
    var m := |lookup|;
    assert Bounded(allDistances) by {
      forall z | 0 <= z < |allDistances| ensures allDistances[z] <= USIZE_MAX {
        var i := RowOf(|all|, z);
        var j := z - RowStart(|all|, i);
        assert Idx(|all|, i, j) == z;
      }
    }
    CopyBounded(g.distances, m, allDistances, |all|, lookup);
    assert g.Valid();
    forall x, y | 0 <= x <= |g.valves| && 0 <= y <= |g.valves|
      ensures g.Distance(x, y) == Dist(all, |all|, lookup[x], lookup[y])
    {
      assert g.Distance(x, y) == g.distances[Idx(m, x, y)];
    }
  }

  /** The first loop of `Graph::new`: each name gets the map's size at its insertion. */
  method NumberValves(records: seq<ValveRecord>) returns (ids: map<string, nat>)
    ensures ids == Ids(records)
  {
    ids := map[];
    for i := 0 to |records|
      invariant ids == Ids(records[..i])
    {
      assert records[..i + 1][..i] == records[..i];
      ids := ids[records[i].name := |ids|];
    }
    assert records[..|records|] == records;
  }

  /** The filtering loop of `Graph::new`: the kept valves and their original ids. */
  method KeepValves(all: seq<Valve>, start: nat) returns (valves: seq<Valve>, lookup: seq<nat>)
    ensures lookup == KeptIds(all, start, |all|)
    ensures |valves| == |lookup| && forall x | 0 <= x < |lookup| :: valves[x] == all[lookup[x]]
  {
    valves := [];
    lookup := [];
    for id := 0 to |all|
      invariant lookup == KeptIds(all, start, id)
      invariant |valves| == |lookup| && forall x | 0 <= x < |lookup| :: valves[x] == all[lookup[x]]
    {
      if all[id].flowRate > 0 || id == start {
        valves := valves + [all[id]];
        lookup := lookup + [id];
      }
    }
  }

  /** `position(|id| *id == start).unwrap()`: the first slot holding `start`. */
  method Position(lookup: seq<nat>, start: nat) returns (p: nat)
    requires start in lookup
    ensures p == IndexOf(lookup, start)
  {
    p := 0;
    while lookup[p] != start
      invariant p < |lookup| && start !in lookup[..p]
      decreases |lookup| - p
    {
      assert lookup[..p + 1] == lookup[..p] + [lookup[p]];
      p := p + 1;
    }
    var q := IndexOf(lookup, start);
    assert forall i | 0 <= i < p :: lookup[i] != start by {
      forall i | 0 <= i < p ensures lookup[i] != start {
        assert lookup[i] == lookup[..p][i];
      }
    }
    assert forall i | 0 <= i < q :: lookup[i] != start by {
      forall i | 0 <= i < q ensures lookup[i] != start {
        assert lookup[i] == lookup[..q][i];
      }
    }
  }

  /** The start's slot and the last slot swapped, in both vectors. */
  method MoveStartLast(all: seq<Valve>, start: nat, valves: seq<Valve>, lookup: seq<nat>)
    returns (valves': seq<Valve>, lookup': seq<nat>)
    requires start < |all| && lookup == KeptIds(all, start, |all|)
    requires |valves| == |lookup| && forall x | 0 <= x < |lookup| :: valves[x] == all[lookup[x]]
    ensures lookup' == Lookup(all, start)
    ensures |valves'| == |lookup'| && forall x | 0 <= x < |lookup'| :: valves'[x] == all[lookup'[x]]
  {
    assert start in lookup;
    var p := Position(lookup, start);
    valves' := SwapLast(valves, p);
    lookup' := SwapLast(lookup, p);
    SwapKeepsPairs(all, valves, lookup, p);
  }

  /** Swapping the same slots of both vectors keeps each valve beside its id. */
  lemma SwapKeepsPairs(all: seq<Valve>, valves: seq<Valve>, lookup: seq<nat>, p: nat)
    requires p < |lookup| && |valves| == |lookup|
    requires forall x | 0 <= x < |lookup| :: lookup[x] < |all| && valves[x] == all[lookup[x]]
    ensures forall x | 0 <= x < |lookup| ::
      SwapLast(lookup, p)[x] < |all| && SwapLast(valves, p)[x] == all[SwapLast(lookup, p)[x]]
  {
    var last := |lookup| - 1;
    forall x | 0 <= x < |lookup|
      ensures SwapLast(lookup, p)[x] < |all| && SwapLast(valves, p)[x] == all[SwapLast(lookup, p)[x]]
    {
      var y := if x == last then p else if x == p then last else x;
      assert SwapLast(lookup, p)[x] == lookup[y] && SwapLast(valves, p)[x] == valves[y];
    }
  }

  /** Rows 0..x of the compacted matrix hold the distances between the kept valves. */
  ghost predicate RowsCopied(distances: seq<nat>, allDistances: seq<nat>, length: nat, lookup: seq<nat>, x: nat)
    requires |allDistances| == RowStart(length, length)
    requires forall k | 0 <= k < |lookup| :: lookup[k] < length
    requires x <= |lookup| && |distances| == RowStart(|lookup|, x)
  {
    var m := |lookup|;
    forall a, b | 0 <= a < x && 0 <= b < m ::
      RowStart(m, a) + b < |distances|
      && distances[RowStart(m, a) + b] == allDistances[Idx(length, lookup[a], lookup[b])]
  }

  /** Appending row x after rows 0..x-1 gives rows 0..x. */
  lemma RowCopied(before: seq<nat>, distances: seq<nat>, allDistances: seq<nat>, length: nat, lookup: seq<nat>, x: nat)
    requires |allDistances| == RowStart(length, length)
    requires forall k | 0 <= k < |lookup| :: lookup[k] < length
    requires x < |lookup| && |before| == RowStart(|lookup|, x)
    requires RowsCopied(before, allDistances, length, lookup, x)
    requires |distances| == RowStart(|lookup|, x) + |lookup| && distances[..|before|] == before
    requires forall b | 0 <= b < |lookup| ::
      distances[RowStart(|lookup|, x) + b] == allDistances[Idx(length, lookup[x], lookup[b])]
    ensures RowsCopied(distances, allDistances, length, lookup, x + 1)
  {
    var m := |lookup|;
    forall a, b | 0 <= a < x + 1 && 0 <= b < m
      ensures RowStart(m, a) + b < |distances|
      ensures distances[RowStart(m, a) + b] == allDistances[Idx(length, lookup[a], lookup[b])]
    {
      if a < x {
        RowStartGap(m, a, x);
        assert distances[RowStart(m, a) + b] == before[RowStart(m, a) + b];
      }
    }
  }

  /** The inner loop of the copy: push row x of the kept valves' distances. */
  method CopyRow(distances: seq<nat>, allDistances: seq<nat>, length: nat, lookup: seq<nat>, x: nat)
    returns (distances': seq<nat>)
    requires |allDistances| == RowStart(length, length)
    requires forall k | 0 <= k < |lookup| :: lookup[k] < length
    requires x < |lookup|
    ensures |distances'| == |distances| + |lookup| && distances'[..|distances|] == distances
    ensures forall b | 0 <= b < |lookup| ::
      distances'[|distances| + b] == allDistances[Idx(length, lookup[x], lookup[b])]
  {
    distances' := distances;
    for y := 0 to |lookup|
      invariant |distances'| == |distances| + y && distances'[..|distances|] == distances
      invariant forall b | 0 <= b < y ::
        distances'[|distances| + b] == allDistances[Idx(length, lookup[x], lookup[b])]
    {
      distances' := distances' + [allDistances[Idx(length, lookup[x], lookup[y])]];
    }
  }

  /** All rows copied is the whole compacted matrix. */
  lemma AllRowsCopied(distances: seq<nat>, allDistances: seq<nat>, length: nat, lookup: seq<nat>)
    requires |allDistances| == RowStart(length, length)
    requires forall k | 0 <= k < |lookup| :: lookup[k] < length
    requires |distances| == RowStart(|lookup|, |lookup|)
    requires RowsCopied(distances, allDistances, length, lookup, |lookup|)
    ensures |distances| == RowStart(|lookup|, |lookup|)
    ensures forall a, b | 0 <= a < |lookup| && 0 <= b < |lookup| ::
      distances[Idx(|lookup|, a, b)] == allDistances[Idx(length, lookup[a], lookup[b])]
  {
    var m := |lookup|;
    forall a, b | 0 <= a < m && 0 <= b < m
      ensures distances[Idx(m, a, b)] == allDistances[Idx(length, lookup[a], lookup[b])]
    {
      assert Idx(m, a, b) == RowStart(m, a) + b;
    }
  }

  /** The nested loop of `Graph::new` copying the kept rows and columns. */
  method CopyDistances(allDistances: seq<nat>, length: nat, lookup: seq<nat>) returns (distances: seq<nat>)
    requires |allDistances| == RowStart(length, length)
    requires forall x | 0 <= x < |lookup| :: lookup[x] < length
    ensures |distances| == RowStart(|lookup|, |lookup|)
    ensures forall a, b | 0 <= a < |lookup| && 0 <= b < |lookup| ::
      distances[Idx(|lookup|, a, b)] == allDistances[Idx(length, lookup[a], lookup[b])]
  {
    var m := |lookup|;
    distances := [];
    for x := 0 to m
      invariant |distances| == RowStart(m, x)
      invariant RowsCopied(distances, allDistances, length, lookup, x)
    {
      var next := CopyRow(distances, allDistances, length, lookup, x);
      RowCopied(distances, next, allDistances, length, lookup, x);
      distances := next;
    }
    AllRowsCopied(distances, allDistances, length, lookup);
  }

  /**
   * `Graph::new`: number the valves, resolve the tunnels, compute all
   * distances, keep the valves worth opening plus AA, move AA to the last
   * slot, copy the distance rows and columns of the kept valves, drop AA
   * from the valve list and close every remaining valve.
   */
  method NewGraph(records: seq<ValveRecord>) returns (r: Result<Graph>)
    ensures r.Ok? <==> Buildable(records)
    ensures r.Ok? ==>
      var ids := Ids(records);
      CompactedFrom(AllValves(records, ids).value, ids["AA"], r.value)
  {
    var ids := NumberValves(records);
    if "AA" !in ids {
      return Err("called `Option::unwrap()` on a `None` value: no valve AA");
    }
    var start := ids["AA"];
    var allValves := AllValves(records, ids);
    if allValves.Err? {
      return Err(allValves.message);
    }
    AllValvesLinksInRange(records);
    r := Compact(allValves.value, start);
  }

  /**
   * The rest of `Graph::new` once every valve is resolved: the distances
   * over all valves, the kept ones with the start moved last, their
   * distances copied, and the start dropped; the mask of closed valves
   * overflows unless fewer than 16 remain.
   */
  method Compact(all: seq<Valve>, start: nat) returns (r: Result<Graph>)
    requires start < |all| && LinksInRange(all)
    ensures r.Ok? <==> |KeptIds(all, start, |all|)| <= 16
    ensures r.Ok? ==> CompactedFrom(all, start, r.value)
  {
    var allDistances := ComputeDistances(all);
    var length := |all|;
    var valves, lookup := KeepValves(all, start);
    valves, lookup := MoveStartLast(all, start, valves, lookup);
    var distances := CopyDistances(allDistances, length, lookup);
    valves := valves[..|valves| - 1];
    if |valves| >= 16 {
      return Err("attempt to shift left with overflow");
    }
    var g := Graph(valves, distances, LowValves(|valves|));
    CompactedGraph(all, start, allDistances, lookup, g);
    r := Ok(g);
  }

  // ---------------------------------------------------------------------
  // The depth-first search

  /** A search node: where we stand, minutes left, valves still closed, pressure so far. */
  datatype State = State(id: nat, remainingTime: nat, closedValves: ValveSet, totalPressure: nat)

  /** A leaf of the search: the valves it opened and the pressure they release. */
  datatype Solution = Solution(valves: ValveSet, totalPressure: nat)

  ghost predicate SearchGraph(g: Graph)
  {
    g.Valid() && g.Connected()
  }

  /** Moving from `s` to valve `id` and opening it is possible. */
  predicate CanOpen(g: Graph, s: State, id: nat)
    requires SearchGraph(g) && s.id <= |g.valves| && id < |g.valves|
  {
    s.closedValves.Contains(id) && g.Distance(s.id, id) + 1 <= s.remainingTime
  }

  /** The state after walking to valve `id` and opening it. */
  function Open(g: Graph, s: State, id: nat): (t: State)
    requires SearchGraph(g) && s.id <= |g.valves| && id < |g.valves| && CanOpen(g, s, id)
    ensures t.id == id && t.remainingTime < s.remainingTime
    ensures t.totalPressure >= s.totalPressure
  {
    var remainingTime := s.remainingTime - (g.Distance(s.id, id) + 1);
    State(id, remainingTime, s.closedValves.Remove(id),
      s.totalPressure + g.valves[id].flowRate * remainingTime)
  }

  /**
   * The states `find_solutions` pushes for `s` while trying valves `0..k`:
   * one per closed valve it can reach and open in time, in id order.
   */
  function SuccessorsUpTo(g: Graph, s: State, k: nat): (r: seq<State>)
    requires SearchGraph(g) && s.id <= |g.valves| && k <= |g.valves|
    ensures |r| <= k
  {
    if k == 0 then []
    else
      var prefix := SuccessorsUpTo(g, s, k - 1);
      if CanOpen(g, s, k - 1) then prefix + [Open(g, s, k - 1)] else prefix
  }

  predicate IdsIncreasing(r: seq<State>)
  {
    forall x, y | 0 <= x < y < |r| :: r[x].id < r[y].id
  }

  /**
   * The successors among valves `0..k` are exactly the valves that can be
   * opened next, each once and in increasing id order, each opened.
   */
  lemma SuccessorsUpToFacts(g: Graph, s: State, k: nat)
    requires SearchGraph(g) && s.id <= |g.valves| && k <= |g.valves|
    ensures forall t | t in SuccessorsUpTo(g, s, k) :: t.id < k && CanOpen(g, s, t.id) && t == Open(g, s, t.id)
    ensures IdsIncreasing(SuccessorsUpTo(g, s, k))
    ensures forall id | 0 <= id < k && CanOpen(g, s, id) :: exists t | t in SuccessorsUpTo(g, s, k) :: t.id == id
  {
    SuccessorsSound(g, s, k);
    SuccessorsIncreasing(g, s, k);
    SuccessorsComplete(g, s, k);
  }

  lemma {:induction false} SuccessorsSound(g: Graph, s: State, k: nat)
    requires SearchGraph(g) && s.id <= |g.valves| && k <= |g.valves|
    ensures forall t | t in SuccessorsUpTo(g, s, k) :: t.id < k && CanOpen(g, s, t.id) && t == Open(g, s, t.id)
  {
    if k > 0 {
      SuccessorsSound(g, s, k - 1);
      var prefix := SuccessorsUpTo(g, s, k - 1);
      if CanOpen(g, s, k - 1) {
        assert SuccessorsUpTo(g, s, k) == prefix + [Open(g, s, k - 1)];
      } else {
        assert SuccessorsUpTo(g, s, k) == prefix;
      }
    }
  }

  lemma {:induction false} SuccessorsIncreasing(g: Graph, s: State, k: nat)
    requires SearchGraph(g) && s.id <= |g.valves| && k <= |g.valves|
    ensures IdsIncreasing(SuccessorsUpTo(g, s, k))
  {
    if k > 0 {
      SuccessorsIncreasing(g, s, k - 1);
      SuccessorsSound(g, s, k - 1);
      var prefix := SuccessorsUpTo(g, s, k - 1);
      if CanOpen(g, s, k - 1) {
        var r := prefix + [Open(g, s, k - 1)];
        assert SuccessorsUpTo(g, s, k) == r;
        forall x, y | 0 <= x < y < |r|
          ensures r[x].id < r[y].id
        {
          assert r[x] == prefix[x] && prefix[x] in prefix;
          if y < |prefix| {
            assert r[y] == prefix[y];
          }
        }
      } else {
        assert SuccessorsUpTo(g, s, k) == prefix;
      }
    }
  }

  lemma {:induction false} SuccessorsComplete(g: Graph, s: State, k: nat)
    requires SearchGraph(g) && s.id <= |g.valves| && k <= |g.valves|
    ensures forall id | 0 <= id < k && CanOpen(g, s, id) :: exists t | t in SuccessorsUpTo(g, s, k) :: t.id == id
  {
    if k > 0 {
      SuccessorsComplete(g, s, k - 1);
      var prefix := SuccessorsUpTo(g, s, k - 1);
      var r := SuccessorsUpTo(g, s, k);
      assert r == prefix || r == prefix + [Open(g, s, k - 1)];
      forall id | 0 <= id < k && CanOpen(g, s, id)
        ensures exists t | t in r :: t.id == id
      {
        if id < k - 1 {
          var t :| t in prefix && t.id == id;
          assert t in r;
        } else {
          assert r == prefix + [Open(g, s, k - 1)];
          assert Open(g, s, k - 1) in r;
        }
      }
    }
  }

  function Successors(g: Graph, s: State): (r: seq<State>)
    requires SearchGraph(g) && s.id <= |g.valves|
    ensures forall t | t in r :: t.id < |g.valves| && t.remainingTime < s.remainingTime
  {
    SuccessorsUpToFacts(g, s, |g.valves|);
    SuccessorsUpTo(g, s, |g.valves|)
  }

  /**
   * What a successor is: it stands at a valve that was closed and that
   * could be reached and opened in time, the walk and the opening cost
   * exactly `distance + 1` minutes, exactly that valve is no longer
   * closed, and the pressure grows by that valve's flow for every minute
   * left; every such valve gives exactly one successor.
   */
  lemma SuccessorFacts(g: Graph, s: State, t: State)
    requires SearchGraph(g) && s.id <= |g.valves| && t in Successors(g, s)
    ensures t.id < |g.valves| && s.closedValves.Contains(t.id)
    ensures g.Distance(s.id, t.id) + 1 <= s.remainingTime
    ensures t.remainingTime == s.remainingTime - (g.Distance(s.id, t.id) + 1)
    ensures forall v | 0 <= v < 16 :: t.closedValves.Contains(v) <==> s.closedValves.Contains(v) && v != t.id
    ensures t.totalPressure == s.totalPressure + g.valves[t.id].flowRate * t.remainingTime
  {
    SuccessorsUpToFacts(g, s, |g.valves|);
  }

  /** One more than the largest remaining time on a stack. */
  ghost function MaxTime(stack: seq<State>): (r: nat)
    ensures forall t | t in stack :: t.remainingTime < r
  {
    if stack == [] then 0
    else Max(MaxTime(stack[..|stack| - 1]), stack[|stack| - 1].remainingTime + 1)
  }

  lemma {:induction false} MaxTimeAtMost(stack: seq<State>, bound: nat)
    requires forall t | t in stack :: t.remainingTime < bound
    ensures MaxTime(stack) <= bound
  {
    if stack != [] {
      MaxTimeAtMost(stack[..|stack| - 1], bound);
    }
  }

  ghost predicate OnGraph(g: Graph, stack: seq<State>)
  {
    forall t | t in stack :: t.id <= |g.valves|
  }

  /**
   * The solutions the search emits below `s`, in emission order: `s`
   * itself when it has no successor, otherwise those of its successors,
   * last pushed first.
   */
  ghost function Outcomes(g: Graph, init: ValveSet, s: State): seq<Solution>
    requires SearchGraph(g) && s.id <= |g.valves|
    decreases s.remainingTime, 1, 0
  {
    var next := Successors(g, s);
    if next == [] then [Solution(init.Diff(s.closedValves), s.totalPressure)]
    else
      MaxTimeAtMost(next, s.remainingTime);
      OutcomesOfStack(g, init, next)
  }

  /** The solutions a stack yields when popped until empty. */
  ghost function OutcomesOfStack(g: Graph, init: ValveSet, stack: seq<State>): seq<Solution>
    requires SearchGraph(g) && OnGraph(g, stack)
    decreases MaxTime(stack), 0, |stack|
  {
    if stack == [] then []
    else
      var last := stack[|stack| - 1];
      Outcomes(g, init, last) + OutcomesOfStack(g, init, stack[..|stack| - 1])
  }

  /** The number of states the search visits below `s`, itself included. */
  ghost function Size(g: Graph, s: State): nat
    requires SearchGraph(g) && s.id <= |g.valves|
    decreases s.remainingTime, 1, 0
  {
    var next := Successors(g, s);
    MaxTimeAtMost(next, s.remainingTime);
    1 + StackSize(g, next)
  }

  ghost function StackSize(g: Graph, stack: seq<State>): nat
    requires SearchGraph(g) && OnGraph(g, stack)
    decreases MaxTime(stack), 0, |stack|
  {
    if stack == [] then 0
    else Size(g, stack[|stack| - 1]) + StackSize(g, stack[..|stack| - 1])
  }

  /** Pushing `b` on top of `a`: b's outcomes come first, and the sizes add up. */
  lemma {:induction false} StackAppend(g: Graph, init: ValveSet, a: seq<State>, b: seq<State>)
    requires SearchGraph(g) && OnGraph(g, a) && OnGraph(g, b)
    ensures OnGraph(g, a + b)
    ensures OutcomesOfStack(g, init, a + b) == OutcomesOfStack(g, init, b) + OutcomesOfStack(g, init, a)
    ensures StackSize(g, a + b) == StackSize(g, a) + StackSize(g, b)
    decreases |b|
  {
    if b != [] {
      var b' := b[..|b| - 1];
      assert (a + b)[..|a + b| - 1] == a + b';
      StackAppend(g, init, a, b');
    } else {
      assert a + b == a;
    }
  }

  /**
   * `find_solutions`: pop a state, push every successor in id order, and
   * emit a solution for a state that pushed none; the emitted list is the
   * outcomes of the start state.
   */
  method FindSolutions(id: nat, remainingTime: nat, closedValves: ValveSet, g: Graph)
    returns (solutions: seq<Solution>)
    requires SearchGraph(g) && id <= |g.valves|
    ensures solutions == Outcomes(g, closedValves, State(id, remainingTime, closedValves, 0))
  {
    var root := State(id, remainingTime, closedValves, 0);
    solutions := [];
    var states := [root];
    assert OutcomesOfStack(g, closedValves, states) == Outcomes(g, closedValves, root) + [];
    while states != []
      invariant OnGraph(g, states)
      invariant solutions + OutcomesOfStack(g, closedValves, states) == Outcomes(g, closedValves, root)
      decreases StackSize(g, states)
    {
      var state := states[|states| - 1];
      var below := states[..|states| - 1];
      var next := Successors(g, state);
      MaxTimeAtMost(next, state.remainingTime);
      assert StackSize(g, states) == 1 + StackSize(g, next) + StackSize(g, below);
      StackAppend(g, closedValves, below, next);
      var length := |below|;
      states := PushSuccessors(g, state, below);
      if length == |states| {
        solutions := solutions + [Solution(closedValves.Diff(state.closedValves), state.totalPressure)];
      }
    }
  }

  /** The `for` loop of `find_solutions`: push one state per valve that can be opened next. */
  method PushSuccessors(g: Graph, state: State, states: seq<State>) returns (states': seq<State>)
    requires SearchGraph(g) && state.id <= |g.valves|
    ensures states' == states + Successors(g, state)
  {
    states' := states;
    for valve := 0 to |g.valves|
      invariant states' == states + SuccessorsUpTo(g, state, valve)
    {
      if !state.closedValves.Contains(valve) {
        assert SuccessorsUpTo(g, state, valve + 1) == SuccessorsUpTo(g, state, valve);
        continue;
      }
      var effort := g.Distance(state.id, valve) + 1;
      if effort > state.remainingTime {
        assert SuccessorsUpTo(g, state, valve + 1) == SuccessorsUpTo(g, state, valve);
        continue;
      }
      var remainingTime := state.remainingTime - effort;
      var closedValves := state.closedValves.Remove(valve);
      var totalPressure := state.totalPressure + g.valves[valve].flowRate * remainingTime;
      states' := states' + [State(valve, remainingTime, closedValves, totalPressure)];
      assert SuccessorsUpTo(g, state, valve + 1) == SuccessorsUpTo(g, state, valve) + [Open(g, state, valve)];
    }
  }

  // ---------------------------------------------------------------------
  // What the search emits

  predicate SubsetOf(a: ValveSet, b: ValveSet)
  {
    forall v | 0 <= v < 16 :: a.Contains(v) ==> b.Contains(v)
  }

  /**
   * A solution reachable from a state whose closed set is `closed` and
   * whose pressure is `pressure`: it opened only valves of `init`, every
   * valve already opened there stays opened, and pressure only grew.
   */
  predicate Extends(init: ValveSet, closed: ValveSet, pressure: nat, o: Solution)
  {
    o.totalPressure >= pressure
    && SubsetOf(o.valves, init)
    && forall v | 0 <= v < 16 :: init.Contains(v) && !closed.Contains(v) ==> o.valves.Contains(v)
  }

  /**
   * Every state yields at least one solution, and each of them extends
   * the state: its valves are the initially closed ones that got opened on
   * the way, which include those opened before reaching the state.
   */
  lemma {:induction false} OutcomesExtend(g: Graph, init: ValveSet, s: State)
    requires SearchGraph(g) && s.id <= |g.valves| && SubsetOf(s.closedValves, init)
    ensures |Outcomes(g, init, s)| >= 1
    ensures forall o | o in Outcomes(g, init, s) :: Extends(init, s.closedValves, s.totalPressure, o)
    decreases s.remainingTime, 1, 0
  {
    var next := Successors(g, s);
    if next != [] {
      MaxTimeAtMost(next, s.remainingTime);
      forall t | t in next
        ensures t.totalPressure >= s.totalPressure && SubsetOf(t.closedValves, s.closedValves)
      {
        SuccessorShrinks(g, s, t);
      }
      StackExtends(g, init, next, s.closedValves, s.totalPressure);
    }
  }

  /** A successor has no more closed valves and at least the pressure. */
  lemma SuccessorShrinks(g: Graph, s: State, t: State)
    requires SearchGraph(g) && s.id <= |g.valves| && t in Successors(g, s)
    ensures t.totalPressure >= s.totalPressure && SubsetOf(t.closedValves, s.closedValves)
  {
    SuccessorFacts(g, s, t);
  }

  /** Every solution a stack yields extends a common ancestor of all its states. */
  lemma {:induction false} StackExtends(g: Graph, init: ValveSet, stack: seq<State>, closed: ValveSet, pressure: nat)
    requires SearchGraph(g) && OnGraph(g, stack) && SubsetOf(closed, init)
    requires forall t | t in stack :: t.totalPressure >= pressure && SubsetOf(t.closedValves, closed)
    ensures |OutcomesOfStack(g, init, stack)| >= |stack|
    ensures forall o | o in OutcomesOfStack(g, init, stack) :: Extends(init, closed, pressure, o)
    decreases MaxTime(stack), 0, |stack|
  {
    if stack != [] {
      var last := stack[|stack| - 1];
      var rest := stack[..|stack| - 1];
      assert last in stack;
      OutcomesExtend(g, init, last);
      StackExtends(g, init, rest, closed, pressure);
    }
  }

  /** `max()` of the pressures of a non-empty list of solutions. */
  function MaxPressure(solutions: seq<Solution>): (r: nat)
    requires |solutions| > 0
    ensures exists o | o in solutions :: o.totalPressure == r
    ensures forall o | o in solutions :: o.totalPressure <= r
  {
    if |solutions| == 1 then solutions[0].totalPressure
    else
      var r := MaxPressure(solutions[1..]);
      assert forall o | o in solutions :: o == solutions[0] || o in solutions[1..];
      if solutions[0].totalPressure > r then solutions[0].totalPressure else r
  }

  /**
   * `part_a`: build the graph and search from AA with 30 minutes and every
   * kept valve closed; the answer is the best pressure among the solutions.
   */
  method PartA(records: seq<ValveRecord>) returns (r: Result<nat>)
    ensures r.Ok? <==> Buildable(records) && KeptConnected(records)
    ensures r.Ok? ==> exists g | CompactedFrom(AllValves(records, Ids(records)).value, Ids(records)["AA"], g) && SearchGraph(g) ::
      var outcomes := Outcomes(g, g.closedValves, State(|g.valves|, 30, g.closedValves, 0));
      (exists o | o in outcomes :: o.totalPressure == r.value)
      && (forall o | o in outcomes :: o.totalPressure <= r.value)
  {
    var graph := NewGraph(records);
    if graph.Err? {
      return Err(graph.message);
    }
    var g := graph.value;
    ConnectedIffKept(records, g);
    if !g.Connected() {
      return Err("attempt to add with overflow");
    }
    var best := BestPressure(g, 30);
    r := Ok(best);
  }

  /** The best pressure among the solutions of the search from AA with every kept valve closed. */
  method BestPressure(g: Graph, minutes: nat) returns (best: nat)
    requires SearchGraph(g)
    ensures var outcomes := Outcomes(g, g.closedValves, State(|g.valves|, minutes, g.closedValves, 0));
      (exists o | o in outcomes :: o.totalPressure == best)
      && (forall o | o in outcomes :: o.totalPressure <= best)
  {
    var solutions := FindSolutions(|g.valves|, minutes, g.closedValves, g);
    forall v | 0 <= v < 16 && g.closedValves.Contains(v) ensures g.closedValves.Contains(v) { }
    OutcomesExtend(g, g.closedValves, State(|g.valves|, minutes, g.closedValves, 0));
    best := MaxPressure(solutions);
  }

  // ---------------------------------------------------------------------
  // Part B: the best pair of disjoint solutions

  /** Ordered by descending pressure, as `sort_by_key(Reverse(total_pressure))` leaves it. */
  predicate SortedDesc(s: seq<Solution>)
  {
    forall i, j | 0 <= i < j < |s| :: s[i].totalPressure >= s[j].totalPressure
  }

  /** Put `x` into `sorted` after every solution with at least its pressure. */
  function Insert(sorted: seq<Solution>, x: Solution): (r: seq<Solution>)
    requires SortedDesc(sorted)
    ensures SortedDesc(r)
    ensures multiset(r) == multiset(sorted) + multiset{x}
  {
    if sorted == [] then [x]
    else if sorted[0].totalPressure >= x.totalPressure then
      var rest := Insert(sorted[1..], x);
      InsertHead(sorted, x, rest);
      [sorted[0]] + rest
    else
      assert forall j | 0 <= j < |sorted| :: sorted[0].totalPressure >= sorted[j].totalPressure;
      [x] + sorted
  }

  lemma InsertHead(sorted: seq<Solution>, x: Solution, rest: seq<Solution>)
    requires |sorted| > 0 && SortedDesc(sorted) && sorted[0].totalPressure >= x.totalPressure
    requires SortedDesc(rest) && multiset(rest) == multiset(sorted[1..]) + multiset{x}
    ensures SortedDesc([sorted[0]] + rest)
    ensures multiset([sorted[0]] + rest) == multiset(sorted) + multiset{x}
  {
    assert sorted == [sorted[0]] + sorted[1..];
    forall j | 0 <= j < |rest|
      ensures sorted[0].totalPressure >= rest[j].totalPressure
    {
      assert rest[j] in multiset(rest);
      assert rest[j] == x || rest[j] in sorted[1..];
    }
  }

  /**
   * The stable sort by descending pressure, as insertion in input order:
   * a permutation of its input, in descending pressure.
   */
  function SortByPressure(s: seq<Solution>): (r: seq<Solution>)
    ensures SortedDesc(r)
    ensures multiset(r) == multiset(s)
  {
    if s == [] then []
    else
      assert s == s[..|s| - 1] + [s[|s| - 1]];
      Insert(SortByPressure(s[..|s| - 1]), s[|s| - 1])
  }

  /** `position` of the first solution after the first that does not overlap it. */
  function FirstDisjoint(s: seq<Solution>): (r: Option<nat>)
    requires |s| > 0
    ensures r.Some? ==> r.value + 1 < |s| && !s[r.value + 1].valves.Overlaps(s[0].valves)
    ensures r.Some? ==> forall j | 1 <= j <= r.value :: s[j].valves.Overlaps(s[0].valves)
    ensures r.None? ==> forall j | 1 <= j < |s| :: s[j].valves.Overlaps(s[0].valves)
  {
    FirstDisjointFrom(s, 1)
  }

  function FirstDisjointFrom(s: seq<Solution>, j: nat): (r: Option<nat>)
    requires 1 <= j <= |s|
    ensures r.Some? ==> j <= r.value + 1 < |s| && !s[r.value + 1].valves.Overlaps(s[0].valves)
    ensures r.Some? ==> forall i | j <= i <= r.value :: s[i].valves.Overlaps(s[0].valves)
    ensures r.None? ==> forall i | j <= i < |s| :: s[i].valves.Overlaps(s[0].valves)
    decreases |s| - j
  {
    if j == |s| then None
    else if !s[j].valves.Overlaps(s[0].valves) then Some(j - 1)
    else FirstDisjointFrom(s, j + 1)
  }

  predicate Disjoint(s: seq<Solution>, i: nat, j: nat)
    requires i < |s| && j < |s|
  {
    !s[i].valves.Overlaps(s[j].valves)
  }

  /** `best` is the largest pressure of two disjoint solutions at distinct positions. */
  predicate IsBestPair(s: seq<Solution>, best: nat)
  {
    (exists i, j | 0 <= i < j < |s| :: Disjoint(s, i, j) && best == s[i].totalPressure + s[j].totalPressure)
    && (forall i, j | 0 <= i < j < |s| && Disjoint(s, i, j) :: s[i].totalPressure + s[j].totalPressure <= best)
  }

  /**
   * The pair search `part_b` means to run: with `first` the first solution
   * disjoint from the best one, start from that pair, then try every
   * disjoint pair among the solutions before `first` (any pair reaching
   * `first` or beyond cannot beat the start). On a list sorted by
   * descending pressure this is the best disjoint pair.
   */
  method PairSearch(s: seq<Solution>) returns (r: Result<nat>)
    requires |s| > 0 && SortedDesc(s)
    ensures r.Ok? <==> exists j | 1 <= j < |s| :: Disjoint(s, 0, j)
    ensures r.Ok? ==> IsBestPair(s, r.value)
  {
    var lowerBound := FirstDisjoint(s);
    if lowerBound.None? {
      forall j | 1 <= j < |s| ensures !Disjoint(s, 0, j) {
        OverlapsSymmetric(s[j].valves, s[0].valves);
      }
      return Err("called `Option::unwrap()` on a `None` value");
    }
    var first := lowerBound.value + 1;
    OverlapsSymmetric(s[first].valves, s[0].valves);
    assert Disjoint(s, 0, first);
    var best: nat := s[0].totalPressure + s[first].totalPressure;
    for player := 1 to first
      invariant BestSoFar(s, first, player, best)
    {
      best := ScanPartners(s, first, player, best);
    }
    BestPairFound(s, first, best);
    r := Ok(best);
  }

  lemma OverlapsSymmetric(a: ValveSet, b: ValveSet)
    ensures a.Overlaps(b) <==> b.Overlaps(a)
  {
  }

  /**
   * The search state after trying every player before `player`: `best` is
   * a disjoint pair's pressure, at least the starting pair's, and at least
   * every disjoint pair whose player comes before `player` and whose
   * partner comes before `first`.
   */
  ghost predicate BestSoFar(s: seq<Solution>, first: nat, player: nat, best: nat)
    requires 0 < first < |s|
  {
    (exists i, j | 0 <= i < j < |s| :: Disjoint(s, i, j) && best == s[i].totalPressure + s[j].totalPressure)
    && best >= s[0].totalPressure + s[first].totalPressure
    && forall i, j | 1 <= i < player && i < j < first && Disjoint(s, i, j) ::
         s[i].totalPressure + s[j].totalPressure <= best
  }

  /** The inner loop: try `player` with every later solution before `first`. */
  method ScanPartners(s: seq<Solution>, first: nat, player: nat, best: nat) returns (best': nat)
    requires 0 < player < first < |s| && BestSoFar(s, first, player, best)
    ensures BestSoFar(s, first, player + 1, best')
  {
    best' := best;
    for elephant := player + 1 to first
      invariant BestSoFar(s, first, player, best')
      invariant forall j | player < j < elephant && Disjoint(s, player, j) ::
        s[player].totalPressure + s[j].totalPressure <= best'
    {
      ghost var before := best';
      if !s[player].valves.Overlaps(s[elephant].valves) {
        var totalPressure := s[player].totalPressure + s[elephant].totalPressure;
        if totalPressure > best' {
          RaiseBest(s, first, player, best', elephant);
          best' := totalPressure;
        }
      }
      PartnerTried(s, player, player + 1, elephant, before, best');
    }
    PlayerDone(s, first, player, best');
  }

  /** Trying `elephant` as a partner extends the partners tried by one. */
  lemma PartnerTried(s: seq<Solution>, player: nat, from: nat, elephant: nat, before: nat, after: nat)
    requires player < |s| && elephant < |s| && before <= after
    requires forall j | from <= j < elephant && Disjoint(s, player, j) ::
      s[player].totalPressure + s[j].totalPressure <= before
    requires Disjoint(s, player, elephant) ==> s[player].totalPressure + s[elephant].totalPressure <= after
    ensures forall j | from <= j < elephant + 1 && Disjoint(s, player, j) ::
      s[player].totalPressure + s[j].totalPressure <= after
  {
  }

  /** A disjoint pair beating `best` becomes the new best. */
  lemma RaiseBest(s: seq<Solution>, first: nat, player: nat, best: nat, j: nat)
    requires 0 < player < j < first < |s| && BestSoFar(s, first, player, best)
    requires Disjoint(s, player, j) && s[player].totalPressure + s[j].totalPressure > best
    ensures BestSoFar(s, first, player, s[player].totalPressure + s[j].totalPressure)
  {
  }

  /** Once every partner of `player` is tried, `player` is done. */
  lemma PlayerDone(s: seq<Solution>, first: nat, player: nat, best: nat)
    requires 0 < player < first < |s| && BestSoFar(s, first, player, best)
    requires forall j | player < j < first && Disjoint(s, player, j) ::
      s[player].totalPressure + s[j].totalPressure <= best
    ensures BestSoFar(s, first, player + 1, best)
  {
  }

  /** Pairs the loops skip cannot beat the starting pair. */
  lemma BestPairFound(s: seq<Solution>, first: nat, best: nat)
    requires 0 < first < |s| && SortedDesc(s) && BestSoFar(s, first, first, best)
    requires forall j | 1 <= j < first :: !Disjoint(s, 0, j)
    ensures IsBestPair(s, best)
  {
    forall i, j | 0 <= i < j < |s| && Disjoint(s, i, j)
      ensures s[i].totalPressure + s[j].totalPressure <= best
    {
      if j >= first {
        assert s[i].totalPressure <= s[0].totalPressure;
        assert s[j].totalPressure <= s[first].totalPressure;
      }
    }
  }

  /**
   * What the pair search of `part_b` computes as written, once
   * `lowerBound` (a position within the list after the first solution) is
   * at least 2: the start pairs the first solution with the one at index
   * `lowerBound` of the whole list, and the players are indices
   * `1..lowerBound - 1` with partners from the player itself up to index
   * `lowerBound - 1`.
   */
  ghost predicate AsWrittenBest(s: seq<Solution>, lowerBound: nat, best: nat)
    requires 2 <= lowerBound < |s|
  {
    var start := s[0].totalPressure + s[lowerBound].totalPressure;
    (best == start
     || exists i, j | 1 <= i <= lowerBound - 2 && i <= j < lowerBound ::
          Disjoint(s, i, j) && best == s[i].totalPressure + s[j].totalPressure)
    && best >= start
    && forall i, j | 1 <= i <= lowerBound - 2 && i <= j < lowerBound && Disjoint(s, i, j) ::
         s[i].totalPressure + s[j].totalPressure <= best
  }

  /**
   * `part_b`'s pair search exactly as written: it panics when no later
   * solution is disjoint from the first one, and also when the first
   * disjoint one sits at position 0 or 1 of the rest (`lower_bound - 1`
   * underflows, or the slice `1..0` is reversed).
   */
  method PairSearchAsWritten(s: seq<Solution>) returns (r: Result<nat>)
    requires |s| > 0
    ensures r.Ok? <==> FirstDisjoint(s).Some? && FirstDisjoint(s).value >= 2
    ensures r.Ok? ==> AsWrittenBest(s, FirstDisjoint(s).value, r.value)
  {
    var position := FirstDisjoint(s);
    if position.None? {
      return Err("called `Option::unwrap()` on a `None` value");
    }
    var lowerBound := position.value;
    var best: nat := s[0].totalPressure + s[lowerBound].totalPressure;
    if lowerBound == 0 {
      return Err("attempt to subtract with overflow");
    }
    if lowerBound == 1 {
      return Err("slice index starts at 1 but ends at 0");
    }
    for index := 0 to lowerBound - 2
      invariant AsWrittenSoFar(s, lowerBound, index + 1, best)
    {
      best := ScanPartnersAsWritten(s, lowerBound, index, best);
    }
    r := Ok(best);
  }

  /** The inner loop as written: player `1 + index` against indices `index + 1..lowerBound - 1`. */
  method ScanPartnersAsWritten(s: seq<Solution>, lowerBound: nat, index: nat, best: nat) returns (best': nat)
    requires 2 <= lowerBound < |s| && index < lowerBound - 2
    requires AsWrittenSoFar(s, lowerBound, index + 1, best)
    ensures AsWrittenSoFar(s, lowerBound, index + 2, best')
  {
    best' := best;
    var player := 1 + index;
    for elephant := index + 1 to lowerBound
      invariant AsWrittenSoFar(s, lowerBound, player, best')
      invariant forall j | player <= j < elephant && Disjoint(s, player, j) ::
        s[player].totalPressure + s[j].totalPressure <= best'
    {
      ghost var before := best';
      if !s[player].valves.Overlaps(s[elephant].valves) {
        var totalPressure := s[player].totalPressure + s[elephant].totalPressure;
        if totalPressure > best' {
          RaiseBestAsWritten(s, lowerBound, player, best', elephant);
          best' := totalPressure;
        }
      }
      PartnerTried(s, player, player, elephant, before, best');
    }
    PlayerDoneAsWritten(s, lowerBound, player, best');
  }

  /** A disjoint pair beating `best` becomes the new best. */
  lemma RaiseBestAsWritten(s: seq<Solution>, lowerBound: nat, player: nat, best: nat, j: nat)
    requires 2 <= lowerBound < |s| && 1 <= player <= lowerBound - 2 && player <= j < lowerBound
    requires AsWrittenSoFar(s, lowerBound, player, best)
    requires Disjoint(s, player, j) && s[player].totalPressure + s[j].totalPressure > best
    ensures AsWrittenSoFar(s, lowerBound, player, s[player].totalPressure + s[j].totalPressure)
  {
  }

  /** Once every partner of `player` is tried, `player` is done. */
  lemma PlayerDoneAsWritten(s: seq<Solution>, lowerBound: nat, player: nat, best: nat)
    requires 2 <= lowerBound < |s| && 1 <= player <= lowerBound - 2
    requires AsWrittenSoFar(s, lowerBound, player, best)
    requires forall j | player <= j < lowerBound && Disjoint(s, player, j) ::
      s[player].totalPressure + s[j].totalPressure <= best
    ensures AsWrittenSoFar(s, lowerBound, player + 1, best)
  {
  }

  /** `AsWrittenBest` restricted to the players before `player`. */
  ghost predicate AsWrittenSoFar(s: seq<Solution>, lowerBound: nat, player: nat, best: nat)
    requires 2 <= lowerBound < |s|
  {
    var start := s[0].totalPressure + s[lowerBound].totalPressure;
    (best == start
     || exists i, j | 1 <= i <= lowerBound - 2 && i <= j < lowerBound ::
          Disjoint(s, i, j) && best == s[i].totalPressure + s[j].totalPressure)
    && best >= start
    && forall i, j | 1 <= i < player && i <= lowerBound - 2 && i <= j < lowerBound && Disjoint(s, i, j) ::
         s[i].totalPressure + s[j].totalPressure <= best
  }

  /**
   * Four solutions, sorted: three that open valve 0 (pressures 20, 15 and
   * 12) and one that opens nothing. The first disjoint one sits at
   * position 2 of the rest, so the search as written starts from
   * 20 + 12 = 32, a pair that shares valve 0, and finds nothing larger;
   * the best disjoint pair is 20 + 0 = 20.
   */
  lemma AsWrittenCountsOverlappingPair()
    ensures var s := [Solution(ValveSet(1), 20), Solution(ValveSet(1), 15),
                      Solution(ValveSet(1), 12), Solution(ValveSet(0), 0)];
      SortedDesc(s) && FirstDisjoint(s) == Some(2)
      && (forall best :: AsWrittenBest(s, 2, best) ==> best == 32)
      && AsWrittenBest(s, 2, 32)
      && IsBestPair(s, 20) && !IsBestPair(s, 32)
  {
    var s := [Solution(ValveSet(1), 20), Solution(ValveSet(1), 15),
              Solution(ValveSet(1), 12), Solution(ValveSet(0), 0)];
    assert Has(1, 0) by { MaskRaw(1, 0); }
    assert s[1].valves.Overlaps(s[0].valves) && s[2].valves.Overlaps(s[0].valves);
    assert !s[3].valves.Overlaps(s[0].valves);
    assert FirstDisjoint(s) == Some(2);
    assert Disjoint(s, 0, 3);
    assert forall i, j | 0 <= i < j < 3 :: s[i].valves.Overlaps(s[j].valves);
  }

  /**
   * `part_b`: search with 26 minutes, sort the solutions by descending
   * pressure and run the corrected pair search over them.
   */
  method PartB(records: seq<ValveRecord>) returns (r: Result<nat>)
    ensures r.Ok? <==> (Buildable(records) && KeptConnected(records)
      && exists g | GraphOf(records, g) && SearchGraph(g) :: Partnered(g, 26))
    ensures r.Ok? ==> exists g | CompactedFrom(AllValves(records, Ids(records)).value, Ids(records)["AA"], g) && SearchGraph(g) ::
      IsBestPair(SortByPressure(Outcomes(g, g.closedValves, State(|g.valves|, 26, g.closedValves, 0))), r.value)
  {
    var graph := NewGraph(records);
    if graph.Err? {
      return Err(graph.message);
    }
    var g := graph.value;
    ConnectedIffKept(records, g);
    if !g.Connected() {
      return Err("attempt to add with overflow");
    }
    var solutions := FindSolutions(|g.valves|, 26, g.closedValves, g);
    OutcomesExtend(g, g.closedValves, State(|g.valves|, 26, g.closedValves, 0));
    var sorted := SortByPressure(solutions);
    assert |sorted| == |multiset(sorted)| == |multiset(solutions)| == |solutions|;
    r := PairSearch(sorted);
    PartneredOnly(records, g);
  }

  /**
   * The solutions of a search from AA over `minutes`, sorted by pressure,
   * hold one disjoint from the best.
   */
  ghost predicate Partnered(g: Graph, minutes: nat)
    requires SearchGraph(g)
  {
    var sorted := SortByPressure(Outcomes(g, g.closedValves, State(|g.valves|, minutes, g.closedValves, 0)));
    exists j | 1 <= j < |sorted| :: Disjoint(sorted, 0, j)
  }

  /** Whether the records' graph is partnered does not depend on which graph witnesses it. */
  lemma PartneredOnly(records: seq<ValveRecord>, g: Graph)
    requires Buildable(records) && GraphOf(records, g) && SearchGraph(g)
    ensures Partnered(g, 26) <==> exists g' | GraphOf(records, g') && SearchGraph(g') :: Partnered(g', 26)
  {
    var all, start := AllValves(records, Ids(records)).value, Ids(records)["AA"];
    forall g' | GraphOf(records, g')
      ensures g' == g
    {
      CompactedUnique(all, start, g, g');
    }
  }
}
