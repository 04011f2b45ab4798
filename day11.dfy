/**
 * Day 11: monkeys pass items around. On its turn a monkey inspects each
 * of its items in order: it applies its operation to the worry level,
 * divides by 3 (part A, "relief") or reduces modulo the product of all
 * divisors (part B), and throws the item to one of two monkeys depending
 * on divisibility. The answer is the product of the two largest numbers
 * of inspections.
 */
module Day11 {
  import opened Common

  const U64_MAX: nat := U64_MODULUS - 1

  /** Rust's panic messages for `%` by zero, a `u64` product too large, and `0 - 1` on `usize`. */
  const REMAINDER_BY_ZERO := "attempt to calculate the remainder with a divisor of zero"
  const MUL_OVERFLOW := "attempt to multiply with overflow"
  const SUB_OVERFLOW := "attempt to subtract with overflow"

  datatype Operation = Add(value: nat) | Multiply(value: nat) | Square

  // ---------------------------------------------------------------------
  // Operations

  /** The operation text after "new = old ", for instance "* 19", "+ 6" or "* old". */
  predicate OperationText(s: string)
  {
    |s| >= 3 && (s[2] == 'o' || ((s[0] == '+' || s[0] == '*') && ParseUnsigned(s[2..], U64_MAX).Some?))
  }

  /**
   * `Operation::parse`: 'o' at byte 2 means "old", the square; otherwise
   * the number from byte 2 on is added ('+') or multiplied ('*').
   */
  function ParseOperation(s: string): (r: Operation)
    requires OperationText(s)
    ensures s[2] == 'o' <==> r == Square
    ensures s[2] != 'o' && s[0] == '+' ==> r == Add(ParseUnsigned(s[2..], U64_MAX).value)
    ensures s[2] != 'o' && s[0] == '*' ==> r == Multiply(ParseUnsigned(s[2..], U64_MAX).value)
  {
    if s[2] == 'o' then Square
    else
      var value := ParseUnsigned(s[2..], U64_MAX).value;
      if s[0] == '+' then Add(value) else Multiply(value)
  }

  /** How the puzzle writes an operation. */
  function FormatOperation(op: Operation): string
  {
    match op
    case Add(v) => "+ " + NatToString(v)
    case Multiply(v) => "* " + NatToString(v)
    case Square => "* old"
  }

  /** Parsing a written operation gives it back. */
  lemma ParseFormatOperation(op: Operation)
    requires op.Add? || op.Multiply? ==> op.value <= U64_MAX
    ensures OperationText(FormatOperation(op)) && ParseOperation(FormatOperation(op)) == op
  {
    if !op.Square? {
      var s := FormatOperation(op);
      assert s[2..] == NatToString(op.value);
      assert IsDigit(s[2]);
      ParseNatToString(op.value, U64_MAX);
    }
  }

  /** The operation on the worry level, wrapping around at 2^64 as `overflowing_add`/`overflowing_mul` do. */
  function Apply(op: Operation, item: nat): (r: nat)
    ensures r < U64_MODULUS
  {
    match op
    case Add(v) => (v + item) % U64_MODULUS
    case Multiply(v) => (v * item) % U64_MODULUS
    case Square => (item * item) % U64_MODULUS
  }

  /**
   * `calculate_worry_level`: apply the operation, then divide by 3 with
   * relief, or reduce modulo `modulo` without it.
   */
  function CalculateWorryLevel(op: Operation, item: nat, relief: bool, modulo: nat): (r: Result<nat>)
    ensures r.Err? <==> !relief && modulo == 0
    ensures r.Err? ==> r.message == REMAINDER_BY_ZERO
    ensures r.Ok? && relief ==> 3 * r.value <= Apply(op, item) < 3 * r.value + 3
    ensures r.Ok? && !relief ==> r.value < modulo && (Apply(op, item) - r.value) % modulo == 0
  {
    var result := Apply(op, item);
    if relief then Ok(result / 3)
    else if modulo == 0 then Err(REMAINDER_BY_ZERO)
    else ModMultiple(result, modulo); Ok(result % modulo)
  }

  /** Taking away the remainder leaves a multiple of the divisor. */
  lemma ModMultiple(x: nat, n: nat)
    requires n > 0
    ensures (x - x % n) % n == 0
  {
    var q, s := DivMod(x, n);
    ModUnique(x - s, q, 0, n);
  }

  /** The division theorem: quotient and remainder are unique. */
  lemma {:induction false} ModUnique(x: nat, q: nat, s: nat, d: nat)
    requires d > 0 && s < d && x == q * d + s
    ensures x % d == s
  {
    var q', s' := x / d, x % d;
    assert x == q' * d + s';
    if q' < q {
      MulGap(q', q, d);
    } else if q < q' {
      MulGap(q, q', d);
    }
  }

  lemma MulGap(a: nat, b: nat, d: nat)
    requires a < b
    ensures a * d + d <= b * d
  {
    var c := b - a;
    assert b * d == a * d + c * d;
    MulAtLeast(c, d);
  }

  lemma MulAtLeast(c: nat, d: nat)
    requires c >= 1
    ensures c * d >= d
  {
    assert c * d == (c - 1) * d + d;
  }

  /**
   * Reducing modulo a multiple of a divisor keeps the remainder by that
   * divisor: without relief the throw targets are those of the unreduced
   * level.
   */
  lemma ModuloKeepsTest(x: nat, modulo: nat, d: nat, k: nat)
    requires d > 0 && k > 0 && modulo == d * k
    ensures (x % modulo) % d == x % d
  {
    var q, s := DivMod(x, modulo);
    var q2, s2 := DivMod(s, d);
    var m := Regroup(q, d, k, q2);
    ModUnique(x, m, s2, d);
  }

  /** Euclidean division by a positive divisor. */
  lemma DivMod(x: nat, n: nat) returns (q: nat, s: nat)
    requires n > 0
    ensures q == x / n && s == x % n && x == q * n + s && s < n
  {
    q, s := x / n, x % n;
  }

  /** `q` multiples of `d * k` plus `q2` multiples of `d` are `q * k + q2` multiples of `d`. */
  lemma Regroup(q: nat, d: nat, k: nat, q2: nat) returns (m: nat)
    ensures m == q * k + q2 && q * (d * k) + q2 * d == m * d
  {
    m := q * k + q2;
    assert q * (d * k) == (q * k) * d;
    assert m * d == (q * k) * d + q2 * d;
  }

  // ---------------------------------------------------------------------
  // Monkeys as values

  /** The product of all divisors: `modulo`. */
  function Product(divisors: seq<nat>): nat
  {
    if divisors == [] then 1 else Product(divisors[..|divisors| - 1]) * divisors[|divisors| - 1]
  }

  /** Every divisor divides the product of them all. */
  lemma {:induction false} DivisorDividesProduct(divisors: seq<nat>, j: nat)
    requires j < |divisors|
    ensures exists k: nat :: Product(divisors) == divisors[j] * k
  {
    var init := divisors[..|divisors| - 1];
    var last := divisors[|divisors| - 1];
    if j == |divisors| - 1 {
      assert Product(divisors) == last * Product(init);
    } else {
      DivisorDividesProduct(init, j);
      var k: nat :| Product(init) == init[j] * k;
      assert Product(divisors) == divisors[j] * (k * last);
    }
  }

  /** Positive divisors have a positive product. */
  lemma {:induction false} ProductPositive(divisors: seq<nat>)
    requires forall j | 0 <= j < |divisors| :: divisors[j] > 0
    ensures Product(divisors) > 0
  {
    if divisors != [] {
      ProductPositive(divisors[..|divisors| - 1]);
      MulPositive(Product(divisors[..|divisors| - 1]), divisors[|divisors| - 1]);
    }
  }

  lemma MulPositive(a: nat, b: nat)
    requires a > 0 && b > 0
    ensures a * b > 0
  {
  }

  /**
   * Without relief, reducing modulo the product of all divisors leaves
   * every monkey's divisibility test as it was on the unreduced level.
   */
  lemma ReductionKeepsTests(divisors: seq<nat>, j: nat, x: nat)
    requires forall i | 0 <= i < |divisors| :: divisors[i] > 0
    requires j < |divisors|
    ensures Product(divisors) > 0 && (x % Product(divisors)) % divisors[j] == x % divisors[j]
  {
    ProductPositive(divisors);
    DivisorDividesProduct(divisors, j);
    var k: nat :| Product(divisors) == divisors[j] * k;
    ModuloKeepsTest(x, Product(divisors), divisors[j], k);
  }

  /** A divisor is zero exactly when the product of all divisors is. */
  lemma {:induction false} ProductZero(divisors: seq<nat>)
    ensures Product(divisors) == 0 <==> exists j | 0 <= j < |divisors| :: divisors[j] == 0
  {
    if divisors != [] {
      var init := divisors[..|divisors| - 1];
      ProductZero(init);
      assert forall j | 0 <= j < |init| :: init[j] == divisors[j];
      if Product(init) != 0 && divisors[|divisors| - 1] != 0 {
        MulPositive(Product(init), divisors[|divisors| - 1]);
      }
    }
  }

  /**
   * The fold `acc * monkey.divisor` in `u64`: it panics at the first
   * partial product above `u64::MAX`.
   */
  function CheckedProduct(divisors: seq<nat>): (r: Result<nat>)
    ensures r.Ok? ==> r.value == Product(divisors) && r.value <= U64_MAX
    ensures r.Err? ==> r.message == MUL_OVERFLOW
  {
    if divisors == [] then Ok(1)
    else match CheckedProduct(divisors[..|divisors| - 1])
      case Err(e) => Err(e)
      case Ok(p) =>
        var product := p * divisors[|divisors| - 1];
        if product > U64_MAX then Err(MUL_OVERFLOW) else Ok(product)
  }

  /** The fold succeeds exactly when no partial product exceeds `u64::MAX`. */
  lemma {:induction false} CheckedProductOk(divisors: seq<nat>)
    ensures CheckedProduct(divisors).Ok? <==> forall k | 0 <= k <= |divisors| :: Product(divisors[..k]) <= U64_MAX
  {
    assert divisors[..|divisors|] == divisors;
    if divisors != [] {
      var init := divisors[..|divisors| - 1];
      CheckedProductOk(init);
      assert forall k | 0 <= k <= |init| :: init[..k] == divisors[..k];
    }
  }

  /** Once a partial product has overflowed, the whole fold has. */
  lemma {:induction false} CheckedProductPrefix(divisors: seq<nat>, k: nat)
    requires k <= |divisors| && CheckedProduct(divisors[..k]).Err?
    ensures CheckedProduct(divisors).Err?
    decreases |divisors| - k
  {
    if k == |divisors| {
      assert divisors[..k] == divisors;
    } else {
      var init := divisors[..|divisors| - 1];
      assert init[..k] == divisors[..k];
      CheckedProductPrefix(init, k);
    }
  }

  /** What a monkey does with an item, fixed by its notes. */
  datatype Rule = Rule(operation: Operation, divisor: nat, ifTrue: nat, ifFalse: nat)

  /** The game: every monkey's rule, whether relief applies, and `modulo`. */
  datatype Game = Game(rules: seq<Rule>, relief: bool, modulo: nat)

  /**
   * The games whose turns all end: no monkey throws to itself (such a
   * monkey's turn goes on for as long as the thrown item keeps taking
   * the same branch of the test).
   */
  predicate Runnable(g: Game)
  {
    forall j | 0 <= j < |g.rules| :: g.rules[j].ifTrue != j && g.rules[j].ifFalse != j
  }

  /**
   * The games in which nothing panics: positive divisors, a positive
   * `modulo` when it is used, and targets that exist.
   */
  predicate Safe(g: Game)
  {
    (!g.relief ==> g.modulo > 0)
    && forall j | 0 <= j < |g.rules| ::
      g.rules[j].divisor > 0 && g.rules[j].ifTrue < |g.rules| && g.rules[j].ifFalse < |g.rules|
  }

  /** The monkeys' queues of items and how many items each has inspected. */
  datatype Troop = Troop(items: seq<seq<nat>>, counts: seq<nat>)

  /** One queue and one count per monkey of the game. */
  predicate Fits(g: Game, t: Troop)
  {
    |t.items| == |g.rules| && |t.counts| == |g.rules|
  }

  /** A thrown item and the monkey it goes to. */
  datatype Throw = Throw(monkey: nat, item: nat)

  /**
   * The throw of an item: its new worry level, sent to `ifTrue` exactly
   * when the level is divisible by the divisor. A zero `modulo` (without
   * relief) or a zero divisor panics.
   */
  function Inspect(rule: Rule, item: nat, relief: bool, modulo: nat): (t: Result<Throw>)
    ensures t.Err? <==> (!relief && modulo == 0) || rule.divisor == 0
    ensures t.Err? ==> t.message == REMAINDER_BY_ZERO
    ensures t.Ok? ==> CalculateWorryLevel(rule.operation, item, relief, modulo) == Ok(t.value.item)
    ensures t.Ok? ==> rule.divisor > 0
    ensures t.Ok? && t.value.item % rule.divisor == 0 ==> t.value.monkey == rule.ifTrue
    ensures t.Ok? && t.value.item % rule.divisor != 0 ==> t.value.monkey == rule.ifFalse
  {
    match CalculateWorryLevel(rule.operation, item, relief, modulo)
    case Err(e) => Err(e)
    case Ok(level) =>
      if rule.divisor == 0 then Err(REMAINDER_BY_ZERO)
      else if level % rule.divisor == 0 then Ok(Throw(rule.ifTrue, level))
      else Ok(Throw(rule.ifFalse, level))
  }

  /** Monkey `i` takes its front item off its queue and counts one more inspection. */
  function Pop(t: Troop, i: nat): (r: Troop)
    requires i < |t.items| && i < |t.counts| && t.items[i] != []
    ensures |r.items| == |t.items| && |r.counts| == |t.counts|
  {
    Troop(t.items[i := t.items[i][1..]], t.counts[i := t.counts[i] + 1])
  }

  /** The thrown item joins the back of the target's queue. */
  function Catch(t: Troop, th: Throw): (r: Troop)
    requires th.monkey < |t.items|
    ensures |r.items| == |t.items| && r.counts == t.counts
  {
    Troop(t.items[th.monkey := t.items[th.monkey] + [th.item]], t.counts)
  }

  /**
   * Monkey `i` throws its front item: the item leaves `i`'s queue, `i`
   * counts one more inspection, and the item joins the back of the
   * target's queue; a target that does not exist panics.
   */
  function ThrowOne(g: Game, t: Troop, i: nat): (r: Result<Troop>)
    requires Runnable(g) && Fits(g, t) && i < |g.rules| && t.items[i] != []
    ensures r.Ok? ==> Fits(g, r.value) && |r.value.items[i]| == |t.items[i]| - 1
  {
    match Inspect(g.rules[i], t.items[i][0], g.relief, g.modulo)
    case Err(e) => Err(e)
    case Ok(th) =>
      if th.monkey < |t.items| then Ok(Catch(Pop(t, i), th)) else Err("index out of bounds")
  }

  /** Monkey `i`'s turn: it throws items until its queue is empty. */
  function Turn(g: Game, t: Troop, i: nat): (r: Result<Troop>)
    requires Runnable(g) && Fits(g, t) && i < |g.rules|
    ensures r.Ok? ==> Fits(g, r.value) && r.value.items[i] == []
    decreases |t.items[i]|
  {
    if t.items[i] == [] then Ok(t)
    else match ThrowOne(g, t, i)
      case Err(e) => Err(e)
      case Ok(next) => Turn(g, next, i)
  }

  /** The troop after the turns of monkeys 0..i-1. */
  function Turns(g: Game, t: Troop, i: nat): (r: Result<Troop>)
    requires Runnable(g) && Fits(g, t) && i <= |g.rules|
    ensures r.Ok? ==> Fits(g, r.value)
  {
    if i == 0 then Ok(t)
    else match Turns(g, t, i - 1)
      case Err(e) => Err(e)
      case Ok(previous) => Turn(g, previous, i - 1)
  }

  /** The troop after `k` rounds. */
  function Rounds(g: Game, t: Troop, k: nat): (r: Result<Troop>)
    requires Runnable(g) && Fits(g, t)
    ensures r.Ok? ==> Fits(g, r.value)
  {
    if k == 0 then Ok(t)
    else match Rounds(g, t, k - 1)
      case Err(e) => Err(e)
      case Ok(previous) => Turns(g, previous, |g.rules|)
  }

  /** A panic in one of the turns is the panic of the round. */
  lemma {:induction false} TurnsSticky(g: Game, t: Troop, i: nat, n: nat)
    requires Runnable(g) && Fits(g, t) && i <= n <= |g.rules| && Turns(g, t, i).Err?
    ensures Turns(g, t, n) == Turns(g, t, i)
  {
    if n > i {
      TurnsSticky(g, t, i, n - 1);
    }
  }

  /** A panic in one of the rounds is the panic of the game. */
  lemma {:induction false} RoundsSticky(g: Game, t: Troop, k: nat, n: nat)
    requires Runnable(g) && Fits(g, t) && k <= n && Rounds(g, t, k).Err?
    ensures Rounds(g, t, n) == Rounds(g, t, k)
  {
    if n > k {
      RoundsSticky(g, t, k, n - 1);
    }
  }

  // ---------------------------------------------------------------------
  // Panics

  /** In a safe game no turn panics. */
  lemma {:induction false} TurnSafe(g: Game, t: Troop, i: nat)
    requires Runnable(g) && Safe(g) && Fits(g, t) && i < |g.rules|
    ensures Turn(g, t, i).Ok?
    decreases |t.items[i]|
  {
    if t.items[i] != [] {
      var th := Inspect(g.rules[i], t.items[i][0], g.relief, g.modulo);
      assert th.Ok? && th.value.monkey < |t.items|;
      TurnSafe(g, ThrowOne(g, t, i).value, i);
    }
  }

  /** In a safe game no round panics. */
  lemma {:induction false} TurnsSafe(g: Game, t: Troop, i: nat)
    requires Runnable(g) && Safe(g) && Fits(g, t) && i <= |g.rules|
    ensures Turns(g, t, i).Ok?
  {
    if i > 0 {
      TurnsSafe(g, t, i - 1);
      TurnSafe(g, Turns(g, t, i - 1).value, i - 1);
    }
  }

  /** In a safe game any number of rounds can be played. */
  lemma {:induction false} RoundsSafe(g: Game, t: Troop, k: nat)
    requires Runnable(g) && Safe(g) && Fits(g, t)
    ensures Rounds(g, t, k).Ok?
  {
    if k > 0 {
      RoundsSafe(g, t, k - 1);
      TurnsSafe(g, Rounds(g, t, k - 1).value, |g.rules|);
    }
  }

  /** Some monkey among the first `i` holds an item. */
  predicate Holds(t: Troop, i: nat)
  {
    exists j | 0 <= j < i && j < |t.items| :: t.items[j] != []
  }

  /**
   * Without relief and with a zero `modulo`, the turns of monkeys
   * 0..i-1 panic exactly when one of them holds an item.
   */
  lemma {:induction false} TurnsZeroModulo(g: Game, t: Troop, i: nat)
    requires Runnable(g) && !g.relief && g.modulo == 0 && Fits(g, t) && i <= |g.rules|
    ensures Turns(g, t, i) == if Holds(t, i) then Err(REMAINDER_BY_ZERO) else Ok(t)
  {
    if i > 0 {
      TurnsZeroModulo(g, t, i - 1);
      if !Holds(t, i - 1) && t.items[i - 1] != [] {
        assert Inspect(g.rules[i - 1], t.items[i - 1][0], g.relief, g.modulo).Err?;
      }
    }
  }

  /**
   * Part B with a zero `modulo` (a zero divisor, by `ProductZero`):
   * every number of rounds after the first panics exactly when some
   * monkey starts with an item.
   */
  lemma {:induction false} RoundsZeroModulo(g: Game, t: Troop, k: nat)
    requires Runnable(g) && !g.relief && g.modulo == 0 && Fits(g, t) && k > 0
    ensures Rounds(g, t, k) == if Holds(t, |t.items|) then Err(REMAINDER_BY_ZERO) else Ok(t)
  {
    if k > 1 {
      RoundsZeroModulo(g, t, k - 1);
    }
    if k == 1 || !Holds(t, |t.items|) {
      TurnsZeroModulo(g, t, |g.rules|);
    }
  }

  // ---------------------------------------------------------------------
  // Conservation

  /** How many items each monkey holds. */
  function Lengths(items: seq<seq<nat>>): (r: seq<nat>)
    ensures |r| == |items| && forall j | 0 <= j < |items| :: r[j] == |items[j]|
  {
    seq(|items|, j requires 0 <= j < |items| => |items[j]|)
  }

  /** The number of items held by all monkeys. */
  function TotalItems(t: Troop): nat
  {
    Sum(Lengths(t.items))
  }

  /** Replacing one queue changes the number of items by the change in that queue. */
  lemma LengthsUpdate(items: seq<seq<nat>>, j: nat, q: seq<nat>)
    requires j < |items|
    ensures Sum(Lengths(items[j := q])) + |items[j]| == Sum(Lengths(items)) + |q|
  {
    assert Lengths(items[j := q]) == Lengths(items)[j := |q|];
    SumUpdate(Lengths(items), j, |q|);
  }

  /** A throw keeps the number of items, and only the thrower's count goes up, by one. */
  lemma ThrowConserves(g: Game, t: Troop, i: nat)
    requires Runnable(g) && Fits(g, t) && i < |g.rules| && t.items[i] != []
    ensures ThrowOne(g, t, i).Ok? ==> TotalItems(ThrowOne(g, t, i).value) == TotalItems(t)
    ensures ThrowOne(g, t, i).Ok? ==> ThrowOne(g, t, i).value.counts == t.counts[i := t.counts[i] + 1]
  {
    var th := Inspect(g.rules[i], t.items[i][0], g.relief, g.modulo);
    if th.Ok? && th.value.monkey < |t.items| {
      var popped := Pop(t, i);
      LengthsUpdate(t.items, i, t.items[i][1..]);
      LengthsUpdate(popped.items, th.value.monkey, popped.items[th.value.monkey] + [th.value.item]);
    }
  }

  /**
   * A turn that does not panic keeps the number of items, and the monkey
   * whose turn it is inspects every item it held; no other count changes.
   */
  lemma {:induction false} TurnConserves(g: Game, t: Troop, i: nat)
    requires Runnable(g) && Fits(g, t) && i < |g.rules|
    ensures Turn(g, t, i).Ok? ==> TotalItems(Turn(g, t, i).value) == TotalItems(t)
    ensures Turn(g, t, i).Ok? ==> Turn(g, t, i).value.counts == t.counts[i := t.counts[i] + |t.items[i]|]
    decreases |t.items[i]|
  {
    if t.items[i] != [] && ThrowOne(g, t, i).Ok? {
      var next := ThrowOne(g, t, i).value;
      ThrowConserves(g, t, i);
      TurnConserves(g, next, i);
      assert next.counts[i := next.counts[i] + |next.items[i]|] == t.counts[i := t.counts[i] + |t.items[i]|];
    }
  }

  /** The turns keep the number of items. */
  lemma {:induction false} TurnsConserve(g: Game, t: Troop, i: nat)
    requires Runnable(g) && Fits(g, t) && i <= |g.rules|
    ensures Turns(g, t, i).Ok? ==> TotalItems(Turns(g, t, i).value) == TotalItems(t)
  {
    if i > 0 && Turns(g, t, i - 1).Ok? {
      var previous := Turns(g, t, i - 1).value;
      assert TotalItems(previous) == TotalItems(t) by {
        TurnsConserve(g, t, i - 1);
      }
      TurnConserves(g, previous, i - 1);
    }
  }

  /** The rounds keep the number of items. */
  lemma {:induction false} RoundsConserve(g: Game, t: Troop, k: nat)
    requires Runnable(g) && Fits(g, t)
    ensures Rounds(g, t, k).Ok? ==> TotalItems(Rounds(g, t, k).value) == TotalItems(t)
  {
    if k > 0 && Rounds(g, t, k - 1).Ok? {
      RoundsConserve(g, t, k - 1);
      TurnsConserve(g, Rounds(g, t, k - 1).value, |g.rules|);
    }
  }

  // ---------------------------------------------------------------------
  // Monkey business

  /**
   * The two largest counts, as the last two of the sorted counts: they
   * sit at different positions, and every other count is at most the
   * smaller of them.
   */
  function TopTwo(counts: seq<nat>): (r: (nat, nat))
    requires |counts| >= 2
    ensures r.0 >= r.1
    ensures exists a, b | 0 <= a < |counts| && 0 <= b < |counts| :: a != b && counts[a] == r.0 && counts[b] == r.1
    ensures forall j | 0 <= j < |counts| :: counts[j] <= r.0
    ensures forall a, j | 0 <= a < |counts| && 0 <= j < |counts| && a != j && counts[a] == r.0 :: counts[j] <= r.1
  {
    var x := counts[|counts| - 1];
    if |counts| == 2 then
      var y := counts[0];
      if x >= y then (x, y) else (y, x)
    else
      var init := counts[..|counts| - 1];
      var (p, q) := TopTwo(init);
      assert forall j | 0 <= j < |counts| - 1 :: counts[j] == init[j];
      if x >= p then (x, p)
      else if x >= q then (p, x)
      else (p, q)
  }

  /**
   * The answer: the product of the two largest inspection counts; with
   * fewer than two monkeys `length - 1` or `length - 2` underflows.
   */
  function MonkeyBusiness(t: Troop): (r: Result<nat>)
    ensures r.Err? <==> |t.counts| < 2
    ensures r.Err? ==> r.message == SUB_OVERFLOW
  {
    if |t.counts| < 2 then Err(SUB_OVERFLOW)
    else
      var (a, b) := TopTwo(t.counts);
      MulNat(a, b);
      Ok(a * b)
  }

  // ---------------------------------------------------------------------
  // Monkeys as objects

  /** A monkey as parsed from its notes, before any throw. */
  datatype Notes = Notes(items: seq<nat>, rule: Rule)

  class Monkey {
    var items: seq<nat>
    const operation: Operation
    const divisor: nat
    const ifTrue: nat
    const ifFalse: nat
    var throwCount: nat

    /** The monkey's rule, as written in its notes. */
    function AsRule(): Rule
    {
      Rule(operation, divisor, ifTrue, ifFalse)
    }

    /** `Monkey::parse`, from the already parsed notes: no inspections yet. */
    constructor (notes: Notes)
      ensures items == notes.items && AsRule() == notes.rule && throwCount == 0
    {
      items := notes.items;
      operation := notes.rule.operation;
      divisor := notes.rule.divisor;
      ifTrue := notes.rule.ifTrue;
      ifFalse := notes.rule.ifFalse;
      throwCount := 0;
    }

    /**
     * `throw_next_item`: nothing when the queue is empty; otherwise pop
     * the front item, work out its new worry level and target, and count
     * one more inspection.
     */
    method ThrowNextItem(relief: bool, modulo: nat) returns (t: Result<Option<Throw>>)
      modifies this
      ensures old(items) == [] ==> t == Ok(None) && items == old(items) && throwCount == old(throwCount)
      ensures old(items) != [] && Inspect(AsRule(), old(items)[0], relief, modulo).Err? ==>
        t == Err(Inspect(AsRule(), old(items)[0], relief, modulo).message)
      ensures old(items) != [] && Inspect(AsRule(), old(items)[0], relief, modulo).Ok? ==>
        t == Ok(Some(Inspect(AsRule(), old(items)[0], relief, modulo).value))
        && items == old(items)[1..] && throwCount == old(throwCount) + 1
    {
      if items == [] {
        return Ok(None);
      }
      var front := items[0];
      items := items[1..];
      var item := CalculateWorryLevel(operation, front, relief, modulo);
      if item.Err? {
        return Err(item.message);
      }
      if divisor == 0 {
        return Err(REMAINDER_BY_ZERO);
      }
      var monkey := if item.value % divisor == 0 then ifTrue else ifFalse;
      throwCount := throwCount + 1;
      t := Ok(Some(Throw(monkey, item.value)));
    }

    /** `catch_item`: the item joins the back of the queue. */
    method CatchItem(item: nat)
      modifies this
      ensures items == old(items) + [item] && throwCount == old(throwCount)
    {
      items := items + [item];
    }
  }

  /** The monkeys' rules, in order. */
  function Rules(monkeys: seq<Monkey>): (r: seq<Rule>)
    ensures |r| == |monkeys| && forall j | 0 <= j < |monkeys| :: r[j] == monkeys[j].AsRule()
  {
    seq(|monkeys|, j requires 0 <= j < |monkeys| => monkeys[j].AsRule())
  }

  /** The monkeys' queues and counts. */
  function State(monkeys: seq<Monkey>): (r: Troop)
    reads set j | 0 <= j < |monkeys| :: monkeys[j]
    ensures |r.items| == |monkeys| && forall j | 0 <= j < |monkeys| :: r.items[j] == monkeys[j].items
    ensures |r.counts| == |monkeys| && forall j | 0 <= j < |monkeys| :: r.counts[j] == monkeys[j].throwCount
  {
    Troop(seq(|monkeys|, j reads monkeys requires 0 <= j < |monkeys| => monkeys[j].items),
          seq(|monkeys|, j reads monkeys requires 0 <= j < |monkeys| => monkeys[j].throwCount))
  }

  /** No monkey appears twice. */
  predicate Distinct(monkeys: seq<Monkey>)
  {
    forall a, b | 0 <= a < b < |monkeys| :: monkeys[a] != monkeys[b]
  }

  /** The rules written in the notes. */
  function NotedRules(notes: seq<Notes>): (r: seq<Rule>)
    ensures |r| == |notes| && forall j | 0 <= j < |notes| :: r[j] == notes[j].rule
  {
    seq(|notes|, j requires 0 <= j < |notes| => notes[j].rule)
  }

  /** The monkeys' divisors, in order. */
  function Divisors(rules: seq<Rule>): (r: seq<nat>)
    ensures |r| == |rules| && forall j | 0 <= j < |rules| :: r[j] == rules[j].divisor
  {
    seq(|rules|, j requires 0 <= j < |rules| => rules[j].divisor)
  }

  /** The game of the notes: `modulo` is the product of all divisors. */
  function GameOf(notes: seq<Notes>, relief: bool): Game
  {
    Game(NotedRules(notes), relief, Product(Divisors(NotedRules(notes))))
  }

  /** Notes in which no monkey throws to itself. */
  predicate Playable(notes: seq<Notes>)
  {
    forall j | 0 <= j < |notes| :: notes[j].rule.ifTrue != j && notes[j].rule.ifFalse != j
  }

  /**
   * Notes with positive divisors whose targets exist give a game in
   * which nothing panics, with or without relief.
   */
  lemma NotesSafe(notes: seq<Notes>, relief: bool)
    requires forall j | 0 <= j < |notes| ::
      notes[j].rule.divisor > 0 && notes[j].rule.ifTrue < |notes| && notes[j].rule.ifFalse < |notes|
    ensures Safe(GameOf(notes, relief))
  {
    ProductPositive(Divisors(NotedRules(notes)));
  }

  /** The queues of the notes, nobody having inspected anything. */
  function Initial(notes: seq<Notes>): (r: Troop)
    ensures |r.items| == |notes| && forall j | 0 <= j < |notes| :: r.items[j] == notes[j].items
    ensures |r.counts| == |notes| && forall j | 0 <= j < |notes| :: r.counts[j] == 0
  {
    Troop(seq(|notes|, j requires 0 <= j < |notes| => notes[j].items), seq(|notes|, _ => 0))
  }

  /** `throw_next_item` on monkey `i`, seen on the whole troop. */
  method ThrowFrom(monkeys: seq<Monkey>, g: Game, i: nat) returns (th: Result<Option<Throw>>)
    requires Distinct(monkeys) && Rules(monkeys) == g.rules && i < |monkeys|
    modifies monkeys[i]
    ensures old(State(monkeys)).items[i] == [] ==> th == Ok(None) && State(monkeys) == old(State(monkeys))
    ensures old(State(monkeys)).items[i] != [] ==>
      var inspected := Inspect(g.rules[i], old(State(monkeys)).items[i][0], g.relief, g.modulo);
      (inspected.Err? ==> th == Err(inspected.message))
      && (inspected.Ok? ==> th == Ok(Some(inspected.value)) && State(monkeys) == Pop(old(State(monkeys)), i))
  {
    ghost var before := State(monkeys);
    th := monkeys[i].ThrowNextItem(g.relief, g.modulo);
    if th == Ok(None) {
      assert State(monkeys) == before;
    } else if th.Ok? {
      assert State(monkeys).items == Pop(before, i).items;
      assert State(monkeys).counts == Pop(before, i).counts;
    }
  }

  /** `catch_item` on the target, seen on the whole troop. */
  method CatchBy(monkeys: seq<Monkey>, th: Throw)
    requires Distinct(monkeys) && th.monkey < |monkeys|
    modifies monkeys[th.monkey]
    ensures State(monkeys) == Catch(old(State(monkeys)), th)
  {
    ghost var before := State(monkeys);
    monkeys[th.monkey].CatchItem(th.item);
    assert State(monkeys).items == Catch(before, th).items;
  }

  /** One iteration of the `while let` loop: a throw, then the catch. */
  method ThrowAndCatch(monkeys: seq<Monkey>, g: Game, i: nat) returns (thrown: Result<bool>)
    requires Distinct(monkeys) && Rules(monkeys) == g.rules && Runnable(g) && i < |monkeys|
    modifies set j | 0 <= j < |monkeys| :: monkeys[j]
    ensures old(State(monkeys)).items[i] == [] ==> thrown == Ok(false) && State(monkeys) == old(State(monkeys))
    ensures old(State(monkeys)).items[i] != [] ==>
      var next := ThrowOne(g, old(State(monkeys)), i);
      (next.Err? ==> thrown == Err(next.message))
      && (next.Ok? ==> thrown == Ok(true) && State(monkeys) == next.value)
  {
    var th := ThrowFrom(monkeys, g, i);
    if th.Err? {
      return Err(th.message);
    }
    if th.value.None? {
      return Ok(false);
    }
    var item := th.value.value;
    if item.monkey >= |monkeys| {
      return Err("index out of bounds");
    }
    CatchBy(monkeys, item);
    thrown := Ok(true);
  }

  /** The `while let` loop: monkey `i` throws until its queue is empty. */
  method PlayTurn(monkeys: seq<Monkey>, g: Game, i: nat) returns (r: Result<()>)
    requires Distinct(monkeys) && Rules(monkeys) == g.rules && Runnable(g) && i < |monkeys|
    modifies set j | 0 <= j < |monkeys| :: monkeys[j]
    ensures r.Ok? ==> Turn(g, old(State(monkeys)), i) == Ok(State(monkeys))
    ensures r.Err? ==> Turn(g, old(State(monkeys)), i) == Err(r.message)
  {
    ghost var start := State(monkeys);
    while true
      invariant Fits(g, State(monkeys))
      invariant Turn(g, State(monkeys), i) == Turn(g, start, i)
      decreases |monkeys[i].items|
    {
      var thrown := ThrowAndCatch(monkeys, g, i);
      if thrown.Err? {
        return Err(thrown.message);
      }
      if !thrown.value {
        break;
      }
    }
    r := Ok(());
  }

  /** One round: every monkey's turn, in order. */
  method PlayRound(monkeys: seq<Monkey>, g: Game) returns (r: Result<()>)
    requires Distinct(monkeys) && Rules(monkeys) == g.rules && Runnable(g)
    modifies set j | 0 <= j < |monkeys| :: monkeys[j]
    ensures r.Ok? ==> Turns(g, old(State(monkeys)), |monkeys|) == Ok(State(monkeys))
    ensures r.Err? ==> Turns(g, old(State(monkeys)), |monkeys|) == Err(r.message)
  {
    ghost var start := State(monkeys);
    for i := 0 to |monkeys|
      invariant Turns(g, start, i) == Ok(State(monkeys))
    {
      var played := PlayNextTurn(monkeys, g, start, i);
      if played.Err? {
        TurnsSticky(g, start, i + 1, |monkeys|);
        return played;
      }
    }
    r := Ok(());
  }

  /** Monkey `i`'s turn, after the turns of monkeys 0..i-1. */
  method PlayNextTurn(monkeys: seq<Monkey>, g: Game, ghost start: Troop, i: nat) returns (r: Result<()>)
    requires Distinct(monkeys) && Rules(monkeys) == g.rules && Runnable(g) && i < |monkeys|
    requires Fits(g, start) && Turns(g, start, i) == Ok(State(monkeys))
    modifies set j | 0 <= j < |monkeys| :: monkeys[j]
    ensures r.Ok? ==> Turns(g, start, i + 1) == Ok(State(monkeys))
    ensures r.Err? ==> Turns(g, start, i + 1) == Err(r.message)
  {
    r := PlayTurn(monkeys, g, i);
  }

  /** `Monkey::parse` for every monkey's notes: distinct new monkeys, none has inspected anything. */
  method Build(notes: seq<Notes>) returns (monkeys: seq<Monkey>)
    ensures Distinct(monkeys) && Rules(monkeys) == NotedRules(notes) && State(monkeys) == Initial(notes)
    ensures forall j | 0 <= j < |monkeys| :: fresh(monkeys[j])
  {
    monkeys := [];
    for i := 0 to |notes|
      invariant |monkeys| == i && Distinct(monkeys)
      invariant forall j | 0 <= j < i :: fresh(monkeys[j]) && Built(monkeys[j], notes[j])
    {
      var monkey := new Monkey(notes[i]);
      monkeys := monkeys + [monkey];
    }
    assert State(monkeys).items == Initial(notes).items;
    assert State(monkeys).counts == Initial(notes).counts;
  }

  /** A monkey as its notes describe it, before any throw. */
  ghost predicate Built(monkey: Monkey, notes: Notes)
    reads monkey
  {
    monkey.items == notes.items && monkey.AsRule() == notes.rule && monkey.throwCount == 0
  }

  /** `modulo`: the fold multiplying all divisors in `u64`, starting from 1. */
  method Modulo(monkeys: seq<Monkey>) returns (modulo: Result<nat>)
    ensures modulo == CheckedProduct(Divisors(Rules(monkeys)))
  {
    ghost var divisors := Divisors(Rules(monkeys));
    var product := 1;
    for i := 0 to |monkeys|
      invariant CheckedProduct(divisors[..i]) == Ok(product)
    {
      assert divisors[..i + 1][..i] == divisors[..i];
      if product * monkeys[i].divisor > U64_MAX {
        CheckedProductPrefix(divisors, i + 1);
        return Err(MUL_OVERFLOW);
      }
      product := product * monkeys[i].divisor;
    }
    assert divisors[..|monkeys|] == divisors;
    modulo := Ok(product);
  }

  /** The outer loop of `solve`: `rounds` rounds, stopping at the first panic. */
  method PlayRounds(monkeys: seq<Monkey>, g: Game, ghost start: Troop, rounds: nat) returns (r: Result<()>)
    requires Distinct(monkeys) && Rules(monkeys) == g.rules && Runnable(g) && State(monkeys) == start
    modifies set j | 0 <= j < |monkeys| :: monkeys[j]
    ensures r.Ok? ==> Rounds(g, start, rounds) == Ok(State(monkeys))
    ensures r.Err? ==> Rounds(g, start, rounds) == Err(r.message)
  {
    for k := 0 to rounds
      invariant Rounds(g, start, k) == Ok(State(monkeys))
    {
      var played := PlayRound(monkeys, g);
      if played.Err? {
        RoundsSticky(g, start, k + 1, rounds);
        return played;
      }
    }
    r := Ok(());
  }

  /**
   * `solve`: build the monkeys, fold their divisors into `modulo`, play
   * the rounds, and multiply the two largest inspection counts; each
   * step may panic.
   */
  method Solve(notes: seq<Notes>, rounds: nat, relief: bool) returns (r: Result<nat>)
    requires Playable(notes)
    ensures Runnable(GameOf(notes, relief))
    ensures CheckedProduct(Divisors(NotedRules(notes))).Err? ==> r == Err(MUL_OVERFLOW)
    ensures CheckedProduct(Divisors(NotedRules(notes))).Ok? ==>
      var played := Rounds(GameOf(notes, relief), Initial(notes), rounds);
      (played.Err? ==> r == Err(played.message)) && (played.Ok? ==> r == MonkeyBusiness(played.value))
  {
    var monkeys := Build(notes);
    var modulo := Modulo(monkeys);
    if modulo.Err? {
      return Err(modulo.message);
    }
    var g := Game(Rules(monkeys), relief, modulo.value);
    assert g == GameOf(notes, relief);
    var played := PlayRounds(monkeys, g, Initial(notes), rounds);
    if played.Err? {
      return Err(played.message);
    }
    if |monkeys| < 2 {
      // `counts[length - 1] * counts[length - 2]`
      return Err(SUB_OVERFLOW);
    }
    var (a, b) := TopTwo(State(monkeys).counts);
    MulNat(a, b);
    r := Ok(a * b);
  }

  method PartA(notes: seq<Notes>) returns (r: Result<nat>)
    requires Playable(notes)
    ensures Runnable(GameOf(notes, true))
    ensures CheckedProduct(Divisors(NotedRules(notes))).Err? ==> r == Err(MUL_OVERFLOW)
    ensures CheckedProduct(Divisors(NotedRules(notes))).Ok? ==>
      var played := Rounds(GameOf(notes, true), Initial(notes), 20);
      (played.Err? ==> r == Err(played.message)) && (played.Ok? ==> r == MonkeyBusiness(played.value))
  {
    r := Solve(notes, 20, true);
  }

  method PartB(notes: seq<Notes>) returns (r: Result<nat>)
    requires Playable(notes)
    ensures Runnable(GameOf(notes, false))
    ensures CheckedProduct(Divisors(NotedRules(notes))).Err? ==> r == Err(MUL_OVERFLOW)
    ensures CheckedProduct(Divisors(NotedRules(notes))).Ok? ==>
      var played := Rounds(GameOf(notes, false), Initial(notes), 10000);
      (played.Err? ==> r == Err(played.message)) && (played.Ok? ==> r == MonkeyBusiness(played.value))
  {
    r := Solve(notes, 10000, false);
  }
}
