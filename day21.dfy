// Day 21: Monkey Math. Every monkey either yells a number or combines the
// numbers of two other monkeys with `+ - * /`. Part A evaluates "root";
// part B treats "humn" as the unknown and solves root's two sides equal by
// inverting one operation at a time.
module Day21 {
  import opened Common

  const ROOT: string := "root"
  const HUMAN: string := "humn"
  const U64_MAX: nat := U64_MODULUS - 1

  /** The monkeys by name: the text after "name: " on each line. */
  type Monkeys = map<string, string>

  // The panics of the source, as messages.
  const KEY_NOT_FOUND: string := "key not found"
  const UNWRAP_NONE: string := "called `Option::unwrap()` on a `None` value"
  const UNWRAP_PARSE: string := "called `Result::unwrap()` on an `Err` value: ParseIntError"
  const EMPTY_TEXT: string := "index out of bounds: the len is 0 but the index is 0"
  const UNREACHABLE: string := "internal error: entered unreachable code"
  const ADD_OVERFLOW: string := "attempt to add with overflow"
  const SUB_OVERFLOW: string := "attempt to subtract with overflow"
  const MUL_OVERFLOW: string := "attempt to multiply with overflow"
  const DIVIDE_BY_ZERO: string := "attempt to divide by zero"
  const STACK_OVERFLOW: string := "stack overflow"

  // ---------------------------------------------------------------------
  // Parsing

  /** The names of the lines long enough to carry one. */
  function Names(input: seq<string>): set<string>
  {
    set k | 0 <= k < |input| && |input[k]| >= 4 :: input[k][..4]
  }

  /** Line `k` is the last line that names its monkey. */
  predicate LastNaming(input: seq<string>, k: nat)
  {
    k < |input| && |input[k]| >= 4 &&
    forall j | k < j < |input| :: |input[j]| < 4 || input[j][..4] != input[k][..4]
  }

  /**
   * `parse_monkeys`: bytes 0..4 of each line name a monkey and the text
   * from byte 6 on is its job; a later line for the same name wins, as
   * collecting into a `HashMap` does. A line shorter than 6 bytes panics.
   */
  function ParseMonkeys(input: seq<string>): (r: Result<Monkeys>)
    ensures r.Ok? <==> forall k | 0 <= k < |input| :: |input[k]| >= 6
  {
    if input == [] then Ok(map[])
    else
      var line := input[|input| - 1];
      match ParseMonkeys(input[..|input| - 1])
      case Err(e) => Err(e)
      case Ok(m) =>
        if |line| < 4 then Err("byte index 4 is out of range")
        else if |line| < 6 then Err("byte index 6 is out of range")
        else Ok(m[line[..4] := line[6..]])
  }

  /** The parsed monkeys are exactly the names of the lines. */
  lemma {:induction false} ParseMonkeysNames(input: seq<string>)
    requires ParseMonkeys(input).Ok?
    ensures ParseMonkeys(input).value.Keys == Names(input)
  {
    if input != [] {
      var rest := input[..|input| - 1];
      var line := input[|input| - 1];
      ParseMonkeysNames(rest);
      assert Names(input) == Names(rest) + {line[..4]} by {
        forall name | name in Names(input) ensures name in Names(rest) + {line[..4]} {
          var k :| 0 <= k < |input| && |input[k]| >= 4 && input[k][..4] == name;
          if k < |rest| { assert rest[k] == input[k]; }
        }
        forall name | name in Names(rest) ensures name in Names(input) {
          var k :| 0 <= k < |rest| && |rest[k]| >= 4 && rest[k][..4] == name;
          assert input[k] == rest[k];
        }
      }
    }
  }

  /** Each monkey's job is the text after byte 6 of the last line naming it. */
  lemma {:induction false} ParseMonkeysJob(input: seq<string>, k: nat)
    requires ParseMonkeys(input).Ok? && LastNaming(input, k)
    ensures |input[k]| >= 6 && input[k][..4] in ParseMonkeys(input).value
    ensures ParseMonkeys(input).value[input[k][..4]] == input[k][6..]
  {
    var rest := input[..|input| - 1];
    if k < |rest| {
      assert rest[k] == input[k];
      assert LastNaming(rest, k);
      ParseMonkeysJob(rest, k);
    }
  }

  // ---------------------------------------------------------------------
  // Arithmetic on u64, panicking as a debug build does

  function CheckedAdd(a: nat, b: nat): (r: Result<nat>)
  {
    if a + b > U64_MAX then Err(ADD_OVERFLOW) else Ok(a + b)
  }

  function CheckedSub(a: nat, b: nat): (r: Result<nat>)
  {
    if a < b then Err(SUB_OVERFLOW) else Ok(a - b)
  }

  function CheckedMul(a: nat, b: nat): (r: Result<nat>)
  {
    if a * b > U64_MAX then Err(MUL_OVERFLOW) else Ok(a * b)
  }

  function CheckedDiv(a: nat, b: nat): (r: Result<nat>)
  {
    if b == 0 then Err(DIVIDE_BY_ZERO) else Ok(a / b)
  }

  /** The operation named by `operator`'s byte; any other byte is `unreachable!`. */
  function Apply(operator: char, left: nat, right: nat): (r: Result<nat>)
    requires left <= U64_MAX && right <= U64_MAX
    ensures r.Ok? ==> r.value <= U64_MAX
  {
    match operator
    case '+' => CheckedAdd(left, right)
    case '-' => CheckedSub(left, right)
    case '*' => CheckedMul(left, right)
    case '/' => CheckedDiv(left, right)
    case _ => Err(UNREACHABLE)
  }

  // ---------------------------------------------------------------------
  // Evaluation

  /** A job that starts with a digit is a number to yell. */
  predicate Literal(text: string) { |text| > 0 && IsDigit(text[0]) }

  /**
   * `evaluate`: the number `name` yells. In human mode "humn" is unknown
   * (`Ok(None)`) and the unknown propagates to every monkey that waits on
   * it; the right operand is not looked at once the left one is unknown.
   * `path` holds the monkeys whose evaluation is in progress: meeting one
   * again recurses for ever, which the source ends by overflowing its
   * stack. Top-level calls start with the empty path.
   */
  function Evaluate(m: Monkeys, name: string, human: bool, path: set<string>): (r: Result<Option<nat>>)
    ensures human && name == HUMAN ==> r == Ok(None)
    ensures !human ==> r != Ok(None)
    ensures r.Ok? && r.value.Some? ==> r.value.value <= U64_MAX
    decreases m.Keys - path
  {
    if human && name == HUMAN then Ok(None)
    else if name !in m then Err(KEY_NOT_FOUND)
    else if name in path then Err(STACK_OVERFLOW)
    else
      var text := m[name];
      if |text| == 0 then Err(EMPTY_TEXT)
      else if IsDigit(text[0]) then
        match ParseUnsigned(text, U64_MAX)
        case None => Err(UNWRAP_PARSE)
        case Some(v) => Ok(Some(v))
      else
        var w := Words(text);
        if |w| == 0 then Err(UNWRAP_NONE)
        else
          match Evaluate(m, w[0], human, path + {name})
          case Err(e) => Err(e)
          case Ok(None) => Ok(None)
          case Ok(Some(left)) =>
            if |w| < 3 then Err(UNWRAP_NONE)
            else
              match Evaluate(m, w[2], human, path + {name})
              case Err(e) => Err(e)
              case Ok(None) => Ok(None)
              case Ok(Some(right)) =>
                match Apply(w[1][0], left, right)
                case Err(e) => Err(e)
                case Ok(v) => Ok(Some(v))
  }

  /** A monkey whose job is a printed number yells that number. */
  lemma EvaluateLiteral(m: Monkeys, name: string, human: bool, path: set<string>, v: nat)
    requires v <= U64_MAX
    requires name in m && m[name] == NatToString(v) && name !in path
    requires !(human && name == HUMAN)
    ensures Evaluate(m, name, human, path) == Ok(Some(v))
  {
    ParseNatToString(v, U64_MAX);
  }

  /** A monkey with an operation yells the operation applied to its operands' numbers. */
  lemma EvaluateOperation(m: Monkeys, name: string, human: bool, path: set<string>, left: nat, right: nat)
    requires name in m && name !in path && !(human && name == HUMAN) && !Literal(m[name])
    requires |Words(m[name])| >= 3
    requires Evaluate(m, Words(m[name])[0], human, path + {name}) == Ok(Some(left))
    requires Evaluate(m, Words(m[name])[2], human, path + {name}) == Ok(Some(right))
    ensures left <= U64_MAX && right <= U64_MAX
    ensures var w := Words(m[name]);
      Evaluate(m, name, human, path) == (match Apply(w[1][0], left, right) case Ok(v) => Ok(Some(v)) case Err(e) => Err(e))
  {
  }

  /**
   * An unknown operand makes the monkey unknown: the left one at once, the
   * right one once the left is known. So "humn" being unknown reaches every
   * monkey that waits on it.
   */
  lemma UnknownPropagates(m: Monkeys, name: string, path: set<string>)
    requires name in m && name !in path && !Literal(m[name]) && |Words(m[name])| >= 3
    requires var w := Words(m[name]);
      Evaluate(m, w[0], true, path + {name}) == Ok(None) ||
      (Evaluate(m, w[0], true, path + {name}).Ok? && Evaluate(m, w[2], true, path + {name}) == Ok(None))
    ensures Evaluate(m, name, true, path) == Ok(None)
  {
  }

  /** Human mode changes nothing for a monkey whose number does not need "humn". */
  lemma {:induction false} HumanModeAgrees(m: Monkeys, name: string, path: set<string>, v: nat)
    requires Evaluate(m, name, true, path) == Ok(Some(v))
    ensures Evaluate(m, name, false, path) == Ok(Some(v))
    decreases m.Keys - path
  {
    var text := m[name];
    if !Literal(text) {
      var w := Words(text);
      HumanModeAgrees(m, w[0], path + {name}, Evaluate(m, w[0], true, path + {name}).value.value);
      HumanModeAgrees(m, w[2], path + {name}, Evaluate(m, w[2], true, path + {name}).value.value);
    }
  }

  /** `m` with "humn" yelling `x`. */
  function WithHuman(m: Monkeys, x: nat): (r: Monkeys)
    ensures HUMAN in r && r[HUMAN] == NatToString(x)
    ensures forall name | name != HUMAN :: (name in r <==> name in m)
    ensures forall name | name != HUMAN && name in m :: r[name] == m[name]
  {
    m[HUMAN := NatToString(x)]
  }

  /**
   * A number found without "humn" does not depend on what "humn" yells:
   * it is the same once "humn" yells any `x`.
   */
  lemma {:induction false} HumanIndependent(m: Monkeys, name: string, path: set<string>, v: nat, x: nat)
    requires Evaluate(m, name, true, path) == Ok(Some(v))
    ensures Evaluate(WithHuman(m, x), name, false, path) == Ok(Some(v))
    decreases m.Keys - path
  {
    var m' := WithHuman(m, x);
    var text := m[name];
    assert name in m' && m'[name] == text;
    if !Literal(text) {
      var w := Words(text);
      HumanIndependent(m, w[0], path + {name}, Evaluate(m, w[0], true, path + {name}).value.value, x);
      HumanIndependent(m, w[2], path + {name}, Evaluate(m, w[2], true, path + {name}).value.value, x);
    }
  }

  // ---------------------------------------------------------------------
  // Acyclic jobs

  /** Operands `0` and `2` of a job, where present, rank below `bound`. */
  predicate OperandsBelow(w: seq<string>, rank: map<string, nat>, bound: nat)
  {
    (|w| >= 1 ==> w[0] in rank && rank[w[0]] < bound) &&
    (|w| >= 3 ==> w[2] in rank && rank[w[2]] < bound)
  }

  /** `rank` orders the monkeys so that every operation waits only on lower ranks: the jobs have no cycle. */
  predicate Ranked(m: Monkeys, rank: map<string, nat>)
  {
    forall name | name in m :: name in rank && (!Literal(m[name]) ==> OperandsBelow(Words(m[name]), rank, rank[name]))
  }

  /** Every monkey on `path` ranks above `name`. */
  predicate Above(rank: map<string, nat>, path: set<string>, name: string)
  {
    forall a | a in path :: a in rank && name in rank && rank[name] < rank[a]
  }

  /**
   * Without cycles the path never comes into play: evaluation from any
   * path of higher-ranked monkeys is evaluation from the empty path.
   */
  lemma {:induction false} PathIrrelevant(m: Monkeys, rank: map<string, nat>, name: string, human: bool, path: set<string>)
    requires Ranked(m, rank) && name in rank && Above(rank, path, name)
    ensures Evaluate(m, name, human, path) == Evaluate(m, name, human, {})
    decreases rank[name]
  {
    if name in m && !(human && name == HUMAN) && !Literal(m[name]) {
      assert name !in path;
      var w := Words(m[name]);
      assert OperandsBelow(w, rank, rank[name]);
      var none: set<string> := {};
      assert none + {name} == {name};
      if |w| >= 1 {
        PathIrrelevant(m, rank, w[0], human, path + {name});
        PathIrrelevant(m, rank, w[0], human, {name});
      }
      if |w| >= 3 {
        PathIrrelevant(m, rank, w[2], human, path + {name});
        PathIrrelevant(m, rank, w[2], human, {name});
      }
    }
  }

  // ---------------------------------------------------------------------
  // Solving for "humn"

  /** `solve_left`: the `x` with `x op value == result`. */
  function SolveLeft(value: nat, result: nat, operator: char): (r: Result<nat>)
    requires value <= U64_MAX && result <= U64_MAX
    ensures r.Ok? ==> r.value <= U64_MAX
  {
    match operator
    case '+' => CheckedSub(result, value)
    case '-' => CheckedAdd(result, value)
    case '*' => CheckedDiv(result, value)
    case '/' => CheckedMul(result, value)
    case _ => Err(UNREACHABLE)
  }

  /** `solve_right`: the `x` with `value op x == result`. */
  function SolveRight(value: nat, result: nat, operator: char): (r: Result<nat>)
    requires value <= U64_MAX && result <= U64_MAX
    ensures r.Ok? ==> r.value <= U64_MAX
  {
    match operator
    case '+' => CheckedSub(result, value)
    case '-' => CheckedSub(value, result)
    case '*' => CheckedDiv(result, value)
    case '/' => CheckedDiv(value, result)
    case _ => Err(UNREACHABLE)
  }

  lemma ExactQuotient(a: nat, b: nat)
    requires b > 0 && a % b == 0
    ensures (a / b) * b == a
  {
  }

  lemma ProductQuotient(a: nat, b: nat)
    requires b > 0
    ensures (a * b) / b == a
  {
    var q := (a * b) / b;
    var r := (a * b) % b;
    assert a * b == q * b + r && 0 <= r < b;
    MulMono(q + 1, a, b);
    MulMono(a + 1, q, b);
  }

  lemma MulMono(x: int, y: int, b: int)
    ensures 0 <= b && x <= y ==> x * b <= y * b
  {
  }

  /**
   * `solve_left` inverts the operation: putting its answer back on the
   * left gives the result for `+` and `-` always, for `*` exactly when the
   * division was exact, and for `/` exactly when the divisor is not zero.
   */
  lemma SolveLeftInverts(value: nat, result: nat, operator: char)
    requires value <= U64_MAX && result <= U64_MAX
    requires SolveLeft(value, result, operator).Ok?
    ensures operator == '+' || operator == '-' ==> Apply(operator, SolveLeft(value, result, operator).value, value) == Ok(result)
    ensures operator == '*' ==> (Apply(operator, SolveLeft(value, result, operator).value, value) == Ok(result) <==> result % value == 0)
    ensures operator == '/' ==> (Apply(operator, SolveLeft(value, result, operator).value, value) == Ok(result) <==> value > 0)
  {
    if operator == '*' {
      var x := result / value;
      if result % value == 0 {
        ExactQuotient(result, value);
      } else {
        assert x * value != result;
      }
    } else if operator == '/' && value > 0 {
      ProductQuotient(result, value);
    }
  }

  /**
   * `solve_right` inverts the operation: putting its answer back on the
   * right gives the result for `+` and `-` always, for `*` exactly when the
   * division was exact, and for `/` when the result divides the value.
   */
  lemma SolveRightInverts(value: nat, result: nat, operator: char)
    requires value <= U64_MAX && result <= U64_MAX
    requires SolveRight(value, result, operator).Ok?
    ensures operator == '+' || operator == '-' ==> Apply(operator, value, SolveRight(value, result, operator).value) == Ok(result)
    ensures operator == '*' ==> (Apply(operator, value, SolveRight(value, result, operator).value) == Ok(result) <==> result % value == 0)
    ensures operator == '/' && value > 0 && value % result == 0 ==> Apply(operator, value, SolveRight(value, result, operator).value) == Ok(result)
  {
    if operator == '*' {
      var x := result / value;
      if result % value == 0 {
        ExactQuotient(result, value);
        assert value * x == result;
      } else {
        assert value * x != result;
      }
    } else if operator == '/' && value > 0 && value % result == 0 {
      var x := value / result;
      ExactQuotient(value, result);
      assert x > 0;
      ProductQuotient(result, x);
    }
  }

  /**
   * `solve`: the number "humn" must yell for `name` to yell `target`. At
   * each monkey the operand that evaluates without "humn" is fixed, and
   * the other one is solved for by inverting the operation.
   */
  function Solve(m: Monkeys, name: string, target: nat, path: set<string>): (r: Result<nat>)
    requires target <= U64_MAX
    ensures name == HUMAN ==> r == Ok(target)
    ensures r.Ok? ==> r.value <= U64_MAX
    decreases m.Keys - path
  {
    if name == HUMAN then Ok(target)
    else if name !in m then Err(KEY_NOT_FOUND)
    else if name in path then Err(STACK_OVERFLOW)
    else
      var w := Words(m[name]);
      if |w| < 3 then Err(UNWRAP_NONE)
      else
        var operator := w[1][0];
        match Evaluate(m, w[0], true, {})
        case Err(e) => Err(e)
        case Ok(Some(v)) =>
          (match SolveRight(v, target, operator)
           case Err(e) => Err(e)
           case Ok(x) => Solve(m, w[2], x, path + {name}))
        case Ok(None) =>
          match Evaluate(m, w[2], true, {})
          case Err(e) => Err(e)
          case Ok(None) => Err(UNREACHABLE)
          case Ok(Some(v)) =>
            match SolveLeft(v, target, operator)
            case Err(e) => Err(e)
            case Ok(x) => Solve(m, w[0], x, path + {name})
  }

  /**
   * Every inversion `Solve` makes on the way from `name` down to "humn"
   * is exact: re-applying the operation to the solved operand gives the
   * step's target back.
   */
  ghost predicate ExactSteps(m: Monkeys, name: string, target: nat, path: set<string>)
    requires target <= U64_MAX
    decreases m.Keys - path
  {
    if name == HUMAN || name !in m || name in path then true
    else
      var w := Words(m[name]);
      if |w| < 3 then true
      else
        var operator := w[1][0];
        match Evaluate(m, w[0], true, {})
        case Err(_) => true
        case Ok(Some(v)) =>
          (match SolveRight(v, target, operator)
           case Err(_) => true
           case Ok(x) => Apply(operator, v, x) == Ok(target) && ExactSteps(m, w[2], x, path + {name}))
        case Ok(None) =>
          match Evaluate(m, w[2], true, {})
          case Ok(Some(v)) =>
            (match SolveLeft(v, target, operator)
             case Err(_) => true
             case Ok(x) => Apply(operator, x, v) == Ok(target) && ExactSteps(m, w[0], x, path + {name}))
          case _ => true
  }

  /**
   * `solve` is right: for a monkey whose number needs "humn", when the
   * jobs have no cycle and every inversion on the way is exact, "humn"
   * yelling the solved number makes the monkey yell the target.
   */
  lemma {:induction false} SolveSound(m: Monkeys, rank: map<string, nat>, name: string, target: nat, path: set<string>, x: nat)
    requires Ranked(m, rank) && Above(rank, path, name)
    requires target <= U64_MAX
    requires Evaluate(m, name, true, path) == Ok(None)
    requires Solve(m, name, target, path) == Ok(x)
    requires ExactSteps(m, name, target, path)
    ensures Evaluate(WithHuman(m, x), name, false, path) == Ok(Some(target))
    decreases m.Keys - path
  {
    var m' := WithHuman(m, x);
    if name == HUMAN {
      assert x == target;
      if path != {} {
        var a :| a in path;
        assert name in rank;
      }
      EvaluateLiteral(m', HUMAN, false, path, x);
    } else {
      assert name in m && name !in path && m'[name] == m[name];
      var w := Words(m[name]);
      var operator := w[1][0];
      assert name in rank && OperandsBelow(w, rank, rank[name]);
      assert Above(rank, path + {name}, w[0]) && Above(rank, path + {name}, w[2]);
      PathIrrelevant(m, rank, w[0], true, path + {name});
      PathIrrelevant(m, rank, w[2], true, path + {name});
      match Evaluate(m, w[0], true, {})
      case Ok(Some(v)) =>
        var x1 := SolveRight(v, target, operator).value;
        SolveSound(m, rank, w[2], x1, path + {name}, x);
        HumanIndependent(m, w[0], path + {name}, v, x);
        EvaluateOperation(m', name, false, path, v, x1);
      case Ok(None) =>
        var v := Evaluate(m, w[2], true, {}).value.value;
        var x1 := SolveLeft(v, target, operator).value;
        SolveSound(m, rank, w[0], x1, path + {name}, x);
        HumanIndependent(m, w[2], path + {name}, v, x);
        EvaluateOperation(m', name, false, path, x1, v);
    }
  }

  /** A text of digits is one word. */
  lemma DigitsOneWord(text: string)
    requires |text| > 0 && AllDigits(text)
    ensures Words(text) == [text]
  {
    var n := WordLength(text);
    assert n == |text|;
    assert !IsAsciiWhitespace(text[0]) by { assert IsDigit(text[0]); }
    assert text[..n] == text;
    assert Words(text[n..]) == [];
  }

  /** `solve` fails on a monkey whose number does not need "humn": it never reaches "humn". */
  lemma {:induction false} SolveNeedsHuman(m: Monkeys, rank: map<string, nat>, name: string, path: set<string>, v: nat, target: nat, solvePath: set<string>)
    requires Ranked(m, rank) && Above(rank, path, name)
    requires target <= U64_MAX
    requires Evaluate(m, name, true, path) == Ok(Some(v))
    ensures Solve(m, name, target, solvePath).Err?
    decreases rank[name]
  {
    if name !in solvePath {
      var text := m[name];
      if Literal(text) {
        DigitsOneWord(text);
      } else {
        var w := Words(text);
        assert Above(rank, path + {name}, w[0]) && Above(rank, path + {name}, w[2]);
        PathIrrelevant(m, rank, w[0], true, path + {name});
        var left := Evaluate(m, w[0], true, {}).value.value;
        var result := SolveRight(left, target, w[1][0]);
        if result.Ok? {
          SolveNeedsHuman(m, rank, w[2], path + {name}, Evaluate(m, w[2], true, path + {name}).value.value, result.value, solvePath + {name});
        }
      }
    }
  }

  // ---------------------------------------------------------------------
  // The parts

  /** `part_a`: the number "root" yells. */
  function PartA(input: seq<string>): (r: Result<nat>)
    ensures r.Ok? ==> r.value <= U64_MAX
    ensures r.Ok? ==> ParseMonkeys(input).Ok? && Evaluate(ParseMonkeys(input).value, ROOT, false, {}) == Ok(Some(r.value))
  {
    match ParseMonkeys(input)
    case Err(e) => Err(e)
    case Ok(m) =>
      var e := Evaluate(m, ROOT, false, {});
      if e.Err? then Err(e.message) else Ok(e.value.value)
  }

  /**
   * The two operands of root's job, as `part_b` reads them: the first
   * and the third of its words; a missing root is a failed lookup, and
   * a job of fewer than three words a failed `unwrap`.
   */
  function RootSides(m: Monkeys): (r: Result<(string, string)>)
    ensures ROOT !in m ==> r == Err(KEY_NOT_FOUND)
    ensures ROOT in m && |Words(m[ROOT])| < 3 ==> r == Err(UNWRAP_NONE)
    ensures r.Ok? ==> (ROOT in m && |Words(m[ROOT])| >= 3
      && r.value.0 == Words(m[ROOT])[0] && r.value.1 == Words(m[ROOT])[2])
  {
    if ROOT !in m then Err(KEY_NOT_FOUND)
    else
      var w := Words(m[ROOT]);
      if |w| < 3 then Err(UNWRAP_NONE) else Ok((w[0], w[2]))
  }

  /** Root's job written as `a op b` gives back its operands `a` and `b`. */
  lemma RootSidesOfJob(m: Monkeys, a: string, op: string, b: string)
    requires ROOT in m && m[ROOT] == Spaced([a, op, b])
    requires |a| > 0 && forall i | 0 <= i < |a| :: !IsAsciiWhitespace(a[i])
    requires |op| > 0 && forall i | 0 <= i < |op| :: !IsAsciiWhitespace(op[i])
    requires |b| > 0 && forall i | 0 <= i < |b| :: !IsAsciiWhitespace(b[i])
    ensures RootSides(m) == Ok((a, b))
  {
    var words := [a, op, b];
    assert forall k | 0 <= k < 3 :: words[k] == a || words[k] == op || words[k] == b;
    WordsSpaced(words);
  }

  /**
   * `part_b` on parsed monkeys: solve the side that needs "humn" for the
   * other side's number. A failure to read root's sides is the answer;
   * when neither side is known the `unreachable!` panics; an answer fits
   * a `u64`.
   */
  function SolveRoot(m: Monkeys): (r: Result<nat>)
    ensures RootSides(m).Err? ==> r == Err(RootSides(m).message)
    ensures (RootSides(m).Ok? && Evaluate(m, RootSides(m).value.0, true, {}) == Ok(None)
      && Evaluate(m, RootSides(m).value.1, true, {}) == Ok(None)) ==> r == Err(UNREACHABLE)
    ensures r.Ok? ==> r.value <= U64_MAX
  {
    match RootSides(m)
    case Err(e) => Err(e)
    case Ok((left, right)) =>
      match (Evaluate(m, left, true, {}), Evaluate(m, right, true, {}))
      case (Err(e), _) => Err(e)
      case (_, Err(e)) => Err(e)
      case (Ok(Some(r)), _) => Solve(m, right, r, {})
      case (_, Ok(Some(r))) => Solve(m, left, r, {})
      case _ => Err(UNREACHABLE)
  }

  /** `part_b`: the number "humn" must yell for root's two operands to be equal. */
  function PartB(input: seq<string>): (r: Result<nat>)
    ensures ParseMonkeys(input).Err? ==> r == Err(ParseMonkeys(input).message)
    ensures ParseMonkeys(input).Ok? ==> r == SolveRoot(ParseMonkeys(input).value)
    ensures r.Ok? ==> r.value <= U64_MAX
  {
    match ParseMonkeys(input)
    case Err(e) => Err(e)
    case Ok(m) => SolveRoot(m)
  }

  /** The inversions `SolveRoot` makes are exact. */
  ghost predicate RootExact(m: Monkeys)
  {
    match RootSides(m)
    case Err(_) => true
    case Ok((left, right)) =>
      match (Evaluate(m, left, true, {}), Evaluate(m, right, true, {}))
      case (Ok(Some(r)), Ok(_)) => ExactSteps(m, right, r, {})
      case (Ok(None), Ok(Some(r))) => ExactSteps(m, left, r, {})
      case _ => true
  }

  /**
   * `part_b` is right: when it answers on acyclic jobs with exact
   * inversions, exactly one side of root needed "humn", and once "humn"
   * yells the answer both sides yell the same number.
   */
  lemma SolveRootSound(m: Monkeys, rank: map<string, nat>, left: string, right: string, x: nat)
    requires Ranked(m, rank) && RootExact(m)
    requires RootSides(m) == Ok((left, right))
    requires SolveRoot(m) == Ok(x)
    ensures (Evaluate(m, left, true, {}) == Ok(None)) != (Evaluate(m, right, true, {}) == Ok(None))
    ensures Evaluate(WithHuman(m, x), left, false, {}).Ok?
    ensures Evaluate(WithHuman(m, x), left, false, {}) == Evaluate(WithHuman(m, x), right, false, {})
  {
    match (Evaluate(m, left, true, {}), Evaluate(m, right, true, {}))
    case (Ok(Some(r)), Ok(Some(r2))) =>
      SolveNeedsHuman(m, rank, right, {}, r2, r, {});
    case (Ok(Some(r)), Ok(None)) =>
      SolveSound(m, rank, right, r, {}, x);
      HumanIndependent(m, left, {}, r, x);
    case (Ok(None), Ok(Some(r))) =>
      SolveSound(m, rank, left, r, {}, x);
      HumanIndependent(m, right, {}, r, x);
  }
}
