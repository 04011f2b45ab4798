// Day 20: Grove Positioning System. The numbers of the file form a
// circular doubly linked list kept in a vector; each number, in the order
// of the file, is unlinked and relinked as many places away as its value,
// and the answer sums the numbers 1000, 2000 and 3000 places after the 0.
module Day20 {
  import opened Common

  /** `Node`: a number and the indices of its neighbours in the vector. */
  datatype Node = Node(value: int, next: nat, previous: nat)

  /** The places after the 0 whose numbers part A sums. */
  const OFFSETS: seq<int> := [1000, 2000, 3000]

  /** The two lists hold the same numbers at the same indices. */
  predicate SameValues(a: seq<Node>, b: seq<Node>)
  {
    |a| == |b| && forall j | 0 <= j < |a| :: a[j].value == b[j].value
  }

  /** Every link names a node of the vector. */
  predicate Bounded(ns: seq<Node>)
  {
    forall j | 0 <= j < |ns| :: ns[j].next < |ns| && ns[j].previous < |ns|
  }

  /** The links of node `j` are consistent: the node after it has `j`
    * before it, and the node before it has `j` after it. */
  predicate LinkedAt(ns: seq<Node>, j: nat)
  {
    j < |ns| && ns[j].next < |ns| && ns[j].previous < |ns|
    && ns[ns[j].next].previous == j && ns[ns[j].previous].next == j
  }

  /** Every node's links are consistent. */
  predicate Linked(ns: seq<Node>)
  {
    Bounded(ns) && forall j | 0 <= j < |ns| :: LinkedAt(ns, j)
  }

  // ---------------------------------------------------------------------
  // Building the list

  /** `CircularList::new`: node `i` holds the `i`-th number, with `i + 1`
    * after it and `i.saturating_sub(1)` before it; then the first node's
    * `previous` becomes the last index and the last node's `next` becomes
    * 0. */
  function NewNodes(values: seq<int>): (r: seq<Node>)
    ensures |r| == |values| && forall i | 0 <= i < |r| :: r[i].value == values[i]
  {
    var n := |values|;
    var built := seq(n, i requires 0 <= i < n => Node(values[i], i + 1, if i == 0 then 0 else i - 1));
    var first := if n > 0 then built[0 := built[0].(previous := n - 1)] else built;
    if n > 0 then first[n - 1 := first[n - 1].(next := 0)] else first
  }

  /** The built list is a ring in vector order: node `i` is followed by
    * `i + 1`, or by 0 when it is the last, and preceded by `i - 1`, or by
    * the last when it is the first; its links are consistent. */
  lemma NewRing(values: seq<int>)
    ensures var ns := NewNodes(values);
      forall i | 0 <= i < |ns| ::
        ns[i].next == (if i + 1 < |ns| then i + 1 else 0)
        && ns[i].previous == (if i == 0 then |ns| - 1 else i - 1)
    ensures Linked(NewNodes(values))
  {
  }

  // ---------------------------------------------------------------------
  // Walking the ring

  /** `k` steps along `next`: the fold over `0..count`. */
  function Forward(ns: seq<Node>, j: nat, k: nat): (r: nat)
    requires Bounded(ns) && j < |ns|
    ensures r < |ns|
    decreases k
  {
    if k == 0 then j else Forward(ns, ns[j].next, k - 1)
  }

  /** `k` steps along `previous`: the fold over `count..0`. */
  function Backward(ns: seq<Node>, j: nat, k: nat): (r: nat)
    requires Bounded(ns) && j < |ns|
    ensures r < |ns|
    decreases k
  {
    if k == 0 then j else Backward(ns, ns[j].previous, k - 1)
  }

  /** Walking back undoes walking forward, and the other way round. */
  lemma {:induction false} WalkInverse(ns: seq<Node>, j: nat, k: nat)
    requires Linked(ns) && j < |ns|
    ensures Backward(ns, Forward(ns, j, k), k) == j
    ensures Forward(ns, Backward(ns, j, k), k) == j
    decreases k
  {
    if k > 0 {
      assert LinkedAt(ns, j);
      WalkInverse(ns, ns[j].next, k - 1);
      WalkInverse(ns, ns[j].previous, k - 1);
      BackwardLast(ns, Forward(ns, j, k), k - 1);
      ForwardLast(ns, Backward(ns, j, k), k - 1);
    }
  }

  /** The last step of a forward walk. */
  lemma {:induction false} ForwardLast(ns: seq<Node>, j: nat, k: nat)
    requires Bounded(ns) && j < |ns|
    ensures Forward(ns, j, k + 1) == ns[Forward(ns, j, k)].next
    decreases k
  {
    if k > 0 {
      ForwardLast(ns, ns[j].next, k - 1);
    }
  }

  /** The last step of a backward walk. */
  lemma {:induction false} BackwardLast(ns: seq<Node>, j: nat, k: nat)
    requires Bounded(ns) && j < |ns|
    ensures Backward(ns, j, k + 1) == ns[Backward(ns, j, k)].previous
    decreases k
  {
    if k > 0 {
      BackwardLast(ns, ns[j].previous, k - 1);
    }
  }

  /** A walk of `a + b` steps is a walk of `a` steps, then one of `b`. */
  lemma {:induction false} ForwardAdd(ns: seq<Node>, j: nat, a: nat, b: nat)
    requires Bounded(ns) && j < |ns|
    ensures Forward(ns, j, a + b) == Forward(ns, Forward(ns, j, a), b)
    decreases a
  {
    if a > 0 {
      ForwardAdd(ns, ns[j].next, a - 1, b);
    }
  }

  /** On the list as built, `k` steps forward from `j` reach `j + k` while
    * that is an index. */
  lemma {:induction false} NewWalk(values: seq<int>, j: nat, k: nat)
    requires j + k < |values|
    ensures Bounded(NewNodes(values)) && Forward(NewNodes(values), j, k) == j + k
    decreases k
  {
    NewRing(values);
    if k > 0 {
      NewWalk(values, j + 1, k - 1);
    }
  }

  /** On the list as built, `n` steps forward from any node come back to it:
    * the nodes form one ring. */
  lemma NewPeriodic(values: seq<int>)
    ensures Bounded(NewNodes(values)) && Periodic(NewNodes(values))
  {
    NewRing(values);
    var ns := NewNodes(values);
    var n := |ns|;
    forall j | 0 <= j < n
      ensures Forward(ns, j, n) == j
    {
      NewWalk(values, j, n - 1 - j);
      ForwardLast(ns, j, n - 1 - j);
      NewWalk(values, 0, j);
      ForwardAdd(ns, j, n - j, j);
    }
  }

  // ---------------------------------------------------------------------
  // Finding the destination

  /** `normalize_move_count`: the count reduced with `rem_euclid(length)`,
    * then taken the short way round (less the vector's length `n`) when it
    * is past half of `length`. */
  function NormalizeMoveCount(count: int, length: int, n: nat): int
    requires 0 < length <= n
  {
    var c := count % length;
    if c > length / 2 then c - n else c
  }

  /** The normalized count is the count reduced modulo `length` when that
    * is at most half of `length`, and otherwise a negative number above
    * `-n`. When `length` is `n - 1`, the ring without the moving number, a
    * negative result `r` names the node `-r` steps back, after which the
    * number goes `length - count mod length` places back, the same place as
    * `count mod length` places forward; when `length` is `n`, the whole
    * ring, `r + n` is the count reduced modulo `n`. */
  lemma NormalizeRange(count: int, length: int, n: nat)
    requires 0 < length <= n
    ensures var r := NormalizeMoveCount(count, length, n);
      && (0 <= r ==> r == count % length && r <= length / 2)
      && (r < 0 ==> count % length > length / 2 && r + n > 0)
      && (r < 0 && length == n - 1 ==> -r - 1 == length - count % length)
      && (r < 0 && length == n ==> r + n == count % length)
  {
  }

  /** `find_next_node`: `count` steps forward when the normalized count is
    * positive, its magnitude steps back when it is negative, and the node
    * before `start` when it is 0. */
  function FindNext(ns: seq<Node>, start: nat, count: int, length: int): (r: nat)
    requires Bounded(ns) && start < |ns| && 0 < length <= |ns|
    ensures r < |ns|
  {
    var c := NormalizeMoveCount(count, length, |ns|);
    if c < 0 then Backward(ns, start, -c)
    else if c == 0 then ns[start].previous
    else Forward(ns, start, c)
  }

  // ---------------------------------------------------------------------
  // Moving one number

  /** The first half of a move: the neighbours of `i` are joined to each
    * other; `i` keeps its own links. */
  function Unlink(ns: seq<Node>, i: nat): (r: seq<Node>)
    requires Bounded(ns) && i < |ns|
    ensures |r| == |ns| && Bounded(r) && r[i] == ns[i]
  {
    var iNext := ns[i].next;
    var iPrevious := ns[i].previous;
    var r1 := ns[iPrevious := ns[iPrevious].(next := iNext)];
    r1[iNext := r1[iNext].(previous := iPrevious)]
  }

  /** The links of node `j` are consistent and do not name `i`. */
  predicate LinkedAvoiding(ns: seq<Node>, i: nat, j: nat)
  {
    LinkedAt(ns, j) && ns[j].next != i && ns[j].previous != i
  }

  /** The links are consistent for every node but `i`, and none of them
    * names `i`; `i` itself still names two other nodes. */
  predicate LinkedWithout(ns: seq<Node>, i: nat)
  {
    Bounded(ns) && i < |ns| && ns[i].next != i && ns[i].previous != i
    && forall j | 0 <= j < |ns| && j != i :: LinkedAvoiding(ns, i, j)
  }

  /** After unlinking a node that is not alone in its ring, the others are
    * consistently linked without it. */
  lemma UnlinkLeaves(ns: seq<Node>, i: nat)
    requires Linked(ns) && i < |ns| && ns[i].next != i
    ensures LinkedWithout(Unlink(ns, i), i)
  {
    assert LinkedAt(ns, i);
    var u := Unlink(ns, i);
    forall j | 0 <= j < |ns| && j != i
      ensures LinkedAvoiding(u, i, j)
    {
      assert LinkedAt(ns, j);
      assert LinkedAt(ns, ns[j].next) && LinkedAt(ns, ns[j].previous);
    }
  }

  /** A walk that starts anywhere but `i` never reaches `i`; one that starts
    * at `i` leaves it at once. */
  lemma {:induction false} WalkAvoids(u: seq<Node>, i: nat, j: nat, k: nat)
    requires LinkedWithout(u, i) && j < |u|
    ensures k > 0 || j != i ==> Forward(u, j, k) != i && Backward(u, j, k) != i
    decreases k
  {
    if j != i {
      assert LinkedAvoiding(u, i, j);
    }
    if k > 0 {
      WalkAvoids(u, i, u[j].next, k - 1);
      WalkAvoids(u, i, u[j].previous, k - 1);
    }
  }

  /** The second half of a move: `i` is linked in after `dest`. */
  function Insert(u: seq<Node>, i: nat, dest: nat): (r: seq<Node>)
    requires Bounded(u) && i < |u| && dest < |u|
    ensures |r| == |u| && Bounded(r)
  {
    var destNext := u[dest].next;
    var r1 := u[dest := u[dest].(next := i)];
    var r2 := r1[i := r1[i].(previous := dest)];
    var r3 := r2[i := r2[i].(next := destNext)];
    r3[destNext := r3[destNext].(previous := i)]
  }

  /** Linking `i` back in after any other node restores consistent links,
    * with `i` between `dest` and the node that followed it. */
  lemma InsertLinks(u: seq<Node>, i: nat, dest: nat)
    requires LinkedWithout(u, i) && dest < |u| && dest != i
    ensures var r := Insert(u, i, dest);
      Linked(r) && r[dest].next == i && r[i].previous == dest
      && r[i].next == u[dest].next && r[u[dest].next].previous == i
  {
    assert LinkedAvoiding(u, i, dest);
    var e := u[dest].next;
    assert LinkedAvoiding(u, i, e);
    var r := Insert(u, i, dest);
    forall j | 0 <= j < |u|
      ensures LinkedAt(r, j)
    {
      if j != i {
        assert LinkedAvoiding(u, i, j);
      }
    }
  }

  /** One move of `decrypt`: unlink `i`, find the node its value names in
    * the ring without it, and link `i` in after that node. */
  function MoveSpec(ns: seq<Node>, i: nat): (r: seq<Node>)
    requires Bounded(ns) && i < |ns| && |ns| >= 2
    ensures |r| == |ns| && Bounded(r)
  {
    Insert(Unlink(ns, i), i, Destination(ns, i))
  }

  /** A move rewrites links only: every number stays at its index. */
  lemma MoveValues(ns: seq<Node>, i: nat)
    requires Bounded(ns) && i < |ns| && |ns| >= 2
    ensures SameValues(MoveSpec(ns, i), ns)
  {
    var r := MoveSpec(ns, i);
    forall j | 0 <= j < |ns|
      ensures r[j].value == ns[j].value
    {
    }
  }

  /** Where a move puts node `i`: after the node its value names, counted
    * in the ring without `i`, whose length is `n - 1`. */
  function Destination(ns: seq<Node>, i: nat): (r: nat)
    requires Bounded(ns) && i < |ns| && |ns| >= 2
    ensures r < |ns|
  {
    FindNext(Unlink(ns, i), i, ns[i].value, |ns| - 1)
  }

  /** The destination of a move is never the moving node itself, unless the
    * node is alone in its ring. */
  lemma DestinationOther(ns: seq<Node>, i: nat)
    requires Linked(ns) && i < |ns| && |ns| >= 2 && ns[i].next != i
    ensures var u := Unlink(ns, i);
      LinkedWithout(u, i) && Destination(ns, i) != i
  {
    var u := Unlink(ns, i);
    UnlinkLeaves(ns, i);
    var c := NormalizeMoveCount(u[i].value, |ns| - 1, |ns|);
    if c < 0 {
      WalkAvoids(u, i, i, -c);
    } else if c > 0 {
      WalkAvoids(u, i, i, c);
    }
  }

  /** A move keeps the links consistent. */
  lemma MoveLinks(ns: seq<Node>, i: nat)
    requires Linked(ns) && i < |ns| && |ns| >= 2
    ensures Linked(MoveSpec(ns, i))
  {
    if ns[i].next != i {
      MovePlaces(ns, i);
    } else {
      LoneMove(ns, i);
    }
  }

  /** A move of a node that is not alone in its ring leaves it right after
    * the destination it found, with consistent links. */
  lemma MovePlaces(ns: seq<Node>, i: nat)
    requires Linked(ns) && i < |ns| && |ns| >= 2 && ns[i].next != i
    ensures var r := MoveSpec(ns, i); var dest := Destination(ns, i);
      Linked(r) && r[dest].next == i && r[i].previous == dest
  {
    DestinationOther(ns, i);
    InsertLinks(Unlink(ns, i), i, Destination(ns, i));
  }

  /** A node alone in its ring stays where it is. */
  lemma LoneMove(ns: seq<Node>, i: nat)
    requires Linked(ns) && i < |ns| && |ns| >= 2 && ns[i].next == i
    ensures MoveSpec(ns, i) == ns
  {
    assert LinkedAt(ns, i);
    LoneUnlink(ns, i);
    LoneWalk(ns, i, Abs(NormalizeMoveCount(ns[i].value, |ns| - 1, |ns|)));
    assert FindNext(ns, i, ns[i].value, |ns| - 1) == i;
    LoneInsert(ns, i);
  }

  /** Unlinking a node that is its own neighbour changes nothing. */
  lemma LoneUnlink(ns: seq<Node>, i: nat)
    requires Bounded(ns) && i < |ns| && ns[i].next == i && ns[i].previous == i
    ensures Unlink(ns, i) == ns
  {
    assert ns[i].(next := i) == ns[i] && ns[i].(previous := i) == ns[i];
  }

  /** Linking a node that is its own neighbour in after itself changes
    * nothing. */
  lemma LoneInsert(ns: seq<Node>, i: nat)
    requires Bounded(ns) && i < |ns| && ns[i].next == i && ns[i].previous == i
    ensures Insert(ns, i, i) == ns
  {
    assert ns[i].(next := i) == ns[i] && ns[i].(previous := i) == ns[i];
  }

  lemma {:induction false} LoneWalk(ns: seq<Node>, i: nat, k: nat)
    requires Bounded(ns) && i < |ns| && ns[i].next == i && ns[i].previous == i
    ensures Forward(ns, i, k) == i && Backward(ns, i, k) == i
    decreases k
  {
    if k > 0 {
      LoneWalk(ns, i, k - 1);
    }
  }

  /** The list after moving nodes `0` to `k - 1`, in that order. */
  function Mixed(ns: seq<Node>, k: nat): (r: seq<Node>)
    requires Bounded(ns) && |ns| >= 2 && k <= |ns|
    ensures |r| == |ns| && Bounded(r)
  {
    if k == 0 then ns else MoveSpec(Mixed(ns, k - 1), k - 1)
  }

  /** Mixing a consistently linked list keeps its links consistent. */
  lemma {:induction false} MixedLinked(ns: seq<Node>, k: nat)
    requires Linked(ns) && |ns| >= 2 && k <= |ns|
    ensures Linked(Mixed(ns, k))
  {
    if k > 0 {
      MixedLinked(ns, k - 1);
      MixedLinkedStep(ns, k - 1);
    }
  }

  lemma MixedLinkedStep(ns: seq<Node>, k: nat)
    requires Bounded(ns) && |ns| >= 2 && k < |ns|
    ensures Linked(Mixed(ns, k)) ==> Linked(Mixed(ns, k + 1))
  {
    if Linked(Mixed(ns, k)) {
      MoveLinks(Mixed(ns, k), k);
    }
  }

  /** Mixing moves links only: every number stays at its index. */
  lemma {:induction false} MixedValues(ns: seq<Node>, k: nat)
    requires Bounded(ns) && |ns| >= 2 && k <= |ns|
    ensures SameValues(Mixed(ns, k), ns)
  {
    if k > 0 {
      MixedValues(ns, k - 1);
      MixedValuesStep(ns, k - 1);
    }
  }

  lemma MixedValuesStep(ns: seq<Node>, k: nat)
    requires Bounded(ns) && |ns| >= 2 && k < |ns| && SameValues(Mixed(ns, k), ns)
    ensures SameValues(Mixed(ns, k + 1), ns)
  {
    MoveValues(Mixed(ns, k), k);
  }

  // ---------------------------------------------------------------------
  // The answer

  /** `iter().position(|node| node.value == 0)`: the first node holding 0. */
  function FirstZero(ns: seq<Node>): (r: Option<nat>)
    ensures r.Some? ==> r.value < |ns| && ns[r.value].value == 0
    ensures r.Some? ==> forall j | 0 <= j < r.value :: ns[j].value != 0
    ensures r.None? ==> forall j | 0 <= j < |ns| :: ns[j].value != 0
  {
    if ns == [] then None
    else if ns[0].value == 0 then Some(0)
    else match FirstZero(ns[1..])
      case None => None
      case Some(j) => Some(j + 1)
  }

  /** The lookup of the answer as written: `find_next_node(index, offset,
    * n)`, which, like a move, gives the node before `start` when the offset
    * is a multiple of `n`. */
  function LookupAsWritten(ns: seq<Node>, start: nat, offset: int): (r: nat)
    requires Bounded(ns) && start < |ns|
    ensures r < |ns|
  {
    FindNext(ns, start, offset, |ns|)
  }

  /** The lookup as intended: the node `offset` places after `start`, which
    * is `start` itself when the offset is a multiple of `n`. */
  function Lookup(ns: seq<Node>, start: nat, offset: int): (r: nat)
    requires Bounded(ns) && start < |ns|
    ensures r < |ns|
  {
    if NormalizeMoveCount(offset, |ns|, |ns|) == 0 then start else FindNext(ns, start, offset, |ns|)
  }

  /** Walking `n` steps forward from any node comes back to it: the links
    * form rings whose sizes divide `n`. */
  predicate Periodic(ns: seq<Node>)
    requires Bounded(ns)
  {
    forall j | 0 <= j < |ns| :: Forward(ns, j, |ns|) == j
  }

  /** On a ring of `n` nodes the lookup reaches the node `offset` places
    * forward, the short way round. */
  lemma LookupForward(ns: seq<Node>, start: nat, offset: int)
    requires Linked(ns) && Periodic(ns) && start < |ns|
    ensures Lookup(ns, start, offset) == Forward(ns, start, offset % |ns|)
  {
    var n := |ns|;
    var c := NormalizeMoveCount(offset, n, n);
    if c < 0 {
      var back := Backward(ns, start, -c);
      WalkInverse(ns, start, -c);
      ForwardAdd(ns, back, -c, offset % n);
      assert Forward(ns, back, n) == back;
    }
  }

  /** A full turn: the as-written lookup of an offset that is a multiple of
    * `n` gives the node before `start`, not `start`. */
  lemma LookupAsWrittenFullTurn(ns: seq<Node>, start: nat, offset: int)
    requires Bounded(ns) && start < |ns| && offset % |ns| == 0
    ensures LookupAsWritten(ns, start, offset) == ns[start].previous
    ensures Lookup(ns, start, offset) == start
  {
  }

  /** The sum of the numbers at the first `k` offsets after `zero`, found
    * with the lookup as written or as intended. */
  function AnswerUpTo(ns: seq<Node>, zero: nat, k: nat, asWritten: bool): int
    requires Bounded(ns) && zero < |ns| && k <= |OFFSETS|
  {
    if k == 0 then 0
    else
      var at := if asWritten then LookupAsWritten(ns, zero, OFFSETS[k - 1]) else Lookup(ns, zero, OFFSETS[k - 1]);
      AnswerUpTo(ns, zero, k - 1, asWritten) + ns[at].value
  }

  /** `decrypt` on a consistently linked list: a list of one number divides
    * by a zero length; otherwise every node is moved once, in vector order,
    * and the numbers after the first 0 are summed; an empty list, or one
    * without a 0, has no 0 to find. */
  function DecryptResult(ns: seq<Node>, asWritten: bool): Result<int>
    requires Bounded(ns)
  {
    if |ns| == 1 then Err("attempt to calculate the remainder with a divisor of zero")
    else
      var mixed := if |ns| >= 2 then Mixed(ns, |ns|) else ns;
      match FirstZero(mixed)
      case None => Err("called `Option::unwrap()` on a `None` value")
      case Some(zero) => Ok(AnswerUpTo(mixed, zero, |OFFSETS|, asWritten))
  }

  /** `decrypt` on the list built from `values`. */
  function Decrypted(values: seq<int>, asWritten: bool): Result<int>
  {
    NewRing(values);
    DecryptResult(NewNodes(values), asWritten)
  }

  /** The full-turn lookup changes the answer: for the file "0", "5", the
    * number 1000 places after the 0 is the 0 itself, but the source reports
    * the 5 before it, three times. */
  lemma FullTurnExample()
    ensures Decrypted([0, 5], true) == Ok(15)
    ensures Decrypted([0, 5], false) == Ok(0)
  {
    var values := [0, 5];
    NewRing(values);
    var ns := NewNodes(values);
    assert ns == [Node(0, 1, 1), Node(5, 0, 0)];
    var m1 := MoveSpec(ns, 0);
    assert Unlink(ns, 0) == [Node(0, 1, 1), Node(5, 1, 1)];
    assert FindNext(Unlink(ns, 0), 0, 0, 1) == 1;
    assert m1 == [Node(0, 1, 1), Node(5, 0, 0)];
    assert Mixed(ns, 1) == m1;
    assert Unlink(m1, 1) == [Node(0, 0, 0), Node(5, 0, 0)];
    assert FindNext(Unlink(m1, 1), 1, 5, 1) == 0;
    assert MoveSpec(m1, 1) == [Node(0, 1, 1), Node(5, 0, 0)];
    var mixed := Mixed(ns, 2);
    assert mixed == [Node(0, 1, 1), Node(5, 0, 0)];
    assert FirstZero(mixed) == Some(0);
    assert LookupAsWritten(mixed, 0, 1000) == 1;
    assert LookupAsWritten(mixed, 0, 2000) == 1;
    assert LookupAsWritten(mixed, 0, 3000) == 1;
    assert Lookup(mixed, 0, 1000) == 0;
    assert Lookup(mixed, 0, 2000) == 0;
    assert Lookup(mixed, 0, 3000) == 0;
    assert AnswerUpTo(mixed, 0, 1, true) == 5;
    assert AnswerUpTo(mixed, 0, 2, true) == 10;
    assert AnswerUpTo(mixed, 0, 3, true) == 15;
    assert AnswerUpTo(mixed, 0, 1, false) == 0;
    assert AnswerUpTo(mixed, 0, 2, false) == 0;
    assert AnswerUpTo(mixed, 0, 3, false) == 0;
    assert DecryptResult(ns, true) == Ok(15);
  }

  // ---------------------------------------------------------------------
  // The list in place

  /** `CircularList`: the vector of nodes, rewritten in place. */
  class CircularList {
    const nodes: array<Node>

    /** `CircularList::new`. */
    constructor(values: seq<int>)
      ensures nodes[..] == NewNodes(values) && fresh(nodes)
    {
      var n := |values|;
      var a := new Node[n](i requires 0 <= i < n => Node(values[i], i + 1, if i == 0 then 0 else i - 1));
      if n > 0 {
        a[0] := a[0].(previous := n - 1);
        a[n - 1] := a[n - 1].(next := 0);
      }
      nodes := a;
    }

    /** `find_next_node`: the fold over the links, one step per turn. */
    method FindNextNode(start: nat, count: int, length: int) returns (dest: nat)
      requires Bounded(nodes[..]) && start < nodes.Length && 0 < length <= nodes.Length
      ensures dest == FindNext(nodes[..], start, count, length)
    {
      var c := NormalizeMoveCount(count, length, nodes.Length);
      if c < 0 {
        dest := start;
        var k := 0;
        while k < -c
          invariant 0 <= k <= -c && dest < nodes.Length
          invariant Backward(nodes[..], start, -c) == Backward(nodes[..], dest, -c - k)
        {
          dest := nodes[dest].previous;
          k := k + 1;
        }
      } else if c == 0 {
        dest := nodes[start].previous;
      } else {
        dest := start;
        var k := 0;
        while k < c
          invariant 0 <= k <= c && dest < nodes.Length
          invariant Forward(nodes[..], start, c) == Forward(nodes[..], dest, c - k)
        {
          dest := nodes[dest].next;
          k := k + 1;
        }
      }
    }

    /** The first half of a turn of the `decrypt` loop: the neighbours of
      * node `i` are joined to each other. */
    method Detach(i: nat)
      requires Bounded(nodes[..]) && i < nodes.Length
      modifies nodes
      ensures nodes[..] == Unlink(old(nodes[..]), i)
    {
      var iNext := nodes[i].next;
      var iPrevious := nodes[i].previous;
      nodes[iPrevious] := nodes[iPrevious].(next := iNext);
      nodes[iNext] := nodes[iNext].(previous := iPrevious);
    }

    /** The second half of a turn of the `decrypt` loop: node `i` is linked
      * in after `dest`. */
    method Attach(i: nat, dest: nat)
      requires Bounded(nodes[..]) && i < nodes.Length && dest < nodes.Length
      modifies nodes
      ensures nodes[..] == Insert(old(nodes[..]), i, dest)
    {
      var destNext := nodes[dest].next;
      nodes[dest] := nodes[dest].(next := i);
      nodes[i] := nodes[i].(previous := dest);
      nodes[i] := nodes[i].(next := destNext);
      nodes[destNext] := nodes[destNext].(previous := i);
    }

    /** One turn of the `decrypt` loop: node `i` is unlinked, its
      * destination found in the ring without it, and it is linked in after
      * the destination. */
    method Move(i: nat, length: int)
      requires Bounded(nodes[..]) && i < nodes.Length && nodes.Length >= 2 && length == nodes.Length - 1
      modifies nodes
      ensures nodes[..] == MoveSpec(old(nodes[..]), i)
    {
      ghost var before := nodes[..];
      Detach(i);
      var dest := FindNextNode(i, nodes[i].value, length);
      assert dest == Destination(before, i);
      Attach(i, dest);
    }

    /** The loop of `decrypt`: every node moved once, in vector order. */
    method Mix()
      requires Bounded(nodes[..]) && nodes.Length >= 2
      modifies nodes
      ensures nodes[..] == Mixed(old(nodes[..]), nodes.Length)
    {
      ghost var start := nodes[..];
      var length := nodes.Length - 1;
      for i := 0 to nodes.Length
        invariant nodes[..] == Mixed(start, i)
      {
        Move(i, length);
      }
    }

    /** `iter().position(|node| node.value == 0)`. */
    method PositionOfZero() returns (r: Option<nat>)
      ensures r == FirstZero(nodes[..])
    {
      var index := 0;
      while index < nodes.Length && nodes[index].value != 0
        invariant 0 <= index <= nodes.Length
        invariant forall j | 0 <= j < index :: nodes[j].value != 0
      {
        index := index + 1;
      }
      if index == nodes.Length {
        return None;
      }
      return Some(index);
    }

    /** The sum over `[1000, 2000, 3000]`, with the intended lookup. */
    method SumAfter(zero: nat) returns (sum: int)
      requires Bounded(nodes[..]) && zero < nodes.Length
      ensures sum == AnswerUpTo(nodes[..], zero, |OFFSETS|, false)
    {
      var n := nodes.Length;
      sum := 0;
      for k := 0 to |OFFSETS|
        invariant sum == AnswerUpTo(nodes[..], zero, k, false)
      {
        var at: nat;
        if NormalizeMoveCount(OFFSETS[k], n, n) == 0 {
          at := zero;
        } else {
          at := FindNextNode(zero, OFFSETS[k], n);
        }
        sum := sum + nodes[at].value;
      }
    }

    /** `decrypt`, with the lookup of the answer corrected for offsets that
      * are a multiple of the list's length. */
    method Decrypt() returns (r: Result<int>)
      requires Bounded(nodes[..])
      modifies nodes
      ensures r == DecryptResult(old(nodes[..]), false)
    {
      if nodes.Length == 1 {
        return Err("attempt to calculate the remainder with a divisor of zero");
      }
      if nodes.Length >= 2 {
        Mix();
      }
      var index := PositionOfZero();
      match index
      case None =>
        r := Err("called `Option::unwrap()` on a `None` value");
      case Some(zero) =>
        var sum := SumAfter(zero);
        r := Ok(sum);
    }
  }

  /** `part_a`: the numbers parsed as `isize`, the list built and
    * decrypted. */
  method PartA(input: seq<string>) returns (r: Result<int>)
    requires forall k | 0 <= k < |input| :: ParseIsize(input[k]).Some?
    ensures r == Decrypted(seq(|input|, k requires 0 <= k < |input| => ParseIsize(input[k]).value), false)
  {
    var values := seq(|input|, k requires 0 <= k < |input| => ParseIsize(input[k]).value);
    var list := new CircularList(values);
    NewRing(values);
    r := list.Decrypt();
  }
}
