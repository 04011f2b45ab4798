/**
 * Day 3: each rucksack line holds two equally sized compartments of
 * items, one letter per item. A compartment is a 64-bit set of item
 * types: 'a'..'z' are bits 0..25 and 'A'..'Z' bits 26..51. The score of a
 * rucksack is the sum of the priorities (bit index plus one) of the item
 * types found in both compartments.
 */
module Day03 {
  import opened Common

  /**
   * An item byte for which `Compartment::new` computes a shift below 64:
   * no byte below 'A' (the subtraction would underflow) and none from
   * 'a' + 64 on (the shift would overflow).
   */
  predicate IsItem(c: char)
  {
    'A' <= c && (c as int) < ('a' as int) + 64
  }

  /** The bit of an item: `item - 'a'` from 'a' on, `item - 'A' + 26` below it. */
  function ItemIndex(c: char): (i: nat)
    requires IsItem(c)
    ensures i < 64
    ensures 'a' <= c <= 'z' ==> i == c as int - 'a' as int
    ensures 'A' <= c <= 'Z' ==> i == c as int - 'A' as int + 26
    ensures IsLetter(c) ==> i < 52
  {
    if c >= 'a' then c as int - 'a' as int else c as int - 'A' as int + 26
  }

  predicate IsLetter(c: char) { 'a' <= c <= 'z' || 'A' <= c <= 'Z' }

  /** Distinct letters have distinct bits. */
  lemma ItemIndexInjective(c: char, d: char)
    requires IsLetter(c) && IsLetter(d) && ItemIndex(c) == ItemIndex(d)
    ensures c == d
  {
  }

  function Bit(k: nat): bv64
    requires k < 64
  {
    1 << (k as bv6)
  }

  predicate Has(flags: bv64, k: nat)
    requires k < 64
  {
    flags & Bit(k) != 0
  }

  lemma OrRaw(x: bv64, k: nat, i: nat)
    requires k < 64 && i < 64
    ensures Has(x | Bit(k), i) <==> Has(x, i) || i == k
  {
    AndOverOr(x, Bit(k), Bit(i));
    BitsMeet(k, i);
    OrNonZero(x & Bit(i), Bit(k) & Bit(i));
  }

  lemma AndOverOr(x: bv64, y: bv64, z: bv64)
    ensures (x | y) & z == (x & z) | (y & z)
  {
  }

  lemma OrNonZero(x: bv64, y: bv64)
    ensures x | y != 0 <==> x != 0 || y != 0
  {
  }

  /** Two single-bit masks meet only when they are the same bit. */
  lemma BitsMeet(k: nat, i: nat)
    requires k < 64 && i < 64
    ensures Bit(k) & Bit(i) != 0 <==> i == k
  {
    if i == k {
      BitNonZero(k);
    } else {
      BitsDisjoint(k, i);
    }
  }

  lemma BitNonZero(k: nat)
    requires k < 64
    ensures Bit(k) & Bit(k) != 0
  {
    assert Bit(k) != 0;
  }

  lemma BitsDisjoint(k: nat, i: nat)
    requires k < 64 && i < 64 && k != i
    ensures Bit(k) & Bit(i) == 0
  {
    Bv6RoundTrip(k);
    Bv6RoundTrip(i);
    ShiftsDisjoint(k as bv6, i as bv6);
  }

  lemma Bv6RoundTrip(k: nat)
    requires k < 64
    ensures (k as bv6) as int == k
  {
  }

  lemma ShiftsDisjoint(a: bv6, b: bv6)
    requires a != b
    ensures ((1 as bv64) << a) & ((1 as bv64) << b) == 0
  {
  }

  lemma ZeroRaw(i: nat)
    requires i < 64
    ensures 0 & Bit(i) == 0
  {
  }

  /** The source tests a bit with `flags & mask == mask`; that is the same test. */
  lemma MaskRaw(x: bv64, i: nat)
    requires i < 64
    ensures x & Bit(i) == Bit(i) <==> x & Bit(i) != 0
  {
  }

  /** The flags `Compartment::new` has built after the items of `items`. */
  function Flags(items: string): bv64
    requires forall c | c in items :: IsItem(c)
  {
    if items == [] then 0
    else Flags(items[..|items| - 1]) | Bit(ItemIndex(items[|items| - 1]))
  }

  /** Bit `i` of the flags is set exactly when some item has index `i`. */
  lemma {:induction false} FlagsHas(items: string, i: nat)
    requires forall c | c in items :: IsItem(c)
    requires i < 64
    ensures Has(Flags(items), i) <==> exists c | c in items :: ItemIndex(c) == i
  {
    if items == [] {
      ZeroRaw(i);
    } else {
      var init := items[..|items| - 1];
      var last := items[|items| - 1];
      assert forall c | c in init :: c in items;
      FlagsHas(init, i);
      OrRaw(Flags(init), ItemIndex(last), i);
      assert forall c | c in items :: c in init || c == last;
      assert last in items;
    }
  }

  /** `Compartment::new`: OR the bit of each item into `flags`. */
  method NewCompartment(items: string) returns (flags: bv64)
    requires forall c | c in items :: IsItem(c)
    ensures flags == Flags(items)
  {
    flags := 0;
    for k := 0 to |items|
      invariant flags == Flags(items[..k])
    {
      assert items[..k + 1][..k] == items[..k];
      flags := flags | Bit(ItemIndex(items[k]));
    }
    assert items[..|items|] == items;
  }

  /** Both compartments hold an item of type `i` (the source's `mask` test, on both). */
  predicate Shared(a: bv64, b: bv64, i: nat)
    requires i < 64
  {
    a & Bit(i) == Bit(i) && b & Bit(i) == Bit(i)
  }

  /** The sum of `index + 1` over the indices below `k` whose bit is set in both. */
  function ScoreBelow(a: bv64, b: bv64, k: nat): (r: nat)
    requires k <= 64
  {
    if k == 0 then 0
    else ScoreBelow(a, b, k - 1) + (if Shared(a, b, k - 1) then k else 0)
  }

  /** `Compartment::score`: the priorities of the shared item types among bits 0..51. */
  function Score(a: bv64, b: bv64): nat
  {
    ScoreBelow(a, b, 52)
  }

  /** The score does not depend on the order of the compartments. */
  lemma {:induction false} ScoreBelowSymmetric(a: bv64, b: bv64, k: nat)
    requires k <= 64
    ensures ScoreBelow(a, b, k) == ScoreBelow(b, a, k)
  {
    if k > 0 {
      ScoreBelowSymmetric(a, b, k - 1);
    }
  }

  /** The score is 0 exactly when the compartments share no item type. */
  lemma {:induction false} ScoreBelowZero(a: bv64, b: bv64, k: nat)
    requires k <= 64
    ensures ScoreBelow(a, b, k) == 0 <==> forall i | 0 <= i < k :: !Shared(a, b, i)
  {
    if k > 0 {
      ScoreBelowZero(a, b, k - 1);
      var shared := Shared(a, b, k - 1);
      assert ScoreBelow(a, b, k) == ScoreBelow(a, b, k - 1) + (if shared then k else 0);
      assert (forall i | 0 <= i < k :: !Shared(a, b, i))
        <==> (forall i | 0 <= i < k - 1 :: !Shared(a, b, i)) && !shared;
    }
  }

  /** Each shared bit adds its priority, so the score is at least the priority of every shared type. */
  lemma {:induction false} ScoreBelowAtLeast(a: bv64, b: bv64, k: nat)
    requires k <= 64
    ensures forall i | 0 <= i < k && Shared(a, b, i) :: i + 1 <= ScoreBelow(a, b, k)
  {
    if k > 0 {
      ScoreBelowAtLeast(a, b, k - 1);
      var shared := Shared(a, b, k - 1);
      assert ScoreBelow(a, b, k) == ScoreBelow(a, b, k - 1) + (if shared then k else 0);
    }
  }

  lemma ScoreFacts(a: bv64, b: bv64)
    ensures Score(a, b) == Score(b, a)
    ensures Score(a, b) == 0 <==> forall i | 0 <= i < 52 :: !Shared(a, b, i)
  {
    ScoreBelowSymmetric(a, b, 52);
    ScoreBelowZero(a, b, 52);
  }

  lemma SharedHas(a: bv64, b: bv64, i: nat)
    requires i < 64
    ensures Shared(a, b, i) <==> Has(a, i) && Has(b, i)
  {
    MaskRaw(a, i);
    MaskRaw(b, i);
  }

  /**
   * For compartments built from items, type `i` is shared exactly when
   * some item of the first and some item of the second both have index
   * `i`.
   */
  lemma SharedItems(first: string, second: string, i: nat)
    requires forall c | c in first :: IsItem(c)
    requires forall c | c in second :: IsItem(c)
    requires i < 64
    ensures Shared(Flags(first), Flags(second), i) <==>
      (exists c | c in first :: ItemIndex(c) == i) && (exists d | d in second :: ItemIndex(d) == i)
  {
    FlagsHas(first, i);
    FlagsHas(second, i);
    SharedHas(Flags(first), Flags(second), i);
  }

  /** `Rucksack::new` then `score`: split at `len / 2` and score the halves. */
  method RucksackScore(items: string) returns (score: nat)
    requires forall c | c in items :: IsItem(c)
    ensures var half := |items| / 2;
      score == Score(Flags(items[..half]), Flags(items[half..]))
  {
    var half := |items| / 2;
    assert forall c | c in items[..half] :: c in items;
    assert forall c | c in items[half..] :: c in items;
    var first := NewCompartment(items[..half]);
    var second := NewCompartment(items[half..]);
    score := Score(first, second);
  }

  function RucksackScoreOf(items: string): nat
    requires forall c | c in items :: IsItem(c)
  {
    assert forall c | c in items[..|items| / 2] :: c in items;
    assert forall c | c in items[|items| / 2..] :: c in items;
    Score(Flags(items[..|items| / 2]), Flags(items[|items| / 2..]))
  }

  /** The answer: the sum of the rucksack scores. */
  function TotalScore(lines: seq<string>): nat
    requires forall l, c | l in lines && c in l :: IsItem(c)
  {
    if lines == [] then 0
    else TotalScore(lines[..|lines| - 1]) + RucksackScoreOf(lines[|lines| - 1])
  }

  /** `part_a`: score every rucksack and add the scores up. */
  method PartA(lines: seq<string>) returns (r: nat)
    requires forall l, c | l in lines && c in l :: IsItem(c)
    ensures r == TotalScore(lines)
  {
    r := 0;
    for k := 0 to |lines|
      invariant r == TotalScore(lines[..k])
    {
      assert lines[..k + 1][..k] == lines[..k];
      var score := RucksackScore(lines[k]);
      r := r + score;
    }
    assert lines[..|lines|] == lines;
  }
}
