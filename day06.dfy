/**
 * Day 6: find the end of the first marker in a datastream, a window of
 * `length` consecutive bytes that are pairwise distinct: 4 bytes for the
 * start-of-packet marker, 14 for the start-of-message marker.
 */
module Day06 {
  import opened Common

  /** Every byte of the window differs from every byte after it. */
  predicate AllDistinct(window: string)
  {
    forall i, j | 0 <= i < j < |window| :: window[i] != window[j]
  }

  /** The window of `length` bytes starting at `i` exists and is a marker. */
  predicate MarkerAt(sequence: string, length: nat, i: nat)
  {
    i + length <= |sequence| && AllDistinct(sequence[i..i + length])
  }

  /** The index of the first marker of `length` bytes starting at `from` or later. */
  function FindFrom(sequence: string, length: nat, from: nat): (r: Option<nat>)
    requires length > 0
    ensures r.Some? ==> (from <= r.value && MarkerAt(sequence, length, r.value)
      && forall i | from <= i < r.value :: !MarkerAt(sequence, length, i))
    ensures r.None? ==> forall i | from <= i :: !MarkerAt(sequence, length, i)
    decreases |sequence| - from
  {
    if from + length > |sequence| then None
    else if MarkerAt(sequence, length, from) then Some(from)
    else FindFrom(sequence, length, from + 1)
  }

  /**
   * `solve`: the position just after the first window of `length`
   * pairwise distinct bytes (`windows(length).find(...)`, plus `length`);
   * the `unwrap` panics when there is none.
   */
  function Solve(sequence: string, length: nat): (r: Result<nat>)
    requires length > 0
    ensures r.Ok? ==> length <= r.value <= |sequence|
    ensures r.Ok? ==> AllDistinct(sequence[r.value - length..r.value])
    ensures r.Ok? ==> forall i | 0 <= i < r.value - length :: !MarkerAt(sequence, length, i)
    ensures r.Err? <==> forall i | 0 <= i :: !MarkerAt(sequence, length, i)
  {
    var found := FindFrom(sequence, length, 0);
    if found.None? then
      Err("called `Option::unwrap()` on a `None` value")
    else
      assert forall i | 0 <= i < found.value :: !MarkerAt(sequence, length, i);
      var end: nat := found.value + length;
      Ok(end)
  }

  /** A window of distinct bytes stays distinct when shrunk: a 14-byte marker contains a 4-byte one. */
  lemma DistinctShrinks(window: string, lo: nat, hi: nat)
    requires AllDistinct(window) && lo <= hi <= |window|
    ensures AllDistinct(window[lo..hi])
  {
    forall i, j | 0 <= i < j < hi - lo
      ensures window[lo..hi][i] != window[lo..hi][j]
    {
      assert window[lo..hi][i] == window[lo + i] && window[lo..hi][j] == window[lo + j];
    }
  }

  /** The start-of-message marker never ends before the start-of-packet marker. */
  lemma MessageAfterPacket(sequence: string)
    requires Solve(sequence, 14).Ok?
    ensures Solve(sequence, 4).Ok? && Solve(sequence, 4).value <= Solve(sequence, 14).value
  {
    var e := Solve(sequence, 14).value;
    DistinctShrinks(sequence[e - 14..e], 10, 14);
    assert sequence[e - 14..e][10..14] == sequence[e - 4..e];
    assert MarkerAt(sequence, 4, e - 4);
  }

  /** `part_a`: the end of the start-of-packet marker of the first line; an empty input has no first line to index. */
  function PartA(input: seq<string>): (r: Result<nat>)
    ensures input == [] ==> r == Err("index out of bounds")
    ensures r.Ok? ==> 4 <= r.value && MarkerAt(input[0], 4, r.value - 4)
    ensures input != [] ==> (r.Err? <==> forall i | 0 <= i :: !MarkerAt(input[0], 4, i))
  {
    if input == [] then Err("index out of bounds") else Solve(input[0], 4)
  }

  /** `part_b`: the end of the start-of-message marker of the first line. */
  function PartB(input: seq<string>): (r: Result<nat>)
    ensures input == [] ==> r == Err("index out of bounds")
    ensures r.Ok? ==> 14 <= r.value && MarkerAt(input[0], 14, r.value - 14)
    ensures input != [] ==> (r.Err? <==> forall i | 0 <= i :: !MarkerAt(input[0], 14, i))
  {
    if input == [] then Err("index out of bounds") else Solve(input[0], 14)
  }
}
