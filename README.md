# Advent of Code 2022 solvers, modelled in Dafny

This project models the 25 puzzle solvers of an Advent of Code 2022
repository written in Rust (`src/challenge/day_01.rs` to `day_25.rs`).
Each solver reads the puzzle input as a list of lines and returns the
answer to part A or part B. Each source file becomes a module `DayNN` in
`dayNN.dfy`. The modules share `common.dfy`, which models Rust's
number parsing, string splitting and integer arithmetic.

The model keeps each solver's own form:
- pure parsing and arithmetic become functions with contracts;
- loops over mutable state become methods with loop invariants, proved
  against specification functions;
- structs whose fields are updated in place become classes.

## Model

| member | source | states |
|---|---|---|
| Day01.Groups | src/challenge/day_01.rs:5 | splitting on empty lines gives one group more than there are empty lines (so at least one), and no group holds an empty line |
| Day01.JoinGroups | src/challenge/day_01.rs:5 | the split loses nothing: joining the groups with one empty line between them gives back the input |
| Day01.TotalCalories | src/challenge/day_01.rs:21-26 | the total is at least every line that parses as `usize`, and 0 when no line parses; lines that do not parse are skipped |
| Day01.TotalCaloriesAppend | src/challenge/day_01.rs:21-26 | the total of two inventories joined is the sum of their totals |
| Day01.Totals | src/challenge/day_01.rs:4-6 | one total per group, each the total of its own group |
| Day01.Largest | src/challenge/day_01.rs:7 | `max`: an element of the list that is at least every element |
| Day01.PartA | src/challenge/day_01.rs:3-9 | always `Ok` (the split yields at least one group, so "Input is empty" never fires); the answer is some elf's total and at least every elf's total |
| Day01.InsertAsc | src/challenge/day_01.rs:17 | inserting into an ascending list keeps it ascending and adds exactly that element |
| Day01.SortAsc | src/challenge/day_01.rs:17 | `sort`: the result is ascending and a permutation of the totals |
| Day01.TopThree | src/challenge/day_01.rs:18 | `rev().take(3)` takes min(3, n) totals |
| Day01.TopThreeDominates | src/challenge/day_01.rs:17-18 | on a sorted list the totals taken from the back, and the ones left, split the list so that every taken total is at least every one left |
| Day01.PartB | src/challenge/day_01.rs:11-19 | always `Ok`; the answer is the sum of min(3, n) totals that, with the remaining ones, make up all the totals and each dominate every remaining one |
| Day01.SameSplit | src/challenge/day_01.rs:17-18 | a split of the sorted totals is a split of the totals themselves, since sorting only permutes |
| Day02.Hand.Index | src/challenge/day_02.rs:31-38 | the `usize` of a hand is below 3 |
| Day02.Hand.Score | src/challenge/day_02.rs:40-44 | a hand scores its index plus one, 1 to 3 |
| Day02.HandFromIndex | src/challenge/day_02.rs:104 | `into()` from an index below 3 gives the hand with that index; the `#[default]` Rock otherwise |
| Day02.Outcome.Index | src/challenge/day_02.rs:60-67 | the `usize` of an outcome is below 3 |
| Day02.Outcome.Score | src/challenge/day_02.rs:69-77 | lose scores 0, draw 3, win 6: three times (index + 1) mod 3 |
| Day02.DecodeHand | src/challenge/day_02.rs:46-58 | A and X are rock, B and Y paper, C and Z scissors, each in both directions |
| Day02.DecodeOutcome | src/challenge/day_02.rs:79-88 | X is lose, Y draw, Z win, each in both directions |
| Day02.ComputeOutcome | src/challenge/day_02.rs:90-101 | the player wins exactly when its hand is the next one after the opponent's mod 3, draws exactly on equal hands, and loses exactly when the opponent's hand is the next after its own |
| Day02.ComputeHand | src/challenge/day_02.rs:103-105 | the chosen hand's index is the opponent's index plus the outcome's index, mod 3 |
| Day02.HandGivesOutcome | src/challenge/day_02.rs:90-105 | playing the hand chosen for an outcome gives exactly that outcome |
| Day02.OutcomeDeterminesHand | src/challenge/day_02.rs:90-105 | the hand chosen for the outcome a hand gives is that hand: the two functions are inverse |
| Day02.ScoreA | src/challenge/day_02.rs:6-11 | a game of part A scores 1 to 9 |
| Day02.ScoreB | src/challenge/day_02.rs:20-25 | a game of part B scores 1 to 9, the part A score of the game played with the hand that reaches the wanted outcome |
| Day02.PartA | src/challenge/day_02.rs:3-15 | the total is between the number of games and nine times it |
| Day02.PartB | src/challenge/day_02.rs:17-29 | the total is between the number of games and nine times it |
| Day02.PartAAppend | src/challenge/day_02.rs:4-12 | the total of two game lists joined is the sum of their totals |
| Day03.ItemIndex | src/challenge/day_03.rs:12-16 | the bit of an item is below 64; 'a'..'z' are 0..25, 'A'..'Z' are 26..51 |
| Day03.ItemIndexInjective | src/challenge/day_03.rs:12-16 | distinct letters have distinct bits |
| Day03.FlagsHas | src/challenge/day_03.rs:8-22 | bit i of a compartment's flags is set exactly when some item of it has index i |
| Day03.NewCompartment | src/challenge/day_03.rs:8-22 | the loop builds exactly the flags of the items |
| Day03.ScoreBelowSymmetric | src/challenge/day_03.rs:24-32 | the score of two compartments does not depend on their order |
| Day03.ScoreBelowZero | src/challenge/day_03.rs:24-32 | the score is 0 exactly when no bit below the bound is shared |
| Day03.ScoreBelowAtLeast | src/challenge/day_03.rs:24-32 | each shared bit below the bound adds its priority, so the score is at least that priority |
| Day03.ScoreFacts | src/challenge/day_03.rs:24-32 | the score is symmetric and is 0 exactly when no letter is in both compartments |
| Day03.SharedHas | src/challenge/day_03.rs:27-28 | a bit is shared exactly when both masks test set |
| Day03.SharedItems | src/challenge/day_03.rs:24-40 | bit i is shared by the two compartments exactly when both hold an item of index i |
| Day03.RucksackScore | src/challenge/day_03.rs:37-45 | a rucksack's score is the score of its two halves split at `len / 2` |
| Day03.PartA | src/challenge/day_03.rs:1-3 | the loop's answer is the sum of the rucksack scores |
| Day04.ContainedStartsWithin | src/challenge/day_04.rs:46-52 | a range contained in another starts within it |
| Day04.PartialIsIntersection | src/challenge/day_04.rs:50-52 | one range starting inside the other, either way round, holds exactly when the ranges share a section |
| Day04.ContainmentIsSubset | src/challenge/day_04.rs:46-48 | one range containing the other, either way round, holds exactly when one range's sections are all in the other |
| Day04.CheckConditionSymmetric | src/challenge/day_04.rs:23-25 | the check does not depend on the order of the pair |
| Day04.ParseRange | src/challenge/day_04.rs:58-69 | parses exactly when there is a '-' and both sides parse as `usize` |
| Day04.ParsePair | src/challenge/day_04.rs:31-37 | parses exactly when there is a ',' and both sides parse as ranges |
| Day04.ParseFormatRange | src/challenge/day_04.rs:58-69 | a range written out as "start-end" parses back to itself |
| Day04.ParseFormatPair | src/challenge/day_04.rs:31-37 | a pair written out parses back to itself |
| Day04.Solve | src/challenge/day_04.rs:12-18 | the count is at most the line count, 0 exactly when no line counts, and the line count exactly when every line counts |
| Day04.SolveAppend | src/challenge/day_04.rs:12-18 | the count over two line lists joined is the sum of their counts |
| Day04.SolveMonotone | src/challenge/day_04.rs:12-18 | a condition that holds on every line where another holds counts at least as many lines |
| Day04.PartAAtMostPartB | src/challenge/day_04.rs:4-10 | on well-formed ranges, part A's count is at most part B's |
| Day05.ParseInstruction | src/challenge/day_05.rs:44-63 | words 2, 4 and 6 parse as the count and the 1-based stacks; fewer than six words is an error; six or more words whose words 2, 4 and 6 are numbers with the stacks at least 1 always parse |
| Day05.ParseFormatInstruction | src/challenge/day_05.rs:44-51 | an instruction written as `move <count> from <from> to <to>` with 1-based stacks parses back to itself |
| Day05.Move | src/challenge/day_05.rs:110-124 | the top `count` crates leave the source and land on the target, reversed for the 9000; a move onto itself changes nothing; the other stacks keep their crates |
| Day05.CratesUpdate | src/challenge/day_05.rs:110-124 | replacing one stack changes the crates by exactly that stack's |
| Day05.MoveKeepsCrates | src/challenge/day_05.rs:110-124 | a move keeps the multiset of crates |
| Day05.OneAtATime | src/challenge/day_05.rs:110-116 | the 9000 moving `count` crates equals moving one, then `count - 1` |
| Day05.SingleCrateSame | src/challenge/day_05.rs:110-124 | the two cranes agree on moving one crate |
| Day05.ColumnUpTo | src/challenge/day_05.rs:72-79 | a stack never holds a blank |
| Day05.Build | src/challenge/day_05.rs:68-82 | there are `(len + 1) / 4` stacks |
| Day05.Tops | src/challenge/day_05.rs:25-30 | at most one letter per stack; when no stack is empty, exactly each stack's top |
| Day05.TopsSingle | src/challenge/day_05.rs:27-28 | one stack contributes its top crate, and an empty stack contributes nothing |
| Day05.TopsAppend | src/challenge/day_05.rs:25-30 | the letters of stacks side by side are the letters of the first stacks followed by those of the rest, so together with `TopsSingle` they are the tops of the non-empty stacks in order |
| Day05.Stacks.constructor | src/challenge/day_05.rs:68-82 | the loop builds exactly the stacks of the drawing |
| Day05.Stacks.MoveCrates | src/challenge/day_05.rs:110-124 | the stacks become the move of the old stacks |
| Day05.PushRow | src/challenge/day_05.rs:72-79 | reading one more drawing line pushes its crates onto their stacks |
| Day05.FirstEmpty | src/challenge/day_05.rs:14-17 | the first empty line, or none when no line is empty |
| Day05.Step | src/challenge/day_05.rs:21-23 | a line applies when it parses and its move is possible, and then gives that move |
| Day05.Run | src/challenge/day_05.rs:21-23 | running the instructions keeps the multiset of crates |
| Day05.Solve | src/challenge/day_05.rs:13-33 | the loop's answer is the tops after running all instructions, with the missing blank line and the panics as errors |
| Day06.FindFrom | src/challenge/day_06.rs:10-19 | the first marker position at or after `from`, or none when there is none |
| Day06.Solve | src/challenge/day_06.rs:9-23 | the answer ends a window of distinct bytes, no earlier window is a marker, and it is an error exactly when there is no marker |
| Day06.DistinctShrinks | src/challenge/day_06.rs:13-18 | a window of distinct bytes stays distinct when shrunk |
| Day06.MessageAfterPacket | src/challenge/day_06.rs:1-7 | a start-of-message marker implies a start-of-packet marker that ends no later |
| Day06.PartA | src/challenge/day_06.rs:1-3 | an empty input is an index error; otherwise the answer ends a 4-byte marker and it fails exactly when there is none |
| Day06.PartB | src/challenge/day_06.rs:5-7 | an empty input is an index error; otherwise the answer ends a 14-byte marker and it fails exactly when there is none |
| Day07.AddToPath | src/challenge/day_07.rs:32-34 | a file's size is added to exactly the directories on the working path |
| Day07.FileKeepsValid | src/challenge/day_07.rs:29-34 | adding a file keeps every directory at most as large as its parent |
| Day07.PushKeepsValid | src/challenge/day_07.rs:38-41 | entering a new directory keeps the walk consistent |
| Day07.PopKeepsValid | src/challenge/day_07.rs:36-37 | `cd ..` keeps the walk consistent |
| Day07.StepValid | src/challenge/day_07.rs:28-43 | every line keeps the walk consistent |
| Day07.WalksValid | src/challenge/day_07.rs:24-46 | the walk over all lines is consistent |
| Day07.BelowRoot | src/challenge/day_07.rs:24-46 | in a consistent walk with one root, no directory is larger than the root |
| Day07.RootIsLargest | src/challenge/day_07.rs:10-12 | when every other directory has a parent, the first directory is the largest, as `part_b` assumes |
| Day07.ComputeDirectorySizes | src/challenge/day_07.rs:24-46 | the loop computes exactly the sizes of the walk |
| Day07.AddSize | src/challenge/day_07.rs:32-34 | the inner loop adds the size to exactly the directories on the path |
| Day07.SmallTotal | src/challenge/day_07.rs:2-5 | the sum of the sizes at most 100000 is at most 100000 per directory, and 0 when every size is larger |
| Day07.PartA | src/challenge/day_07.rs:1-8 | the answer is the small total of the directory sizes |
| Day07.SmallestAtLeast | src/challenge/day_07.rs:14-18 | the smallest size at least the bound, and none exactly when every size is below it |
| Day07.PartB | src/challenge/day_07.rs:10-21 | `Ok` exactly when a directory exists and the root holds at least 40000000; the answer is the smallest size freeing enough space |
| Day16Bits.BitIsShift | src/challenge/day_16.rs:260 | the bit of valve v is `1 << v` |
| Day16Bits.MaskTest | src/challenge/day_16.rs:259-262 | `self.0 & mask == mask` holds exactly when valve v is in the set |
| Day16Bits.AndHas | src/challenge/day_16.rs:264-266 | a valve is in `x & y` exactly when it is in both |
| Day16Bits.DiffHas | src/challenge/day_16.rs:268-270 | a valve is in `x & !y` exactly when it is in x and not in y |
| Day16Bits.RemoveHas | src/challenge/day_16.rs:272-275 | a valve is in `x & !(1 << w)` exactly when it is in x and is not w |
| Day16Bits.LowHas | src/challenge/day_16.rs:174 | `(1 << n) - 1` holds exactly the valves below n |
| Day16Bits.ZeroHas | src/challenge/day_16.rs:264-266 | a set is 0 exactly when it holds no valve |
| Day16Bits.CommonHas | src/challenge/day_16.rs:264-266 | `x & y != 0` exactly when some valve is in both |
| Day16Bits.SameHas | src/challenge/day_16.rs:250-261 | two masks holding the same valves are the same `u16` |
| Day16.ValveSet.Overlaps | src/challenge/day_16.rs:264-266 | two sets overlap exactly when some valve is in both |
| Day16.ValveSet.Diff | src/challenge/day_16.rs:268-270 | the difference holds exactly the valves of the set that are not in the other |
| Day16.ValveSet.Remove | src/challenge/day_16.rs:272-275 | removing a valve keeps exactly the other valves |
| Day16.OverlapsSymmetric | src/challenge/day_16.rs:264-266 | overlapping does not depend on the order |
| Day16.LowValves | src/challenge/day_16.rs:174 | the initial closed set holds exactly the valves below n |
| Day16.RowStartIsProduct | src/challenge/day_16.rs:205 | row i of an n-column matrix starts at `i * n` |
| Day16.Idx | src/challenge/day_16.rs:205 | entry (i, j) of an n by n matrix lies inside it |
| Day16.RowOf | src/challenge/day_16.rs:205 | every index of the matrix lies in one row |
| Day16.IdxInjective | src/challenge/day_16.rs:205 | distinct entries have distinct indices |
| Day16.Dist | src/challenge/day_16.rs:202-215 | no distance exceeds `usize::MAX`, since sums saturate |
| Day16.DistKeepsPivot | src/challenge/day_16.rs:202-215 | the stage through valve k leaves k's own row and column unchanged, so updating in place reads the right entries |
| Day16.RelaxEntry | src/challenge/day_16.rs:205-212 | one relaxation advances the stage by one entry |
| Day16.Initialize | src/challenge/day_16.rs:190-200 | entry (a, b) is 1 for a tunnel, 0 on the diagonal and `usize::MAX` otherwise |
| Day16.ComputeDistances | src/challenge/day_16.rs:189-218 | the matrix has n * n entries and entry (i, j) is the distance after every stage |
| Day16.DistBelowInitial | src/challenge/day_16.rs:202-215 | a distance is never above its initial entry |
| Day16.DistOffDiagonal | src/challenge/day_16.rs:202-215 | distinct valves are at least 1 apart |
| Day16.DistTriangle | src/challenge/day_16.rs:202-215 | the triangle inequality holds through every valve already used as a pivot |
| Day16.DistanceProperties | src/challenge/day_16.rs:189-218 | the final distances are at most the direct ones, at least 1 off the diagonal, and obey the (saturating) triangle inequality through every valve |
| Day16.Graph.Distance | src/challenge/day_16.rs:183-186 | a distance of the compacted graph is at most `usize::MAX` |
| Day16.Ids | src/challenge/day_16.rs:128-132 | the ids' keys are exactly the names, each id is below the line count |
| Day16.ResolveLinks | src/challenge/day_16.rs:234-236 | tunnels resolve exactly when every name is known, each to its id |
| Day16.NewValve | src/challenge/day_16.rs:227-244 | a valve builds exactly when it has at most five tunnels, all known, and keeps its flow rate and its links |
| Day16.AllValves | src/challenge/day_16.rs:136-139 | the valves build exactly when every line does, one valve per line |
| Day16.AllValvesLinksInRange | src/challenge/day_16.rs:136-139 | every link names a valve of the input |
| Day16.KeptIds | src/challenge/day_16.rs:148-153 | exactly the ids of valves with flow or of the start, in increasing order |
| Day16.IndexOf | src/challenge/day_16.rs:155-158 | the first position of the start |
| Day16.Lookup | src/challenge/day_16.rs:155-161 | the swap keeps the length and puts the start last |
| Day16.LookupKeepsExactly | src/challenge/day_16.rs:144-161 | after the swap the ids are distinct, every one before the last has flow and is not the start, and every valve with flow is among them |
| Day16.NumberValves | src/challenge/day_16.rs:128-132 | the loop builds exactly the ids |
| Day16.KeepValves | src/challenge/day_16.rs:144-153 | the loop keeps exactly the valves with flow and the start, with their ids |
| Day16.Position | src/challenge/day_16.rs:155-158 | the loop finds the first position of the start |
| Day16.SwapLast | src/challenge/day_16.rs:160-161 | `swap(p, last)` keeps the length, puts slot p last and the last entry at p, and leaves every other slot alone |
| Day16.MoveStartLast | src/challenge/day_16.rs:155-161 | after the swap, valves and ids still match and the start is last |
| Day16.CopyRow | src/challenge/day_16.rs:166-168 | one row of the kept distances is appended, entry b being the distance to the b-th kept valve |
| Day16.CopyDistances | src/challenge/day_16.rs:163-169 | entry (a, b) is the full distance between the a-th and b-th kept valves |
| Day16.CompactedGraph | src/challenge/day_16.rs:163-181 | the copied matrix and the popped valves form the compacted graph |
| Day16.Compact | src/challenge/day_16.rs:140-181 | once every valve resolves, building succeeds exactly when at most 16 valves are kept (the start included), and yields the compacted graph |
| Day16.NewGraph | src/challenge/day_16.rs:127-181 | builds exactly when AA exists, every line resolves and at most 15 valves have flow; the graph is the compacted one, with every valve closed |
| Day16.CompactedUnique | src/challenge/day_16.rs:127-181 | the compacted graph is determined by the valves: two graphs that both compact them are equal |
| Day16.ConnectedIffBounded | src/challenge/day_16.rs:160-186 | the copied matrix has no `usize::MAX` entry exactly when no two copied valves are `usize::MAX` apart in the full matrix |
| Day16.ConnectedIffKept | src/challenge/day_16.rs:160-186 | the built graph has no `usize::MAX` distance exactly when no two kept valves (AA included) are unreachable from each other |
| Day16.Open | src/challenge/day_16.rs:75-90 | opening a valve moves there, takes time and never lowers the pressure |
| Day16.SuccessorsUpToFacts | src/challenge/day_16.rs:70-93 | the pushed states are exactly the valves that can be opened next, one each, in id order |
| Day16.Successors | src/challenge/day_16.rs:70-93 | every successor is a valve of the graph reached with less time left |
| Day16.SuccessorFacts | src/challenge/day_16.rs:70-93 | a successor stood at a closed valve reachable in time, spent `distance + 1` minutes, closes exactly one fewer valve and adds its flow for every minute left |
| Day16.StackAppend | src/challenge/day_16.rs:67-103 | states pushed on top are searched first, and the sizes add up |
| Day16.PushSuccessors | src/challenge/day_16.rs:70-93 | the `for` loop pushes exactly the successors |
| Day16.FindSolutions | src/challenge/day_16.rs:50-106 | the loop emits exactly the leaves of the search, in its order |
| Day16.OutcomesExtend | src/challenge/day_16.rs:95-102 | every state has at least one leaf below it, and each leaf opened only initially closed valves, including all opened before, with no less pressure |
| Day16.StackExtends | src/challenge/day_16.rs:67-103 | a stack yields at least one leaf per state, each extending a common ancestor |
| Day16.MaxPressure | src/challenge/day_16.rs:10-14 | `max` is a pressure of the list and at least every one |
| Day16.BestPressure | src/challenge/day_16.rs:8-14 | the result is a pressure some leaf of the search from AA reaches, and no leaf releases more |
| Day16.PartA | src/challenge/day_16.rs:6-17 | `Ok` exactly when the input builds and every kept valve reaches every other; the answer is then the best pressure among the leaves of the 30-minute search from AA |
| Day16.Insert | src/challenge/day_16.rs:23 | insertion keeps descending pressure and adds exactly the solution |
| Day16.SortByPressure | src/challenge/day_16.rs:23 | the sort is a permutation in descending pressure |
| Day16.FirstDisjoint | src/challenge/day_16.rs:26-29 | `position` over the rest: the first solution not overlapping the best one, every one before it overlapping |
| Day16.ScanPartners | src/challenge/day_16.rs:34-44 | corrected: the inner loop tries the player with every later solution before the first one disjoint from the best (the source's range `solutions[index + 1..lower_bound]` is one place short, see Findings) and keeps the best disjoint pair |
| Day16.BestPairFound | src/challenge/day_16.rs:31-45 | corrected: on a list in descending pressure, with the search started from the best solution and the first solution disjoint from it (the source starts from `solutions[lower_bound]`, which may overlap, see Findings), the pairs the loops skip cannot beat the start pair, so the result is the best disjoint pair |
| Day16.PairSearch | src/challenge/day_16.rs:25-45 | corrected: `Ok` exactly when some solution is disjoint from the first, and then the best pressure of two disjoint solutions |
| Day16.ScanPartnersAsWritten | src/challenge/day_16.rs:34-44 | the inner loop as written, over the index range the source uses |
| Day16.PairSearchAsWritten | src/challenge/day_16.rs:25-45 | as written: `Ok` exactly when the first disjoint position is at least 2, and then the start pair (which may overlap) or a better pair from the scanned range |
| Day16.AsWrittenCountsOverlappingPair | src/challenge/day_16.rs:26-31 | four sorted solutions on which the search as written returns 32, a pair sharing a valve, while the best disjoint pair is 20 |
| Day16.PartB | src/challenge/day_16.rs:19-48 | `Ok` exactly when the input builds, every kept valve reaches every other and some leaf of the 26-minute search is disjoint from the best one (else the `unwrap` fails); the answer is then the best disjoint pair among the sorted leaves |
| Day16.PartneredOnly | src/challenge/day_16.rs:19-29 | whether a leaf disjoint from the best one exists is a property of the input, not of the graph chosen to witness it |
| Day08.Idx | src/challenge/day_08.rs:37 | the row-major index `x + y * size` of a cell lies inside the grid |
| Day08.IdxInjective | src/challenge/day_08.rs:37 | distinct cells have distinct row-major indices |
| Day08.DigitRow | src/challenge/day_08.rs:12 | each byte is its character's digit value, below 10 |
| Day08.ParseGridLength | src/challenge/day_08.rs:11-13 | `n` lines of `n` digits give `n * n` bytes |
| Day08.ParseGridDigits | src/challenge/day_08.rs:11-13 | every parsed byte is below 10 |
| Day08.ParseGridAt | src/challenge/day_08.rs:11-13 | the byte at `x + y * n` is digit `x` of line `y` (row-major layout) |
| Day08.DownSeen | src/challenge/day_08.rs:33-38 | a downward pass over a column counts exactly the interior trees visible from the top |
| Day08.UpSeen | src/challenge/day_08.rs:40-44 | an upward pass counts exactly the interior trees visible from the bottom |
| Day08.RightwardSeen | src/challenge/day_08.rs:47-52 | a rightward pass over a row counts exactly the interior trees visible from the left |
| Day08.LeftwardSeen | src/challenge/day_08.rs:54-58 | a leftward pass counts exactly the interior trees visible from the right |
| Day08.AllPassesSeeVisible | src/challenge/day_08.rs:32-62 | the column passes and the row passes together count exactly the visible interior trees |
| Day08.ScansWellPlaced | src/challenge/day_08.rs:33-58 | every pass starts at an edge tree and then visits only interior trees |
| Day08.TallerIff | src/challenge/day_08.rs:65-67 | against the running maximum, a tree is counted exactly when it is taller than every tree before it in the pass |
| Day08.MaxAdvance | src/challenge/day_08.rs:67-68 | the running maximum stays the tallest tree seen so far in the pass, so it never decreases |
| Day08.ScanAdvance | src/challenge/day_08.rs:64-75 | one `check_tree` extends the pass's counted set and running maximum by one position |
| Day08.TreeByteFacts | src/challenge/day_08.rs:64-71 | the low nibble is the height, bit 7 is the visited mark, and marking sets only that bit |
| Day08.TreeCounter.constructor | src/challenge/day_08.rs:23-30 | the count starts at `4 * (size - 1)`, the perimeter trees; the trees are the parsed grid and none is marked |
| Day08.TreeCounter.CheckTree | src/challenge/day_08.rs:64-75 | a tree strictly taller than the running maximum raises it and is counted only the first time; otherwise nothing changes |
| Day08.TreeCounter.Scan | src/challenge/day_08.rs:33-58 | one pass adds exactly the trees taller than every earlier tree of the line |
| Day08.TreeCounter.ScanColumn | src/challenge/day_08.rs:33-45 | the two passes over column `x` count the interior trees of that column visible from the top or the bottom |
| Day08.TreeCounter.ScanRow | src/challenge/day_08.rs:47-59 | the two passes over row `y` count the interior trees of that row visible from the left or the right |
| Day08.TreeCounter.ScanColumns | src/challenge/day_08.rs:33-45 | the column passes count the interior trees visible from the top or the bottom |
| Day08.TreeCounter.ScanRows | src/challenge/day_08.rs:47-59 | the row passes add the interior trees visible from the left or the right |
| Day08.TreeCounter.Count | src/challenge/day_08.rs:32-62 | the result is the perimeter plus the number of visible interior trees |
| Day08.PartA | src/challenge/day_08.rs:3-5 | an empty grid panics, as `input.len() - 1` underflows; otherwise part A is the number of trees visible from outside the grid |
| Day08.ViewingDistance | src/challenge/day_08.rs:104-124 | the viewing distance reaches the first tree at least as tall (counting it), or the edge when there is none |
| Day08.Above | src/challenge/day_08.rs:104-108 | the trees above, nearest first |
| Day08.Below | src/challenge/day_08.rs:110-113 | the trees below, nearest first |
| Day08.LeftOf | src/challenge/day_08.rs:115-119 | the trees to the left, nearest first |
| Day08.RightOf | src/challenge/day_08.rs:121-124 | the trees to the right, nearest first |
| Day08.NextColumn | src/challenge/day_08.rs:96-97 | finishing a column is starting the next one |
| Day08.Visit | src/challenge/day_08.rs:126-130 | scoring one tree keeps `best_score` the best score of the trees visited so far |
| Day08.VisitTree | src/challenge/day_08.rs:98-130 | a tree below `min_height` is skipped; otherwise its score replaces a smaller best |
| Day08.SelectColumn | src/challenge/day_08.rs:97-131 | after column `x`, the best score covers every candidate in the columns so far |
| Day08.Select | src/challenge/day_08.rs:93-135 | the result is at least every candidate's scenic score and is one of them, or 0 when none scores |
| Day08.PartB | src/challenge/day_08.rs:7-9 | an empty grid panics, as `self.size - 1` underflows; otherwise part B is the best scenic score among interior trees at least 6 tall |
| Day09.Step | src/challenge/day_09.rs:35-41 | the head moves exactly one unit, in the named direction |
| Day09.Follow | src/challenge/day_09.rs:43-49 | a knot moves exactly when it no longer touches the knot before it; it moves at most one unit per axis, and it touches again if it was at most two away |
| Day09.StepKeepsTouching | src/challenge/day_09.rs:35-55 | after a step every knot touches the knot before it |
| Day09.RunTouching | src/challenge/day_09.rs:26-57 | knots keep touching throughout the simulation |
| Day09.TailMovesIff | src/challenge/day_09.rs:47-53 | a step records the last knot exactly when the last knot changes position |
| Day09.VisitedAreTails | src/challenge/day_09.rs:24-53 | the recorded positions are exactly the positions the last knot occupies at some point, the origin included |
| Day09.Initial | src/challenge/day_09.rs:23-24 | all knots start at the origin, touching, and the origin is recorded |
| Day09.Repeat | src/challenge/day_09.rs:35 | a line's count gives that many unit steps, none for a negative count |
| Day09.StepCount | src/challenge/day_09.rs:35 | the count is an `i16` |
| Day09.FollowKnot | src/challenge/day_09.rs:43-54 | knot `i` follows knot `i - 1`, and its new position is pushed only when it is the last knot and it moved |
| Day09.MoveRope | src/challenge/day_09.rs:36-55 | one unit step of the rope, in place, as the specification step |
| Day09.MoveSteps | src/challenge/day_09.rs:35-56 | a line's steps, in place, as the specification run |
| Day09.Simulate | src/challenge/day_09.rs:22-62 | the result is the number of distinct recorded positions, which for two knots or more is the number of distinct positions of the last knot |
| Day09.PartA | src/challenge/day_09.rs:1-3 | part A counts the distinct positions of the tail of a 2-knot rope |
| Day09.PartB | src/challenge/day_09.rs:5-7 | part B counts the distinct positions of the tail of a 10-knot rope |
| Day10.Execute | src/challenge/day_10.rs:28-39 | `noop` adds one cycle; `addx v` adds two cycles and `v` to the register; each instruction takes one or two cycles |
| Day10.RunFrom | src/challenge/day_10.rs:9-11 | after `k` instructions the cycle counter has advanced by at least `k` |
| Day10.RunStep | src/challenge/day_10.rs:9-11 | running `k + 1` instructions is running `k` and then instruction `k` |
| Day10.DuringAt | src/challenge/day_10.rs:10-17 | the register during a cycle is the value before the instruction executing in that cycle, which is what the loop samples |
| Day10.DuringAfterEnd | src/challenge/day_10.rs:9-23 | a cycle after the program ends has no register value |
| Day10.UnreachedAddNothing | src/challenge/day_10.rs:9-25 | sampled cycles the program never reaches contribute nothing |
| Day10.ReadStops | src/challenge/day_10.rs:13-22 | when the loop stops before the end of the input, the lines it read took the cycle counter to 220, the last sampled cycle |
| Day10.DuringRead | src/challenge/day_10.rs:9-22 | for a cycle up to 220 the register during it is the same over the lines read as over the whole input, so the lines after the break do not matter |
| Day10.SignalsRead | src/challenge/day_10.rs:9-25 | on an input whose every line is well formed, the signals over the lines read are the signals over the whole input |
| Day10.PartA | src/challenge/day_10.rs:3-26 | only the lines the loop reads (up to the one reaching cycle 220) must be well formed; each sampled cycle contributes once, the cycle times the register during it, in order, and the loop stops after the sixth |
| Day11.ParseOperation | src/challenge/day_11.rs:102-114 | `o` at byte 2 ("old") gives the square; otherwise the number from byte 2 on is added after `+` and multiplied after `*` |
| Day11.ParseFormatOperation | src/challenge/day_11.rs:102-114 | parsing the written form of any operation with a `u64` operand gives the operation back |
| Day11.Apply | src/challenge/day_11.rs:117-121 | the operation's result wraps around at 2^64 |
| Day11.CalculateWorryLevel | src/challenge/day_11.rs:116-128 | with relief the level is the operation's result divided by 3, rounded down; without relief it is the remainder of that result by `modulo`, and a zero `modulo` panics |
| Day11.ModuloKeepsTest | src/challenge/day_11.rs:126 | reducing modulo a multiple of a divisor keeps the remainder by that divisor |
| Day11.DivisorDividesProduct | src/challenge/day_11.rs:22 | every divisor divides `modulo`, the product of all divisors |
| Day11.ProductPositive | src/challenge/day_11.rs:22 | positive divisors give a positive `modulo`, so the reduction never divides by zero |
| Day11.ProductZero | src/challenge/day_11.rs:22 | `modulo` is zero exactly when some divisor is |
| Day11.CheckedProduct | src/challenge/day_11.rs:22 | the `u64` fold panics on overflow, and otherwise gives the product of all divisors, at most `u64::MAX` |
| Day11.CheckedProductOk | src/challenge/day_11.rs:22 | the fold succeeds exactly when no partial product exceeds `u64::MAX` |
| Day11.CheckedProductPrefix | src/challenge/day_11.rs:22 | a partial product that overflows makes the whole fold panic |
| Day11.ReductionKeepsTests | src/challenge/day_11.rs:126 | without relief, every monkey's divisibility test gives the same answer on the reduced level as on the unreduced one |
| Day11.Inspect | src/challenge/day_11.rs:73-82 | a zero `modulo` without relief, or a zero divisor, panics; otherwise the thrown level is the new worry level, and it goes to `if_true` when the divisor divides it and to `if_false` when not |
| Day11.ThrowOne | src/challenge/day_11.rs:26-27 | a throw to a monkey that does not exist panics; otherwise it shortens the thrower's queue by one and keeps one queue and one count per monkey |
| Day11.Turn | src/challenge/day_11.rs:26-28 | after a turn that does not panic the monkey holds no items |
| Day11.TurnsSticky | src/challenge/day_11.rs:25-29 | a panic in one turn is the panic of the whole round |
| Day11.RoundsSticky | src/challenge/day_11.rs:24-30 | a panic in one round is the panic of the whole game |
| Day11.TurnSafe | src/challenge/day_11.rs:26-28 | with positive divisors, a positive `modulo` when it is used and targets that exist, no turn panics |
| Day11.TurnsSafe | src/challenge/day_11.rs:25-29 | in such a game no round panics |
| Day11.RoundsSafe | src/challenge/day_11.rs:24-30 | in such a game any number of rounds is played to the end |
| Day11.TurnsZeroModulo | src/challenge/day_11.rs:116-128 | without relief and with a zero `modulo`, the first turns panic exactly when one of those monkeys holds an item |
| Day11.RoundsZeroModulo | src/challenge/day_11.rs:24-30 | without relief and with a zero `modulo`, playing one round or more panics exactly when some monkey starts with an item, and otherwise changes nothing |
| Day11.ThrowConserves | src/challenge/day_11.rs:89-91 | a throw that does not panic keeps the total number of items, and only the thrower's count goes up, by one |
| Day11.TurnConserves | src/challenge/day_11.rs:26-28 | a turn that does not panic keeps the total number of items, and the monkey whose turn it is inspects every item it held; no other count changes |
| Day11.TurnsConserve | src/challenge/day_11.rs:25-29 | the turns of a round that does not panic keep the total number of items |
| Day11.RoundsConserve | src/challenge/day_11.rs:24-30 | any number of rounds that does not panic keeps the total number of items |
| Day11.TopTwo | src/challenge/day_11.rs:32-38 | the last two of the sorted counts: two counts at different positions, the larger first, with every other count at most the smaller |
| Day11.MonkeyBusiness | src/challenge/day_11.rs:37-38 | fewer than two counts panic, as `length - 1` or `length - 2` underflows |
| Day11.Monkey.constructor | src/challenge/day_11.rs:58-71 | a new monkey holds the items of its notes, follows their rule, and has inspected nothing |
| Day11.Monkey.ThrowNextItem | src/challenge/day_11.rs:73-87 | nothing is thrown exactly when the queue is empty; otherwise the front item is popped and the throw panics or is made as `Inspect` says, the count going up by one |
| Day11.Monkey.CatchItem | src/challenge/day_11.rs:89-91 | the item joins the back of the queue and the count stays |
| Day11.ThrowFrom | src/challenge/day_11.rs:73-87 | a throw pops monkey `i`'s front item, panics as `Inspect` says, and changes no other monkey |
| Day11.CatchBy | src/challenge/day_11.rs:89-91 | a catch appends to the target's queue and changes no other monkey |
| Day11.ThrowAndCatch | src/challenge/day_11.rs:26-28 | one iteration of the `while let` loop is one throw of the specification, its panic included, or nothing when the queue is empty |
| Day11.PlayTurn | src/challenge/day_11.rs:26-28 | the `while let` loop plays exactly the monkey's turn, or panics exactly as the turn does |
| Day11.PlayRound | src/challenge/day_11.rs:25-29 | one pass over the monkeys plays the turns of all of them, in order, or panics as they do |
| Day11.PlayNextTurn | src/challenge/day_11.rs:26-28 | monkey `i`'s turn after the first `i` turns gives the first `i + 1` turns |
| Day11.PlayRounds | src/challenge/day_11.rs:24-30 | the outer loop plays the given number of rounds, or panics as they do |
| Day11.Build | src/challenge/day_11.rs:15-20 | the monkeys are distinct, new, and hold the queues and rules of their notes |
| Day11.Modulo | src/challenge/day_11.rs:22 | the loop computes the checked `u64` fold of all divisors, overflow included |
| Day11.NotesSafe | src/challenge/day_11.rs:22-28 | notes with positive divisors whose targets exist give a game in which nothing panics |
| Day11.Solve | src/challenge/day_11.rs:13-39 | an overflowing `modulo` or a panic in a round is the result; otherwise the result is the product of the two largest inspection counts after the given number of rounds, or the underflow of fewer than two monkeys |
| Day11.PartA | src/challenge/day_11.rs:5-7 | part A plays 20 rounds with relief, with the panics of `solve` |
| Day11.PartB | src/challenge/day_11.rs:9-11 | part B plays 10000 rounds without relief, reducing modulo the product of the divisors, with the panics of `solve` |
| Day12.FillNeighbors | src/challenge/day_12.rs:109-147 | the buffer lists the candidate steps in the order right, down, up, left, each present exactly when it lies inside the map and is at most one higher |
| Day12.StepsFromExact | src/challenge/day_12.rs:109-147 | the neighbour list has at most four positions, every one a legal step, and every legal step (an orthogonal neighbour inside the map at most one higher) is in it |
| Day12.WalkExtend | src/challenge/day_12.rs:26-29 | a walk from the start extended by a legal step is still a walk |
| Day12.LowerTotal | src/challenge/day_12.rs:22-26 | lowering one score lowers the sum of all scores, so the search cannot improve for ever |
| Day12.Improve | src/challenge/day_12.rs:21-31 | a neighbour takes the new score exactly when it is strictly better, is queued unless it is the end, and no other score changes |
| Day12.LowerKeepsSearch | src/challenge/day_12.rs:22-30 | an improvement keeps every reached score backed by a walk of that length, keeps the worklist to reached cells, and lowers the total |
| Day12.Relax | src/challenge/day_12.rs:18-31 | after the neighbours of a popped cell are processed, every legal step from it leads to a score at most one higher; either nothing changed or the total went down |
| Day12.Popped | src/challenge/day_12.rs:17-18 | the popped cell is reached and inside the map, and the rest of the worklist keeps the search state |
| Day12.PrefixBound | src/challenge/day_12.rs:17-32 | once the search ends, every cell on a walk before the end scores at most its step count |
| Day12.EndBound | src/challenge/day_12.rs:34-37 | once the search ends, no walk reaches the end in fewer steps than its score |
| Day12.Settled | src/challenge/day_12.rs:17-37 | with the worklist empty, a reached end's score is the length of a walk to it and a lower bound on every walk to it |
| Day12.FindPath | src/challenge/day_12.rs:8-38 | the result is the fewest steps from the start to the end; nothing exactly when no walk of fewer than 65535 steps reaches the end |
| Day12.Find | src/challenge/day_12.rs:89-94 | the first offset holding the byte, or nothing when the line has none |
| Day12.MarkerLast | src/challenge/day_12.rs:81-96 | the start (end) is the first `S` (`E`) of the last line holding one, and (0, 0) when no line holds one |
| Day12.RowsStep | src/challenge/day_12.rs:85-98 | reading one more line appends its row of heights |
| Day12.MapOf | src/challenge/day_12.rs:77-107 | the map is rectangular, holds its start and end, and has no height of 255 |
| Day12.NewMap | src/challenge/day_12.rs:77-107 | the loop builds exactly the map the input describes: every row its line's bytes with the first `S` read as `a` and the first `E` as `z` |
| Day12.PartA | src/challenge/day_12.rs:4-6 | the answer is the fewest steps from `S` to `E`, and an error exactly when `E` cannot be reached in fewer than 65535 steps |
| Day13.CompareNumbers | src/challenge/day_13.rs:47-53 | `Some(true)` exactly when less, nothing exactly when equal, `Some(false)` exactly when greater |
| Day13.FirstDecidedAt | src/challenge/day_13.rs:41-43 | the zipped search is undecided exactly when no pair within the shorter list decides; otherwise it gives the verdict of the first pair that decides |
| Day13.NumberAsList | src/challenge/day_13.rs:31-33 | a number meeting a list compares as the one-element list holding it, on either side |
| Day13.CompareItemsSwap | src/challenge/day_13.rs:27-53 | swapping the packets flips the verdict: `Some(true)` one way is `Some(false)` the other, and undecided stays undecided |
| Day13.FirstDecidedSwap | src/challenge/day_13.rs:41-43 | swapping the lists flips the verdict of the zipped search |
| Day13.CompareListsSwap | src/challenge/day_13.rs:38-45 | swapping the lists flips the list verdict, lengths included |
| Day13.CompareItemsSame | src/challenge/day_13.rs:27-53 | a packet compared with itself is undecided |
| Day13.ParseItem | src/challenge/day_13.rs:55-81 | parsing fails with `Unexpected end of input` exactly on empty input, and a parsed packet consumes at least one byte |
| Day13.ParseItems | src/challenge/day_13.rs:61-69 | the item loop stops at `]` or at the end of the input |
| Day13.Bytes.Next | src/challenge/day_13.rs:56-76 | the next byte is returned and consumed; at the end nothing is returned |
| Day13.Parse | src/challenge/day_13.rs:55-81 | reading from the iterator gives the packet `ParseItem` describes and leaves exactly the bytes after it; empty input is an error |
| Day13.ParseDigits | src/challenge/day_13.rs:73-77 | the digit loop reads a run of digits to its value, stopping at the first non-digit |
| Day13.ParseFormatNumber | src/challenge/day_13.rs:72-79 | a printed number (at most 207, so no `u8` step overflows) reads back as itself |
| Day13.ParseFormat | src/challenge/day_13.rs:55-81 | printing a packet and parsing it back gives the packet and leaves what followed it |
| Day13.ParseFormatList | src/challenge/day_13.rs:58-71 | the item loop reads back every item of a printed list, skipping the commas, and stops at the closing bracket |
| Day13.Compare | src/challenge/day_13.rs:21-25 | an error exactly when a line fails to parse; otherwise `true` exactly when the left packet is decidedly less, an undecided pair counting as false |
| Day13.OrderedIndices | src/challenge/day_13.rs:6-11 | the index sum is at most `1 + 2 + ... + n` |
| Day13.OrderedIndicesExtremes | src/challenge/day_13.rs:6-11 | no pair in order sums to 0, and all pairs in order sum to `1 + 2 + ... + n` |
| Day13.PartA | src/challenge/day_13.rs:5-14 | the answer is the sum of the 1-based indices of the three-line chunks whose first two lines are in order, a parse error counting as not in order |
| Day14.BuildRange | src/challenge/day_14.rs:159-165 | the range runs from the smaller end to the larger, both ends included |
| Day14.ParseFormatCoordinate | src/challenge/day_14.rs:38-47 | a coordinate written as `x,y` parses back to itself |
| Common.ParseEachOk | src/challenge/day_14.rs:63-67 | a line's coordinates, and the input's lines, parse exactly when each of them does, each to its own value |
| Common.ParseEachSticky | src/challenge/day_14.rs:64-67 | the first error stops the parse: once a prefix fails, the whole input fails with that error |
| Day14.ParseLine | src/challenge/day_14.rs:61-64 | a line without a first coordinate is the error `Unexpected end of input`; a parsed path has at least one point |
| Day14.DrawSegmentCells | src/challenge/day_14.rs:69-85 | drawing a segment sets exactly its points and keeps every other cell; a segment whose ends differ in x is drawn along the row of its start |
| Day14.DrawPathCells | src/challenge/day_14.rs:66-88 | after drawing a path a cell is rock exactly when it was before or lies on one of the path's segments |
| Day14.Mark | src/challenge/day_14.rs:69-85 | the marking loops set the cells of the drawn segment |
| Day14.DrawLine | src/challenge/day_14.rs:61-88 | one line fails exactly when its path fails to parse, with the same error; otherwise its path is drawn and `bottom` becomes the larger of itself and the path's lowest horizontal row |
| Day14.Cave.New | src/challenge/day_14.rs:56-93 | the cave is built exactly when every line parses, else the first error; the grid is every path drawn in turn, and `bottom` is one more than the lowest horizontal row |
| Day14.BuildMarksSegments | src/challenge/day_14.rs:56-92 | a cell of the built cave is rock exactly when it lies on a segment of some path |
| Day14.HorizontalMaxIs | src/challenge/day_14.rs:69-74 | a path's recorded row is at least the row of each horizontal segment and is 0 or the row of one of them |
| Day14.LowestIs | src/challenge/day_14.rs:69-74 | the same for all paths together |
| Day14.BuildBottom | src/challenge/day_14.rs:69-91 | `bottom` lies below every horizontal segment and is 1 or one below some horizontal segment; vertical segments do not lower it, as written |
| Day14.FallRests | src/challenge/day_14.rs:135-147 | a grain that falls straight down, else down-left, else down-right, rests only on an empty cell above `bottom` with all three cells below it full |
| Day14.Drop | src/challenge/day_14.rs:128-156 | no grain comes to rest when the source is full; a grain that rests does so on an empty cell with the three cells below it full |
| Day14.Cave.DropSand | src/challenge/day_14.rs:128-156 | true exactly when the grain rests; then exactly that previously empty cell is set, otherwise nothing changes |
| Day14.UnfilledFill | src/challenge/day_14.rs:154 | setting an empty cell leaves one empty cell fewer |
| Day14.Pour | src/challenge/day_14.rs:124-126 | the number of grains that rest before the first that does not equals the number of cells they filled; the grid only grows, and the next grain would not rest |
| Day14.Cave.SimulateWithoutFloor | src/challenge/day_14.rs:124-126 | drops grains until one does not rest and returns how many rested, with the grid `Pour` gives |
| Day14.PopEmpty | src/challenge/day_14.rs:101-118 | popping an empty cell, setting it and pushing the three cells below it (none on row `bottom`) keeps the floor run's invariant |
| Day14.ChainExtend | src/challenge/day_14.rs:109-118 | a fall that ends on a cell empty at the start above `bottom` extends to each of the three cells pushed below it |
| Day14.QueuePathsPush | src/challenge/day_14.rs:113-118 | after pushing the three cells below a reached cell, every queued cell is still the end of a recorded fall from the source |
| Day14.AddedPathsFill | src/challenge/day_14.rs:106-107 | filling the end of a fall through empty cells keeps every added cell the end of a recorded fall |
| Day14.ReachAdded | src/challenge/day_14.rs:100-118 | once the stack is empty, every cell on a fall from the source through cells empty at the start has been filled |
| Day14.FloorExact | src/challenge/day_14.rs:100-121 | once the stack is empty, the cells the run added are exactly the cells some fall from the source reaches through cells empty at the start |
| Day14.FloorPopEmpty | src/challenge/day_14.rs:101-118 | popping an empty cell, filling it and pushing the cells below it keeps the count, the heap shape and a recorded fall for every queued and every added cell |
| Day14.Cave.Expand | src/challenge/day_14.rs:101-118 | one turn of the loop keeps the run's invariant and either fills a cell or shortens the stack |
| Day14.Cave.SimulateWithFloor | src/challenge/day_14.rs:95-122 | the count is the number of cells that went from empty to full, and the cells filled are exactly those that sand falling from the source reaches through cells empty at the start, resting on the floor below row `bottom` |
| Day14.PartA | src/challenge/day_14.rs:14-16 | an error exactly when the cave fails to build; otherwise the number of grains that rest before one falls out |
| Day14.PartB | src/challenge/day_14.rs:18-20 | an error exactly when the cave fails to build; otherwise the number of cells that sand falling from the source reaches through empty cells, resting on the floor |
| Day15.Region.RangeAtY | src/challenge/day_15.rs:107-121 | no range exactly when the row is further from the sensor than the beacon is; otherwise a range centred on the sensor's x |
| Day15.ContainsBeacon | src/challenge/day_15.rs:98-105 | a region contains its own beacon and its own sensor |
| Day15.RangeAtYExact | src/challenge/day_15.rs:102-121 | the row range holds exactly the positions of that row the region contains; without a range the region contains none of them |
| Day15.ParseRegion | src/challenge/day_15.rs:127-150 | a line with no `,` after its first 12 characters is the error `Could not find sensor x coordinate in: <line>`; parsed coordinates fit an `isize` |
| Day15.ParseRegionNoSensorY | src/challenge/day_15.rs:131-133 | a line with a sensor x field but no `:` after the ` y=` that follows it is the error `Could not find sensor y coordinate in: <line>` |
| Day15.ParseRegionNoBeaconX | src/challenge/day_15.rs:134-136 | a line with both sensor fields but no `,` after the fixed text that follows them is the error `Could not find beacon x coordinate in: <line>` |
| Day15.ParseRegionFields | src/challenge/day_15.rs:127-149 | a line with all three separators parses exactly when its four fields are `isize` numbers, and then to the region of those numbers; otherwise it is the integer parse error |
| Day15.ParseFormatRegion | src/challenge/day_15.rs:127-150 | a report line written from a region with `isize` coordinates can be cut at the fixed offsets and parses back to that region |
| Day15.ParseRegions | src/challenge/day_15.rs:81-83 | on success one region per line, each within the bound the model requires |
| Day15.IntervalIs | src/challenge/day_15.rs:33-35 | a closed range holds exactly the integers between its ends, `end - start + 1` of them, or none |
| Day15.CoveredMembers | src/challenge/day_15.rs:29-39 | a position is covered exactly when one of the ranges holds it |
| Day15.CoveredPermutation | src/challenge/day_15.rs:23 | reordering the ranges does not change what they cover |
| Day15.RowRangesCovered | src/challenge/day_15.rs:10-16 | the ranges collected for a row cover a position exactly when some region contains it |
| Day15.RowBeaconsAre | src/challenge/day_15.rs:18-20 | corrected: the beacon list of a row holds exactly the x coordinates of the beacons in that row (the source pushes `beacon_y`, see Findings) |
| Day15.BeaconsCovered | src/challenge/day_15.rs:18-41 | corrected: every beacon x in the corrected list lies in a covered position, so subtracting them cannot underflow |
| Day15.NoBeaconMeaning | src/challenge/day_15.rs:4-42 | corrected: with the corrected beacon list, a position of the row is counted exactly when some sensor rules it out and no reported beacon sits on it |
| Day15.InsertByStart | src/challenge/day_15.rs:23 | inserting a range into ranges sorted by start keeps them sorted and adds exactly that range |
| Day15.SortByStart | src/challenge/day_15.rs:23 | the result is sorted by start and a permutation of the input |
| Day15.SweepStep | src/challenge/day_15.rs:29-39 | one step of the sweep adds exactly the number of newly covered positions, and `last_end` stays the largest covered position |
| Day15.CountCovered | src/challenge/day_15.rs:27-39 | over ranges sorted by start, the sweep counts every covered position exactly once |
| Day15.PartA | src/challenge/day_15.rs:4-42 | a parse error is returned as it is; otherwise the number of positions of row 2000000 that some sensor rules out and no beacon occupies |
| Day15.BeaconsAsWrittenAreRow | src/challenge/day_15.rs:18-19 | every value the original collects in its beacon list is the row number, so at most one beacon is ever subtracted |
| Day15.BeaconYExample | src/challenge/day_15.rs:18-41 | with two beacons in the row the original reports 5 where 4 positions cannot hold a beacon |
| Day15.LinesOf | src/challenge/day_15.rs:52-58 | entries `2k` and `2k+1` of both diagonal lists are region `k`'s two diagonals just outside its diamond |
| Day15.Diagonals | src/challenge/day_15.rs:49-59 | the loop over the regions lists exactly their rising and falling diagonals |
| Day15.BorderOnLines | src/challenge/day_15.rs:53-58 | a position just outside a region's diamond lies on one of its four diagonals |
| Day15.CrossingIs | src/challenge/day_15.rs:66-67 | the crossing computed from the rising diagonal through a position and the falling one through it is that position |
| Day15.CrossingVisited | src/challenge/day_15.rs:63-67 | a position on a rising diagonal of one region and a falling diagonal of another is a crossing the search visits |
| Day15.FindCrossing | src/challenge/day_15.rs:63-76 | the first crossing in loop order inside the square and contained by no region, or none when no crossing is |
| Day15.PartB | src/challenge/day_15.rs:44-79 | a parse error is returned as it is; otherwise `x * 4000000 + y` for the first hidden crossing, or `Could not find beacon` exactly when no crossing is hidden |
| Day17.Shift | src/challenge/day_17.rs:112-129 | the shape moves only when no row touches the wall it moves toward, otherwise it is unchanged; a shape within seven cells stays within them and keeps its occupied rows first |
| Day17.ShiftBack | src/challenge/day_17.rs:112-129 | a shift that applies is undone by a shift the other way, so no cell is lost |
| Day17.Chamber.NextShape | src/challenge/day_17.rs:79-85 | `Shapes::next` returns the shape at the counter and moves the counter on cyclically over the five shapes |
| Day17.Chamber.NextShift | src/challenge/day_17.rs:89-99 | `Shifts::next` maps `<` to Left and `>` to Right and moves the counter on cyclically over the jets |
| Day17.FollowingIsNext | src/challenge/day_17.rs:82 | the cyclic successor used by the model is the source's `(index + 1) % len` |
| Day17.Overlap | src/challenge/day_17.rs:187 | the collision test inspects at most four rows, and only rows that exist |
| Day17.OverlapAt | src/challenge/day_17.rs:186-193 | a cell shared with one of the inspected rows is a collision |
| Day17.OverlapWitness | src/challenge/day_17.rs:186-193 | a collision always has a shared cell in an inspected row |
| Day17.CollidesExact | src/challenge/day_17.rs:186-193 | inspecting only `min(4, len - height)` rows loses nothing: a shape collides exactly when one of its cells meets rock |
| Day17.FloorCollides | src/challenge/day_17.rs:140-147 | with the four full floor rows, a shape whose bottom row is in the floor collides |
| Day17.StartClear | src/challenge/day_17.rs:155 | a shape starting three rows above the top is clear of every rock |
| Day17.Fall | src/challenge/day_17.rs:155-171 | the resting shape stays inside the seven columns and compact, its bottom row lies inside the chamber above the floor, and the next jet is a valid index |
| Day17.FallRests | src/challenge/day_17.rs:155-171 | the shape comes to rest where it does not collide but one row lower it would |
| Day17.FallStep | src/challenge/day_17.rs:157-169 | each turn pushes the shape if the push is clear, then either lands or falls one row |
| Day17.Chamber.Push | src/challenge/day_17.rs:157-169 | one turn of the loop consumes one jet and matches one step of `Fall` |
| Day17.Chamber.Descend | src/challenge/day_17.rs:154-171 | the loop ends with the shape and height `Fall` gives, having consumed exactly its jets |
| Day17.SettleLength | src/challenge/day_17.rs:173-181 | settling pushes rows only on top, so the chamber grows by at most the shape's height |
| Day17.SettleRows | src/challenge/day_17.rs:173-181 | settling ORs each shape row into the chamber row it lands on and leaves other rows unchanged |
| Day17.SettleStacked | src/challenge/day_17.rs:173-181 | settling keeps the floor full and every row non-empty and within seven cells |
| Day17.Chamber.AddRows | src/challenge/day_17.rs:173-181 | the row loop settles the shape's four rows |
| Day17.Landing | src/challenge/day_17.rs:153-171 | the next shape comes to rest inside the chamber |
| Day17.DropOnce | src/challenge/day_17.rs:153-184 | a drop adds one to `shape_count`, moves to the next shape, and grows the chamber by at most four rows, never shrinking it |
| Day17.DropAddsShape | src/challenge/day_17.rs:173-181 | after a drop each row is the old row plus the resting shape's cells there, and those cells were free |
| Day17.Chamber.constructor | src/challenge/day_17.rs:140-147 | four full floor rows, both counters at 0 and no shape dropped |
| Day17.Chamber.Drop | src/challenge/day_17.rs:153-184 | `drop` performs exactly one `DropOnce` on the chamber's state |
| Day17.Chamber.DropMany | src/challenge/day_17.rs:19-21 | dropping `n` rocks in turn leaves the chamber in the state `n` drops give, and keeps it valid |
| Day17.PartA | src/challenge/day_17.rs:16-24 | part A is the tower's height, `rocks.len() - 4`, after 2022 drops |
| Day18.IndexRoundTrip | src/challenge/day_18.rs:34-36 | every coordinate of the 20×20×20 grid has an index below 8000, and the index gives the coordinate back |
| Day18.FromIndexRoundTrip | src/challenge/day_18.rs:34-36 | every index below 8000 is the index of exactly one coordinate of the grid |
| Day18.IndexInjective | src/challenge/day_18.rs:34-36 | distinct coordinates of the grid have distinct indices |
| Day18.AllOnce | src/challenge/day_18.rs:38-42 | `all` yields 8000 coordinates; the one at position i lies in the grid and has index i, and each coordinate of the grid sits at its own index, so each occurs exactly once |
| Day18.AllOrder | src/challenge/day_18.rs:38-42 | after `(x, y, z)` comes `(x + 1, y, z)`, then `(0, y + 1, z)` at the end of a row, then `(0, 0, z + 1)`: x varies fastest |
| Day18.Component | src/challenge/day_18.rs:52-63 | a missing piece is the error "Unexpected end of input"; a component read is the `usize` parse of the next piece |
| Day18.ParseCoordinate | src/challenge/day_18.rs:45-66 | a parsed coordinate has three components within `usize` |
| Day18.ParseFormatCoordinate | src/challenge/day_18.rs:45-66 | parsing `x,y,z` gives back the coordinate, also when further pieces follow, which are ignored |
| Day18.MissingComponent | src/challenge/day_18.rs:45-66 | a line with only two numbers is the error "Unexpected end of input" |
| Day18.OccupancyAt | src/challenge/day_18.rs:19-24 | after setting a list of coordinates, a cell is set exactly when some coordinate of the list has its index |
| Day18.OccupancyInRange | src/challenge/day_18.rs:19-24 | when every coordinate lies in the grid, a coordinate's cell is set exactly when the coordinate is in the list |
| Day18.Grid.constructor | src/challenge/day_18.rs:71-73 | a new grid has 8000 cells, all clear |
| Day18.Grid.Set | src/challenge/day_18.rs:79-81 | the cell at the coordinate's index becomes set and no other cell changes |
| Day18.SetOnly | src/challenge/day_18.rs:75-81 | after `set(c)`, `get(c)` holds and `get` of every other coordinate of the grid is unchanged |
| Day18.BuildGrid | src/challenge/day_18.rs:19-24 | the first line that does not parse is the error; otherwise the grid is the occupancy of the parsed coordinates, set in order |
| Day18.CountNeighbors | src/challenge/day_18.rs:83-147 | the count is at most 6 |
| Day18.NeighborSound | src/challenge/day_18.rs:83-147 | each cell `count_neighbors` checks is a face neighbour inside the grid |
| Day18.NeighborComplete | src/challenge/day_18.rs:83-147 | every face neighbour inside the grid is checked in one of the six directions |
| Day18.NeighborDistinct | src/challenge/day_18.rs:83-147 | no two directions check the same cell |
| Day18.FacesExact | src/challenge/day_18.rs:83-147 | the checked cells are exactly the face neighbours inside the grid |
| Day18.CountNeighborsFaces | src/challenge/day_18.rs:83-147 | `count_neighbors` is the number of face neighbours inside the grid whose cell is set |
| Day18.CountNeighborsFrame | src/challenge/day_18.rs:83-147 | the count depends only on the cells of the face neighbours |
| Day18.NoNeighbors | src/challenge/day_18.rs:83-147 | a cube with no set face neighbour counts 0 |
| Day18.EmptySurface | src/challenge/day_18.rs:8-17 | an empty grid has surface 0 |
| Day18.AddIsolated | src/challenge/day_18.rs:8-17 | setting a clear cell whose face neighbours are all clear adds exactly 6 to the surface |
| Day18.PartA | src/challenge/day_18.rs:8-17 | part A is the parse error, or the sum over set cells, in the order of `all`, of 6 minus their set face neighbours, for the grid built from the lines |
| Day19.Field | src/challenge/day_19.rs:35-41 | a field is found only when the skipped characters exist and the separator follows; the text after the offset is the field, the separator and the rest, and the field holds no separator |
| Day19.Pieces | src/challenge/day_19.rs:35-41 | splitting from field k on yields 7 − k fields |
| Day19.MaxOreCost | src/challenge/day_19.rs:54-58 | `max_ore_cost` is at least each of the four ore costs and equal to one of them |
| Day19.ParseBlueprint | src/challenge/day_19.rs:34-58 | a parsed blueprint has `u8` costs and its `max_ore_cost` is the largest ore cost |
| Day19.OffsetsMatch | src/challenge/day_19.rs:35-41 | each offset the source skips is the length of the sentence's words before that number |
| Day19.PiecesFormat | src/challenge/day_19.rs:35-41 | splitting the written sentence yields the written numbers |
| Day19.ParseFormatBlueprint | src/challenge/day_19.rs:34-58 | reading the puzzle's sentence for a blueprint gives the blueprint back |
| Day19.TruncatedPanics | src/challenge/day_19.rs:34-41 | a line that ends after the id panics |
| Day19.CollectKeepsAffordable | src/challenge/day_19.rs:78-156 | a build decided affordable before collecting is still affordable after it, so paying afterwards never underflows |
| Day19.BuildEffects | src/challenge/day_19.rs:132-156 | each build adds exactly one robot of its kind, removes exactly its costs from the materials held and leaves the minute alone |
| Day19.CollectEffects | src/challenge/day_19.rs:83-87 | a step adds one minute and each production to its count; the robots do not change |
| Day19.Simulate | src/challenge/day_19.rs:73-130 | at minute 24 the result is the geode count; it is never below the geodes already held |
| Day19.SimulateBest | src/challenge/day_19.rs:89-129 | the result is at least the idle option and every taken build, and equals one of them |
| Day19.IdleLowerBound | src/challenge/day_19.rs:73-130 | the result is at least the geodes held plus the geode robots' output over the remaining minutes |
| Day19.CeilingMonotone | src/challenge/day_19.rs:73-130 | the geodes of building a geode robot every minute grow with the starting robots |
| Day19.CeilingCount | src/challenge/day_19.rs:73-130 | and grow with the starting geodes |
| Day19.SimulateCeiling | src/challenge/day_19.rs:73-130 | no sequence of builds opens more geodes than adding a geode robot every remaining minute |
| Day19.StepCapped | src/challenge/day_19.rs:158-176 | every move keeps at least one ore robot and at most `max(1, max_ore_cost)`, and the clay and obsidian robots within the obsidian robot's clay cost and the geode robot's obsidian cost |
| Day19.InitialCapped | src/challenge/day_19.rs:60-61 | the starting state, one ore robot at minute 0, keeps those caps |
| Day19.CeilingClosed | src/challenge/day_19.rs:73-130 | the geode ceiling in closed form: the count, plus the production for every remaining minute, plus 0 + 1 + ... + (minutes − 1) |
| Day19.CeilingFromStart | src/challenge/day_19.rs:60-61 | from the starting state, with no geode robot, the ceiling over 24 minutes is 276 geodes |
| Day19.ScoreBound | src/challenge/day_19.rs:60-70 | id × the most geodes from the starting state is at most id × 276 |
| Day19.BlueprintScore | src/challenge/day_19.rs:60-70 | a parsed blueprint's score is at most its id times 276 |
| Day19.Score | src/challenge/day_19.rs:34-71 | the score of a line that parses is at most its id times 276 |
| Day19.PartA | src/challenge/day_19.rs:1-6 | part A, the sum of the scores over the lines, is 0 without lines and at least each line's score |
| Day20.NewNodes | src/challenge/day_20.rs:16-38 | node `i` of the built list holds the `i`-th number of the file |
| Day20.NewWalk | src/challenge/day_20.rs:16-38 | on the built list, `k` steps forward from node `j` reach node `j + k` while that is an index |
| Day20.NewPeriodic | src/challenge/day_20.rs:16-38 | the built list is one ring: `n` steps forward from any node come back to it |
| Day20.WalkInverse | src/challenge/day_20.rs:75-77 | on consistent links, `k` steps back undo `k` steps forward and the other way round |
| Day20.ForwardAdd | src/challenge/day_20.rs:77 | a walk of `a + b` steps is a walk of `a` steps followed by one of `b` |
| Day20.NormalizeRange | src/challenge/day_20.rs:81-89 | the normalized count is the count modulo `length` when that is at most half of it and otherwise negative above `-n`; for `length = n - 1` a negative count lands the number where the count modulo `length` forward would, and for `length = n` it is that remainder less `n` |
| Day20.FindNext | src/challenge/day_20.rs:71-79 | the node found is always a node of the vector |
| Day20.UnlinkLeaves | src/challenge/day_20.rs:44-50 | after unlinking a node that is not alone, every other node has consistent links and none names it |
| Day20.WalkAvoids | src/challenge/day_20.rs:71-79 | in the ring without the moving node, no walk of one step or more from it comes back to it |
| Day20.DestinationOther | src/challenge/day_20.rs:44-52 | the destination of a move is never the moving node itself |
| Day20.InsertLinks | src/challenge/day_20.rs:53-59 | linking the node in after any other node restores consistent links, with the node between the destination and its old successor |
| Day20.MoveLinks | src/challenge/day_20.rs:44-60 | one move keeps every node's links consistent |
| Day20.MovePlaces | src/challenge/day_20.rs:44-60 | a moved node that is not alone ends right after the destination it found |
| Day20.MoveValues | src/challenge/day_20.rs:44-60 | a move rewrites links only: every number stays at its index |
| Day20.LoneMove | src/challenge/day_20.rs:44-60 | a node alone in its ring is left exactly where it was |
| Day20.MixedLinked | src/challenge/day_20.rs:44-60 | moving every node once, in vector order, keeps the links consistent |
| Day20.MixedValues | src/challenge/day_20.rs:44-60 | and keeps every number at its index |
| Day20.FirstZero | src/challenge/day_20.rs:62 | the index of the first node holding 0, or none exactly when no node holds 0 |
| Day20.LookupAsWrittenFullTurn | src/challenge/day_20.rs:67-76 | for an offset that is a multiple of the length, the lookup as written gives the node before the 0 and the corrected one the 0 itself |
| Day20.LookupForward | src/challenge/day_20.rs:65-68 | on a consistent single ring, the corrected lookup reaches the node the offset modulo `n` places forward |
| Day20.FullTurnExample | src/challenge/day_20.rs:62-68 | for the file `0`, `5` the source reports 15 where the numbers after the 0 sum to 0 |
| Day20.CircularList.constructor | src/challenge/day_20.rs:16-38 | the vector holds the nodes `CircularList::new` builds |
| Day20.CircularList.FindNextNode | src/challenge/day_20.rs:71-79 | the folds over the links reach the node `find_next_node` names |
| Day20.CircularList.Detach | src/challenge/day_20.rs:45-50 | the two writes join the neighbours of the node |
| Day20.CircularList.Attach | src/challenge/day_20.rs:53-59 | the four writes link the node in after the destination |
| Day20.CircularList.Move | src/challenge/day_20.rs:44-60 | one turn of the loop performs one move |
| Day20.CircularList.Mix | src/challenge/day_20.rs:44-60 | the loop moves every node once, in vector order |
| Day20.CircularList.PositionOfZero | src/challenge/day_20.rs:62 | the search finds the first node holding 0 |
| Day20.CircularList.SumAfter | src/challenge/day_20.rs:65-68 | the sum of the numbers 1000, 2000 and 3000 places after the 0, with the corrected lookup |
| Day20.CircularList.Decrypt | src/challenge/day_20.rs:40-69 | a single number divides by zero, no 0 is the `unwrap` error, otherwise the mixed list's sum |
| Day20.PartA | src/challenge/day_20.rs:3-5 | the decryption of the list built from the parsed numbers |
| Day21.ParseMonkeys | src/challenge/day_21.rs:29-34 | parsing succeeds exactly when every line has at least 6 bytes; a shorter line panics |
| Day21.ParseMonkeysNames | src/challenge/day_21.rs:29-34 | the parsed monkeys are exactly the 4-byte names at the start of the lines |
| Day21.ParseMonkeysJob | src/challenge/day_21.rs:29-34 | a monkey's job is the text from byte 6 of the last line naming it, so a later line wins |
| Day21.Evaluate | src/challenge/day_21.rs:36-62 | in human mode "humn" is unknown; outside human mode nothing is unknown; every number found fits a `u64` |
| Day21.EvaluateLiteral | src/challenge/day_21.rs:43-45 | a job that is a printed number yields that number |
| Day21.EvaluateOperation | src/challenge/day_21.rs:47-61 | a job `a op b` yields the operation, with `u64` overflow, underflow and division by zero as panics, applied to the operands' numbers |
| Day21.UnknownPropagates | src/challenge/day_21.rs:37-51 | an unknown operand makes the monkey unknown, so the unknown reaches every monkey that waits on "humn" |
| Day21.HumanModeAgrees | src/challenge/day_21.rs:36-62 | a number found in human mode is the number found without it |
| Day21.HumanIndependent | src/challenge/day_21.rs:36-62 | a number found in human mode is the same whatever number "humn" yells |
| Day21.PathIrrelevant | src/challenge/day_21.rs:36-62 | on jobs without cycles the recursion never meets a monkey twice, so the result does not depend on where it started |
| Day21.SolveLeftInverts | src/challenge/day_21.rs:84-92 | `solve_left`'s answer `x` gives `x op v == r`: always for `+` and `-`, for `*` exactly when `v` divides `r`, for `/` exactly when `v` is not zero |
| Day21.SolveRightInverts | src/challenge/day_21.rs:94-102 | `solve_right`'s answer `x` gives `v op x == r`: always for `+` and `-`, for `*` exactly when `v` divides `r`, for `/` when `r` divides a non-zero `v` |
| Day21.Solve | src/challenge/day_21.rs:64-82 | at "humn" the answer is the target itself; every answer fits a `u64` |
| Day21.SolveSound | src/challenge/day_21.rs:64-82 | for a monkey that needs "humn", on jobs without cycles and with exact inversions, "humn" yelling the answer makes the monkey yell the target |
| Day21.SolveNeedsHuman | src/challenge/day_21.rs:64-82 | on a monkey that does not need "humn" the solver never reaches "humn" and panics |
| Day21.PartA | src/challenge/day_21.rs:6-8 | the answer is the number "root" yells, evaluated without human mode |
| Day21.RootSides | src/challenge/day_21.rs:13-15 | root's operands are the first and third words of its job; a missing root fails the lookup and a job of fewer than three words fails an `unwrap` |
| Day21.RootSidesOfJob | src/challenge/day_21.rs:13-15 | a job written `a op b` gives back the operands `a` and `b` |
| Day21.SolveRoot | src/challenge/day_21.rs:13-24 | a failure to read root's operands is the result; when neither operand is known the `unreachable!` panics; an answer fits a `u64` |
| Day21.PartB | src/challenge/day_21.rs:10-27 | part B is the solution for root on the parsed monkeys, or the panic of a short line; an answer fits a `u64` |
| Day21.SolveRootSound | src/challenge/day_21.rs:10-27 | when part B answers, exactly one side of root needs "humn", and with "humn" yelling the answer both sides yell the same number |
| Day22.TurnModulo | src/challenge/day_22.rs:72-74 | a turn by `count` quarter turns adds `count` to the facing value, modulo 4 |
| Day22.TurnsInverse | src/challenge/day_22.rs:63-75 | turning left undoes turning right and the other way round, four right turns are no turn, and the reverse direction is two right turns |
| Day22.MoveOne | src/challenge/day_22.rs:88-95 | one step changes one coordinate by exactly one |
| Day22.MoveOneBack | src/challenge/day_22.rs:88-95 | a step in the reverse direction undoes a step |
| Day22.Width | src/challenge/day_22.rs:114 | the width is the length of the longest line: no line is longer and some line is that long |
| Day22.MapTiles | src/challenge/day_22.rs:112-135 | the board holds a wall for '#', open ground for '.', and air for any other byte and past the end of a shorter line |
| Day22.NewMap | src/challenge/day_22.rs:112-135 | filling rows of air with the tiles the lines name builds exactly the board `MapTiles` describes |
| Day22.FirstGround | src/challenge/day_22.rs:138-141 | the index found is open ground and no earlier tile is; none means no tile of the row is open ground |
| Day22.Start | src/challenge/day_22.rs:137-144 | the start is the leftmost open tile of the top row, 1-based; none (a panic) when the top row has no open tile |
| Day22.FirstSolid | src/challenge/day_22.rs:180-183 | the index found is not air and every tile before it is air; none means the whole line is air |
| Day22.LastSolid | src/challenge/day_22.rs:196-200 | the index found is not air and every tile after it is air; none means the whole line is air |
| Day22.Column | src/challenge/day_22.rs:188-189 | the column has one tile per row, row `y`'s tile at `x` |
| Day22.FlatTarget | src/challenge/day_22.rs:177-212 | the flat wrap lands on a tile that is not air, in the same row when moving sideways and the same column when moving up or down |
| Day22.FlatTargetNearest | src/challenge/day_22.rs:177-212 | every tile between the opposite edge and the flat wrap's target is air, so the target is the first solid tile from that edge |
| Day22.OppositeFlat | src/challenge/day_22.rs:214-218 | the flat wrap succeeds, keeping the direction, exactly when its target is open ground, and is blocked exactly when it is a wall |
| Day22.CubeWrapInverse | src/challenge/day_22.rs:228-255 | leaving a face of the cube net lands inside the net, and leaving from there the reverse way of the new direction leads straight back |
| Day22.OppositeCube | src/challenge/day_22.rs:257-261 | the cube wrap succeeds exactly when the tile the face table names is open ground, with the table's direction |
| Day22.Step | src/challenge/day_22.rs:32-46 | a step that is not blocked always lands on open ground |
| Day22.StepAhead | src/challenge/day_22.rs:34-45 | a wall ahead blocks the step, and open ground ahead is stepped onto without turning |
| Day22.Walk | src/challenge/day_22.rs:31-47 | a move always ends on open ground |
| Day22.WalkStops | src/challenge/day_22.rs:37-44 | a blocked step ends the whole move where the walker stands |
| Day22.WalkOn | src/challenge/day_22.rs:31-47 | after an unblocked step the move continues from where it landed with one step fewer |
| Day22.WalkSteps | src/challenge/day_22.rs:31-47 | the loop of at most `move_amount` steps, broken by the first blocked one, ends where `Walk` says |
| Day22.ReadNumber | src/challenge/day_22.rs:292-294 | reading stops at the first byte that is not a digit and never returns more text than it was given |
| Day22.FirstCommand | src/challenge/day_22.rs:283-297 | every command read consumes at least one byte |
| Day22.ReadNumberDigits | src/challenge/day_22.rs:292-294 | reading a run of digits into a number appends them to its decimal digits |
| Day22.FirstCommandDigits | src/challenge/day_22.rs:286-296 | a maximal run of digits reads as one move by the number it spells, leaving the text after the run |
| Day22.CommandsOfPathText | src/challenge/day_22.rs:280-298 | the commands read from the text of a path with no two moves in a row are that path's commands |
| Day22.CommandReader.constructor | src/challenge/day_22.rs:275-277 | the reader starts with the whole path unread |
| Day22.CommandReader.Next | src/challenge/day_22.rs:283-297 | at the end of the path nothing is read; otherwise the command and the rest are those `FirstCommand` reads, and a byte below '0' panics |
| Day22.Perform | src/challenge/day_22.rs:19-47 | carrying out a command keeps the walker on open ground |
| Day22.Follow | src/challenge/day_22.rs:18-48 | following a path that reads without panicking ends on open ground |
| Day22.Run | src/challenge/day_22.rs:18-48 | carrying out a list of commands ends on open ground |
| Day22.FollowRuns | src/challenge/day_22.rs:18-48 | following a path that reads without panicking is carrying out its list of commands in order |
| Day22.PasswordDecodes | src/challenge/day_22.rs:50 | on boards under 250 columns the password gives back the row, the column and the facing |
| Day22.Solve | src/challenge/day_22.rs:13-51 | the loop over commands, turning or walking, gives the password of where `Follow` ends, with the panics for fewer than two lines, no board lines and no open start tile |
| Day22.PartA | src/challenge/day_22.rs:5-7 | part A is the answer walking the flat board |
| Day22.PartB | src/challenge/day_22.rs:9-11 | part B is the answer walking the folded cube |
| Day23.WrapModulo | src/challenge/day_23.rs:50-55 | the wrapped coordinate is the sum taken modulo 256, as `wrapping_add_signed` gives |
| Day23.AddModulo | src/challenge/day_23.rs:47-56 | adding an `(i8, i8)` step moves each coordinate by its part of the step, modulo 256 |
| Day23.AddInverse | src/challenge/day_23.rs:47-56 | with wrapping, adding the opposite step leads back to the starting position |
| Day23.AllFreeMeaning | src/challenge/day_23.rs:110-112 | the check gives true exactly when every cell is inside the grid and holds no elf, and gives false only at a cell holding an elf |
| Day23.FirstFreeTripleMeaning | src/challenge/day_23.rs:117-123 | the triple found has all three cells free, every earlier triple has a cell holding an elf, and finding none means every triple has one |
| Day23.Proposal | src/challenge/day_23.rs:108-124 | a proposed cell is inside the grid and holds no elf |
| Day23.ProposalAlone | src/challenge/day_23.rs:110-115 | an elf whose eight neighbours are all free proposes nothing |
| Day23.ProposalTriple | src/challenge/day_23.rs:108-124 | a proposing elf has an elf among its neighbours, and proposes the middle cell of the first triple whose cells are all free, every earlier triple being blocked |
| Day23.ProposeStepClaimed | src/challenge/day_23.rs:126-129 | a proposal changes only the proposing elf, and every cell holding a counter is the next position of an elf proposed so far |
| Day23.ProposalsClaimed | src/challenge/day_23.rs:107-130 | after the first loop every counter on the grid is the next position of some elf |
| Day23.MoveStepClaimed | src/challenge/day_23.rs:133-142 | a move resolves its own target cell to free or taken, writes nothing else but a freed cell, and changes no elf's next position |
| Day23.MovesClaimed | src/challenge/day_23.rs:132-143 | after the second loop has handled elves `0 .. k`, every counter left is the target of an elf from `k` on |
| Day23.RoundSettled | src/challenge/day_23.rs:106-144 | a round that starts with every cell free or taken ends with every cell free or taken: no counter survives `simulate` |
| Day23.ProposeStepAdjacent | src/challenge/day_23.rs:117-129 | a proposal moves nobody and leaves each elf's next position on its own cell or on one of its eight neighbours |
| Day23.ProposalsAdjacent | src/challenge/day_23.rs:107-130 | the first loop moves nobody and keeps every next position adjacent |
| Day23.MovesOntoNext | src/challenge/day_23.rs:132-143 | the second loop changes no next position, and every elf ends on its old cell or on its next position |
| Day23.RoundStepsOne | src/challenge/day_23.rs:106-144 | in a round each elf ends where it stood or on one of its eight neighbours, and next positions stay adjacent |
| Day23.RotatedIndex | src/challenge/day_23.rs:29 | after `n` rotations of the four triples, triple `i` is the original triple `(i + n) % 4` |
| Day23.RoundDirections | src/challenge/day_23.rs:16-30 | round `n` tries first the direction `MOVES[n % 4]`, and the order of the directions repeats every four rounds |
| Day23.RotatedNext | src/challenge/day_23.rs:29 | one more `rotate_left(1)` is one more rotation of the triples |
| Day23.Round | src/challenge/day_23.rs:106-144 | a round that does not panic keeps the number of elves and the grid's size |
| Day23.Simulation | src/challenge/day_23.rs:27-30 | the rounds of `part_a` that do not panic keep the number of elves and the grid's size |
| Day23.SimulationSticky | src/challenge/day_23.rs:27-30 | a panic in one round ends the ten rounds with that panic |
| Day23.SimulationInvariant | src/challenge/day_23.rs:27-30 | between rounds every cell is free or taken and every next position is adjacent, so each round moves each elf at most one cell |
| Day23.BoundsMeaning | src/challenge/day_23.rs:147-157 | the scanned minimum and maximum of a coordinate are a lower and an upper bound attained by some elf, or `u8::MAX` and 0 without elves |
| Day23.BoundsStep | src/challenge/day_23.rs:152-157 | one more elf updates each bound with that elf's coordinate, as `min` and `max` do |
| Day23.Side | src/challenge/day_23.rs:159 | a side of the bounding box that does not overflow is between 1 and 255 |
| Day23.ScoreEmpty | src/challenge/day_23.rs:146-160 | without elves the score panics, subtracting `u8::MAX` from 0 |
| Day23.ScoreBox | src/challenge/day_23.rs:146-160 | a score that does not panic has elves, and is the area of the box from the least to the greatest coordinate of the elves, minus their number |
| Day23.Place | src/challenge/day_23.rs:79-95 | placing an elf adds one elf and keeps the grid's size |
| Day23.PlaceRowInvariant | src/challenge/day_23.rs:78-96 | one row places one elf per `#`, keeps the grid free or taken, and every new elf's next position is its own cell |
| Day23.PlaceRowsInvariant | src/challenge/day_23.rs:77-97 | the rows from `y` on place one elf per `#`, keeping the grid free or taken and the new elves unmoved |
| Day23.PlaceRowLength | src/challenge/day_23.rs:78-96 | placing a row keeps the grid's size |
| Day23.PlaceRowsLength | src/challenge/day_23.rs:77-97 | placing the rows keeps the grid's size |
| Day23.BuildInvariant | src/challenge/day_23.rs:70-104 | a built map has non-empty input, one elf per `#`, a padded grid of `(len + 20) * (rows + 20)` cells all free or taken, and every next position on its own cell |
| Day23.AfterTenRounds | src/challenge/day_23.rs:23-33 | after the ten rounds there is still one elf per `#` of the input and no counter on the grid |
| Day23.ProposalsSticky | src/challenge/day_23.rs:107-130 | a panic for one elf in the first loop ends the round with that panic |
| Day23.MovesSticky | src/challenge/day_23.rs:132-143 | a panic for one elf in the second loop ends the round with that panic |
| Day23.Map.constructor | src/challenge/day_23.rs:99-103 | the map holds the width, the elves and the grid it is given |
| Day23.Map.Simulate | src/challenge/day_23.rs:106-144 | the map after `simulate` is the round of the map before it, or the round's panic |
| Day23.Map.ProposePass | src/challenge/day_23.rs:107-130 | the map after the first loop is the first pass over all elves, or its panic |
| Day23.Map.ProposeOne | src/challenge/day_23.rs:108-129 | one turn of the first loop is one more proposal of the pass |
| Day23.Map.MovePass | src/challenge/day_23.rs:132-143 | the map after the second loop is the second pass over all elves, or its panic |
| Day23.Map.Score | src/challenge/day_23.rs:146-160 | the score is the bounding box's free cells, with the overflow panics of its `u8` and `usize` arithmetic |
| Day23.NewMap | src/challenge/day_23.rs:70-104 | the map built is the padded grid with an elf for each `#`, or the panic of the empty input or of a cell past the grid |
| Day23.PartA | src/challenge/day_23.rs:23-33 | part A is the score after ten rounds whose direction order rotates after each |
| Day24.NewTileMeaning | src/challenge/day_24.rs:161-170 | a tile read from an arrow holds exactly the blizzard the arrow draws, a `.` holds none, nothing is due in either, and only these five bytes are tiles |
| Day24.WillBeEmptyMeaning | src/challenge/day_24.rs:172-174 | a tile will be empty exactly when none of the four blizzards is due in it |
| Day24.EnqueueMeaning | src/challenge/day_24.rs:180-182 | queuing a blizzard makes it due and changes neither the blizzards present nor whether any other blizzard is due |
| Day24.UpdateMeaning | src/challenge/day_24.rs:184-186 | after an update the blizzards present are exactly those that were due, and none is due |
| Day24.ContainsCurrent | src/challenge/day_24.rs:176-178 | whether a tile contains a blizzard depends only on the blizzards present, not on those due |
| Day24.AddCoordinate | src/challenge/day_24.rs:251-253 | the wrapped coordinate is below `max` |
| Day24.AddCoordinateMeaning | src/challenge/day_24.rs:251-253 | without wrap-around of the `usize` sum, the coordinate is `value + delta` taken modulo `max`, so a step off one edge re-enters at the opposite edge |
| Day24.IndexInside | src/challenge/day_24.rs:213-215 | a cell inside the valley has a row-major index inside the tiles |
| Day24.IndexInjective | src/challenge/day_24.rs:213-215 | distinct cells of the valley have distinct indices |
| Day24.Target | src/challenge/day_24.rs:227-229 | the cell a blizzard moves to is inside the valley |
| Day24.PredictOne | src/challenge/day_24.rs:222-230 | handling one blizzard of a tile keeps the number of tiles |
| Day24.PredictOneMeaning | src/challenge/day_24.rs:222-230 | handling one blizzard changes no blizzard present, and makes that blizzard due at its target exactly when the tile contains it |
| Day24.SimulatedMeaning | src/challenge/day_24.rs:235-241 | after `simulate` each cell holds exactly the blizzards that were due there, and nothing is due |
| Day24.UpdatedBefore | src/challenge/day_24.rs:235-241 | updating the first tiles keeps the number of tiles |
| Day24.PredictingStart | src/challenge/day_24.rs:217-218 | before the first blizzard the invariant of `predict` holds of the unchanged tiles |
| Day24.KeepsCurrentStep | src/challenge/day_24.rs:222-230 | one blizzard handled changes no blizzard present and unqueues nothing |
| Day24.SendsStep | src/challenge/day_24.rs:222-230 | after a blizzard is handled it is due at its target, as is every blizzard handled before it |
| Day24.SourcedStep | src/challenge/day_24.rs:222-230 | after a blizzard is handled, every blizzard newly due in a cell was sent there by a blizzard handled so far |
| Day24.PredictingStep | src/challenge/day_24.rs:222-230 | handling one blizzard of the tile read before the loop keeps the invariant of `predict`, one blizzard further |
| Day24.NextCell | src/challenge/day_24.rs:219-231 | after the four blizzards of a cell the invariant holds at the first blizzard of the next cell |
| Day24.NextRow | src/challenge/day_24.rs:218-232 | after the last cell of a row the invariant holds at the first cell of the next row |
| Day24.CellCurrent | src/challenge/day_24.rs:220 | a tile read during `predict` holds the blizzards it held before `predict` began |
| Day24.Predicted | src/challenge/day_24.rs:217-233 | prediction keeps the number of tiles |
| Day24.TileBits | src/challenge/day_24.rs:157-186 | a tile built from present blizzards and four due flags holds those blizzards, and each blizzard is due exactly when its flag is set |
| Day24.TileEquality | src/challenge/day_24.rs:157-186 | two tiles with the same blizzards present and the same blizzards due are the same byte |
| Day24.PredictedMeaning | src/challenge/day_24.rs:217-233 | after prediction a cell holds the blizzards it held, and a blizzard is due there exactly when it was due already or some cell's blizzard of that kind moves there |
| Day24.PredictedTileMeaning | src/challenge/day_24.rs:217-233 | the predicted tile of a cell has its present blizzards and each of the four due bits as `predict` sets them |
| Day24.PredictingDone | src/challenge/day_24.rs:217-233 | when every cell has been handled the tiles are exactly the predicted ones |
| Day24.PredictedSends | src/challenge/day_24.rs:222-230 | every blizzard present is, after prediction, due in the cell its step leads to |
| Day24.PushedMeaning | src/challenge/day_24.rs:73-97 | `find_moves` pushes between one and five positions, the position itself first, and exactly the position itself, its left and upper neighbours off the edge, and its right and lower neighbours within the bounds cut to a `u8` |
| Day24.ReverseElements | src/challenge/day_24.rs:119-130 | popping the moves last pushed first yields the same positions |
| Day24.FindMovesMeaning | src/challenge/day_24.rs:73-130 | the moves exist exactly when neither coordinate is 255 (else `x + 1` or `y + 1` overflows), number one to five, end with the position itself, and are exactly the allowed steps |
| Day24.MovesStayInValley | src/challenge/day_24.rs:73-97 | from a position inside the valley's bounds cut to a `u8`, every move stays inside them |
| Day24.Timeline | src/challenge/day_24.rs:10-15 | the tiles at every minute keep their number |
| Day24.FreeMeaning | src/challenge/day_24.rs:12-15 | a cell is free at minute `m` exactly when no blizzard is present in it in the tiles of minute `m` |
| Day24.FreeAlongExtend | src/challenge/day_24.rs:34-41 | a cell free at the minute after a route's last one extends the run of free cells |
| Day24.LinkedExtend | src/challenge/day_24.rs:34-41 | one of the moves from a route's last cell extends the chain of moves |
| Day24.RouteExtend | src/challenge/day_24.rs:34-41 | a move to a cell free at the next minute extends a valid route by one cell |
| Day24.Valley.constructor | src/challenge/day_24.rs:205-209 | the valley holds the width, height and tiles it is given |
| Day24.Valley.Get | src/challenge/day_24.rs:213-215 | the tile read at a position is the position's cell of the row-major tiles |
| Day24.Valley.Exit | src/challenge/day_24.rs:243-248 | the exit exists exactly when neither dimension cut to a `u8` is 0, and is then the last column and row of those cut dimensions |
| Day24.Valley.Predict | src/challenge/day_24.rs:217-233 | the tiles after `predict` are the predicted tiles of those before it |
| Day24.Valley.PredictTile | src/challenge/day_24.rs:220-230 | handling one cell keeps the invariant of `predict`, one cell further |
| Day24.Valley.Simulate | src/challenge/day_24.rs:235-241 | the tiles after `simulate` are the simulated tiles of those before it |
| Day24.CountFalse | src/challenge/day_24.rs:19 | the unmarked cells are no more than the cells |
| Day24.CountFalseMark | src/challenge/day_24.rs:38-41 | marking an unmarked cell leaves one fewer unmarked, so the search ends |
| Day24.InValleyIndex | src/challenge/day_24.rs:35-36 | a position inside the valley's bounds has an index inside the tiles and the marks |
| Day24.FreeNext | src/challenge/day_24.rs:35 | a cell whose tile has nothing due at minute `m` is free at minute `m + 1` |
| Day24.Push | src/challenge/day_24.rs:38-41 | queuing and marking an unmarked position keeps the states of the next minute marked and at distinct positions |
| Day24.FrontierPush | src/challenge/day_24.rs:39 | queuing a state of the next minute reached along a route keeps every state of the queue reached along its route, the current minute first |
| Day24.PushStep | src/challenge/day_24.rs:34-41 | queuing a free unmarked move keeps the queue a frontier of reached states and the marks exact, and uses up one unmarked cell |
| Day24.Clear | src/challenge/day_24.rs:31 | after `fill(false)` no cell is marked |
| Day24.Advance | src/challenge/day_24.rs:27-32 | moving on a minute gives the tiles of the next minute and clears the marks |
| Day24.Tick | src/challenge/day_24.rs:13-14 | `simulate` then `predict` turns the tiles of one minute into those of the next |
| Day24.Explore | src/challenge/day_24.rs:34-43 | the moves of a state queue the free unmarked cells for the next minute, keeping the queue a frontier and the marks exact without adding to the measure the search decreases, or panic when the minute overflows a `u16` |
| Day24.FrontierPop | src/challenge/day_24.rs:22 | the state popped was reached along its route, is of the current minute while such states remain and of the next otherwise, and the rest of the queue is still a frontier |
| Day24.MarkedPop | src/challenge/day_24.rs:22 | popping a state of the current minute keeps the marks of the next minute |
| Day24.FindPath | src/challenge/day_24.rs:7-47 | a valley whose exit underflows panics; every answer is the entry minute plus the length of a valid route from the first cell to the exit, each cell free at its minute and each step one of the moves, entered at the first minute the first cell is free; the other panics are `u16` overflow and the unreachable empty queue |
| Day24.WaitForStart | src/challenge/day_24.rs:9-16 | the waiting ends at the first minute after which the first cell is free: it fits a `u16`, the tiles are those of that minute, the first cell is free at the next and at no minute before; or it panics on overflow |
| Day24.Search | src/challenge/day_24.rs:18-46 | every answer of the breadth-first search is the entry minute, the minute after the one it starts from, plus the length of a valid route from the first cell to the exit; it otherwise panics on overflow or an empty queue |
| Day24.ParseTiles | src/challenge/day_24.rs:200-202 | a row's bytes are read exactly when every byte is a tile, into one tile per byte in order, and otherwise reach `unreachable!` |
| Day24.ParseRows | src/challenge/day_24.rs:198-203 | the rows are read exactly when each is at least `width + 1` bytes long with tile bytes at `1..=width`, into `width` tiles per row; otherwise a slice or `unreachable!` panics |
| Day24.ParseRowsCells | src/challenge/day_24.rs:198-203 | tile `(x, y)` of the rows read is byte `x + 1` of row `y` |
| Day24.RowStep | src/challenge/day_24.rs:214 | the index one row down is `width` further on |
| Day24.ParseLayout | src/challenge/day_24.rs:196-211 | an empty input is indexed out of bounds, a first line or an input shorter than 2 underflows, and otherwise the valley is read exactly when every inner line fits, with the width and height without the walls and `width * height` tiles |
| Day24.ParseLayoutCells | src/challenge/day_24.rs:196-211 | tile `(x, y)` of the valley read is byte `x + 1` of line `y + 1` |
| Day24.NewValley | src/challenge/day_24.rs:196-211 | the valley built holds the width, height and tiles read, in fresh storage, or the panic of reading |
| Day24.PartA | src/challenge/day_24.rs:3-5 | a panic of reading is the answer's panic; every answer is the first minute the first cell is free plus the length of a valid route through the valley as read, entered then and ending at its last cell |
| Day25.ParseSnafu | src/challenge/day_25.rs:46-55 | a byte has a value exactly when it is one of `=-012`, the value lies in -2 .. 2, and any other byte is unreachable |
| Day25.FormatSnafu | src/challenge/day_25.rs:57-66 | a value has a digit exactly when it lies in -2 .. 2, the digit is one of `=-012`, and any other value is unreachable |
| Day25.SnafuInverse | src/challenge/day_25.rs:46-66 | formatting a parsed digit gives the byte back, and parsing a formatted value in -2 .. 2 gives the value back |
| Day25.DecimalFront | src/challenge/day_25.rs:46-55 | the value of a SNAFU number read digit by digit equals its positional value: the first digit counts its value times 5 to the number of digits after it |
| Day25.LowValueTail | src/challenge/day_25.rs:8-11 | the low columns of a number, read from its reversed bytes, do not depend on its first byte |
| Day25.LowValuePast | src/challenge/day_25.rs:17-20 | once a number's reversed iterator is exhausted its low columns stop changing |
| Day25.LowValueAll | src/challenge/day_25.rs:8-11 | all the columns of a number, each weighted by its power of 5, add up to the number's value |
| Day25.LowValidStep | src/challenge/day_25.rs:16-24 | a column whose digits are all SNAFU extends the columns known to be SNAFU by one |
| Day25.AllColumns | src/challenge/day_25.rs:16-24 | a number whose every column parses is a SNAFU number |
| Day25.ColumnDigits | src/challenge/day_25.rs:16-24 | the digits of one column of `n` numbers add up to between `-2n` and `2n` |
| Day25.ColumnDigitsPast | src/challenge/day_25.rs:16-20 | a column past the end of every number adds nothing, as when every iterator yields `None` |
| Day25.LowSumZero | src/challenge/day_25.rs:4 | before any column the numbers have contributed 0 |
| Day25.LowSumStep | src/challenge/day_25.rs:16-24 | one more column adds that column's digits times 5 to the column's index to what the numbers have contributed |
| Day25.LowSumAll | src/challenge/day_25.rs:16-24 | once every number is used up, the columns read add up to the total of the numbers |
| Day25.Balance | src/challenge/day_25.rs:30-40 | the column's sum splits into a digit in -2 .. 2 and a carry with `carry * 5 + digit` equal to the sum; the carry of 0 is 0 and otherwise the carry is smaller in magnitude than the sum |
| Day25.NextColumn | src/challenge/day_25.rs:14-24 | one pass over the iterators succeeds exactly when every number's digit in the column parses, adds the column's digits to `acc`, reports `exhausted` exactly when no number has a digit there, and leaves each iterator one byte shorter |
| Day25.Turn | src/challenge/day_25.rs:26-41 | a turn that does not stop writes a digit that keeps the result SNAFU and keeps the loop's invariant one column up, and either moves one column nearer the end of the longest number or, past it, shrinks the carry, so the loop ends |
| Day25.Finished | src/challenge/day_25.rs:26-28 | when nothing is carried and every number is used up, every number was SNAFU, the digits written are worth the total, and no number is longer than them |
| Day25.AllSnafu | src/challenge/day_25.rs:26-28 | when every number is used up and every column read parsed, every number is SNAFU |
| Day25.NotAllSnafu | src/challenge/day_25.rs:23 | a column digit that does not parse belongs to a number that is not SNAFU |
| Day25.PushFront | src/challenge/day_25.rs:39 | pushing a formatted digit to the front keeps the result a SNAFU number, and the digit pushed is worth the value formatted |
| Day25.CarryStep | src/challenge/day_25.rs:30-40 | after a digit is pushed and the carry moved up a column, the digits written plus the carry still account for the numbers' columns read |
| Day25.MaxLength | src/challenge/day_25.rs:8-11 | no number is longer than the length found, and some number has that length unless it is 0 |
| Day25.PartA | src/challenge/day_25.rs:3-44 | the sum is written exactly when every number is SNAFU (otherwise the panic of `parse_snafu`); the sum is a SNAFU number worth the total of the numbers and at least as long as each of them |

## Left out

- Day01.TotalCalories: totals are unbounded naturals; the source's `usize` sums would overflow (and panic) only on totals beyond 2^64 - 1, which is not modelled.
- Day02.DecodeHand: requires a byte among `ABCXYZ`; the source hits `unreachable!` on any other byte, so lines that would reach it are excluded rather than modelled as a panic.
- Day02.DecodeOutcome: requires a byte among `XYZ`, for the same reason.
- Day02.PartA: requires every line to have at least three bytes with valid hand bytes at 0 and 2; the source panics on an index out of bounds or `unreachable!` otherwise. Bytes are modelled as characters.
- Day02.PartB: requires the same well-formed lines as PartA, with an outcome byte at 2.
- Day03.PartA: requires every byte to be at least 'A' and below 'a' + 64; on a byte outside that range the source's `u8` subtraction underflows or its shift by 64 or more overflows, and both panic. Bytes are modelled as characters.
- Day04.PartA, Day04.PartB: carry no contract of their own; what they count is stated by `Solve`, and `PartAAtMostPartB` relates them.
- Day05.Solve: the panics of `Stacks::new` (no drawing line, a crate beyond the last stack) and of a move (a stack index out of range, more crates than the stack holds) are returned as errors rather than aborting.
- Day05.Solve: bytes are modelled as characters, one per byte.
- Day04.ParseRange: every failed integer parse gives the one message `invalid digit found in string`, whatever Rust's message would be (empty text, too large a number).
- Day05.ParseInstruction: every failed integer parse gives the one message `invalid digit found in string`, whatever Rust's message would be (empty text, too large a number).
- Day05.ParseInstruction: a source or target stack written as 0 makes the source's `usize` subtraction panic; the model returns the error `attempt to subtract with overflow` instead.
- Day06.PartA: the datastream is a `string` whose characters stand for the bytes of `as_bytes()`, one byte each; a non-ASCII character, several bytes in the source, is not modelled (likewise Day06.PartB and Day06.Solve).
- Day07.PartA: requires every file line to hold a space after a `usize`, and every `$ cd` line to have a target; the source's `unwrap` and `line[5..]` panic otherwise.
- Day07.PartB: requires the same well-formed lines as PartA.
- Day07.RootIsLargest: requires every directory but the first to be entered from another one, as a listing starting with `$ cd /` gives; it is not proved that every input has this shape.
- Day07: sizes are unbounded naturals; `usize` overflow of a directory size is not modelled.
- Day16: the input lines are taken as already cut into records (name, flow rate, tunnel names); the byte offsets 6..8 and 23.. at which the source cuts each line, the `parse().unwrap()` of the flow rate and the splitting of the tunnel list are not modelled.
- Day16.PartA: a graph in which some distance is `usize::MAX` (a valve unreachable from another) is returned as the overflow error of `distance + 1`, whether or not the search would have computed that sum; the source panics only when it does.
- Day16.PartB: the same overflow error as PartA when some distance is `usize::MAX`.
- Day16.PartB: runs the corrected pair search; the search as written is modelled separately, see Findings.
- Day16.PairSearch: states the corrected search (start from the first solution disjoint from the best, try every disjoint pair before it), not the search at lines 26-45 as written; see Findings (as written: Day16.PairSearchAsWritten, Day16.AsWrittenCountsOverlappingPair).
- Day16.ScanPartners: scans the corrected partner range, up to the first solution disjoint from the best, not `solutions[index + 1..lower_bound]` as written; see Findings (as written: Day16.ScanPartnersAsWritten).
- Day16.BestPairFound: is about the corrected start pair, which is disjoint; the start pair as written may share valves; see Findings (as written: Day16.AsWrittenCountsOverlappingPair).
- Day16: flow rates, times and pressures are unbounded naturals; `usize` overflow of a pressure is not modelled.
- Day16.SortByPressure: the stable `sort_by_key` is modelled as insertion in input order, stated by its result (sorted and a permutation); that its order among equal pressures is that of the source is not proved.
- Day09.Simulate: requires every line to be well formed: at least two bytes, a first byte in `UDLR` and an `i16` count from byte 2 on. The source panics otherwise: `as_bytes()[0]` on an empty line, `unreachable!()` on another first byte, `line[2..]` on a shorter line, `unwrap()` on a count that is not an `i16`. PartA and PartB carry the same requirement.
- Day09.Simulate: positions are unbounded integers; the source's `i16` coordinates would overflow (and panic) on inputs that move more than 32767 units from the origin.
- Day09.Simulate: `sort` followed by `dedup` is modelled by its result, the number of distinct positions.
- Day08.Select: the scenic score is an unbounded product; the source's `usize` product cannot overflow for grids that fit in memory.
- Day08.PartA: requires a square grid of digits, as many lines as each line has digits; the source takes `input.len()` as the size of both axes, so a non-square grid reads the wrong trees or indexes past the bytes, and that behaviour is not modelled.
- Day08.PartB: requires the same square grid of digits, for the same reason.
- Day08.TreeCounter.constructor: requires a non-empty grid; the underflow of `input.len() - 1` on an empty one is returned by Day08.PartA before the counter is built.
- Day10.PartA: requires every line the loop reads (up to and including the one that reaches cycle 220) to be well formed: `noop`, or `addx` with an `isize` from byte 5 on. The source panics on such a line otherwise: `as_bytes()[0]` on an empty line, `unreachable!()` on a first byte other than `n` or `a`, `instruction[5..]` on an `addx` line shorter than 5 bytes, `unwrap()` on an operand that is not an `isize`. Lines after the break are never read and may be anything.
- Day10.PartA: the register and the result are unbounded integers; `isize` overflow is not modelled.
- Day11.Solve: a monkey's notes are taken as already parsed (`Notes`); the fixed byte offsets at which `Monkey::parse` cuts each line are not modelled.
- Day11.Solve: the final product of the two counts is unbounded where the source multiplies `usize`s.
- Day11.Solve: notes in which a monkey throws to itself are excluded (also from Day11.PartA and Day11.PartB); the source's turn may then loop for ever, as long as the thrown item keeps passing or failing its own test.
- Day11.Solve: the panic message of an index out of bounds is shortened to "index out of bounds", without the length and the index.
- Day12.NewMap: each line's characters stand for the bytes of `line.as_bytes()`, one byte each; a non-ASCII character, several bytes in the source, is not modelled.
- Day12.NewMap: lines of different lengths, empty input and sizes beyond `u16` are excluded; the source would truncate the sizes or index out of bounds.
- Day12.FindPath: a height of 255 is excluded; the source's `u8` addition `height + 1` would overflow on it.
- Day13.Parse: input whose digit loop would overflow a `u8` is excluded; the source panics on it. Bytes are modelled as characters, one per byte.
- Day13.Parse: the `?` after the recursive call inside the item loop never fires, since the call is made only when a byte remains; the model uses the parsed item directly.
- Day13.PartA: input whose last chunk has a single line is excluded; the source indexes `chunk[1]` out of bounds.
- Day14.Cave.New: requires every coordinate written in the input to lie inside the grid (x from 300 to 700, y at most 180); the source panics only on those its segments index.
- Day14.ParseCoordinate: every failed integer parse gives the one message `invalid digit found in string`, whatever Rust's message would be.
- Day14.PartA: requires `bottom` to be at most 180; a horizontal segment on row 180 makes the source index row 181, out of bounds.
- Day14.PartB: requires `bottom` to be at most 180, for the same reason.
- Day14.Cave: the grid is a sequence of rows that each method reassigns, not a vector updated in place.
- Day15.ParseRegion: lines too short for the fixed offsets (12, 3 and 24 characters after the separators) are excluded; the source panics on them. Characters stand for bytes.
- Day15.ParseRegion: every failed integer parse gives the one message `invalid digit found in string`, whatever Rust's message would be.
- Day15.PartA: coordinates are required to be at most 2^60 in absolute value, so that no `isize` sum or difference overflows; the arithmetic is on unbounded integers.
- Day15.PartB: requires the same bound as PartA.
- Day15.CountCovered: requires every range to start above `isize::MIN`; on a range starting there the sweep's initial `last_end + 1` would skip that one position. Bounded regions never produce such a range.
- Day15.PartB: proves what the search returns, not that the hidden position of a valid puzzle must be one of the crossings it visits (only the step `BorderOnLines` toward that).
- Day17.PartB: the cycle search and extrapolation to 10^12 rocks rest on the source's own assumptions about when the pattern repeats (`SCAN_SHAPE_COUNT`, `PATTERN_LOOKUP_HEIGHT`, `PATTERN_LOOKUP_OFFSET`) and are not modelled; `Chamber.Drop` and its height, which it is built on, are.
- Day17.PartA: the jet pattern is required to be non-empty and made of `<` and `>` only; the source hits `unreachable!` on any other byte and divides by zero on an empty pattern.
- Day15.PartA: models the corrected beacon list (the beacon's x); the list as written is modelled separately, see Findings.
- Day15.RowBeaconsAre: states the corrected beacon list (the beacons' x coordinates), not the source's list of `beacon_y`; see Findings (as written: Day15.RowBeaconsAsWritten, Day15.BeaconsAsWrittenAreRow).
- Day15.BeaconsCovered: is about the corrected beacon list; the list as written holds y coordinates, which need not be covered; see Findings.
- Day15.NoBeaconMeaning: counts with the corrected beacon list; as written, the positions removed are the beacons' y coordinates; see Findings.
- Day18.BuildGrid: requires every line that is parsed to name a cell below index 8000; the source panics on a larger index (and may overflow computing it), and a coordinate outside the grid with a smaller index aliases a cell of the grid, which the model keeps.
- Day18.ParseCoordinate: a number that does not parse gives one fixed message; the source's message depends on why the number is invalid (empty, invalid digit, too large).
- Day19.Simulate: the counts and productions are unbounded naturals; the source keeps them in `u8` and would panic on passing 255, which the model does not check.
- Day19.Score: the `println!` of each blueprint's result is output only and is not modelled.
- Day19.PartA: requires every line to parse; the source panics (an `unwrap`) on a line that does not, as `ParseBlueprint` returning `None` records.
- Day20.PartA: requires every line to parse as an `isize`; the source panics (an `unwrap`) on a line that does not.
- Day20.CircularList.Decrypt: the numbers and their sum are unbounded integers; `isize` overflow of the sum is not modelled.
- Day20.CircularList.Decrypt: models the corrected lookup of the answer; the lookup as written is modelled separately, see Findings.
- Day20.CircularList.SumAfter: states the sum with the corrected lookup, not the lookup as written; see Findings (as written: Day20.LookupAsWritten, Day20.LookupAsWrittenFullTurn).
- Day20.LookupForward: assumes the mixed list is still one ring; that a move keeps the list a single ring is not proved, only that the list as built is one (`NewPeriodic`) and that moves keep the links consistent.
- Day20: the `Debug` formatting of the list is output only and is not modelled.
- Day21: `u64` arithmetic panics on overflow, underflow and division by zero, as a debug build does; a release build would wrap instead, which is not modelled.
- Day21: a cycle among the jobs makes the source recurse until its stack overflows; the model carries the monkeys in progress and returns a "stack overflow" error when it meets one again.
- Day21: bytes are modelled as characters, one per byte; a line whose byte 4 or 6 falls inside a multi-byte character is not modelled.
- Day21.SolveSound: requires the jobs to have no cycle and every inversion on the way to be exact; with an inexact division the source's answer is not a solution, and `SolveLeftInverts`/`SolveRightInverts` say when a step is exact.
- Day21.SolveRightInverts: for `/` only the sufficient condition "`r` divides `v`" is stated, not the exact set of results `v / x` can take.
- Day22: the board's tiles are rows of tiles rather than one vector indexed `x + y * width`; `get` reads the same tile either way.
- Day22: positions are unbounded integers; the source keeps them as `u8`, which a board wider or taller than 254 tiles would overflow.
- Day22: a move's `usize` amount and the password's `usize` arithmetic are unbounded; overflow is not modelled.
- Day22: the subtraction `next - b'0'` panics on a byte below '0', as a debug build does; a release build would wrap, which is not modelled.
- Day22: bytes are modelled as characters, one per byte.
- Day22.Solve: in cube mode requires the board to be 150 columns by 200 rows, as `PartB` does.
- Day22.PartB: requires the board to be 150 columns by 200 rows, the only layout the cube face table is written for; on another board the source's table reads outside the board or reaches `unreachable!`.
- Day23: bytes are modelled as characters, one per byte.
- Day23: a direction triple is a `Look` whose three indices are below 8 by its type; the source's `[usize; 3]` could hold any index, but only `MOVES` and its rotations are ever passed.
- Day23.ProposalsClaimed: the counters themselves are not bounded; that no cell gathers 255 proposals, which would read as an elf, is not proved.
- Day24: bytes are modelled as characters, one per byte.
- Day24: the panic of `get` past the tiles is not modelled; `Get` requires a position inside the valley, which every call in `find_path` passes.
- Day24.FindPath: states that every answer is achieved by a valid route entered at the first free minute, not that no shorter route exists; the minimality of the breadth-first search is not proved.
- Day24.Search: states that the answer is achieved by a valid route, not that no valid route entered at the same minute reaches the exit sooner; the completeness of each minute's frontier is not proved.
- Day24.PartA: states that the answer is achieved by a valid route entered at the first free minute, not that it is the fewest minutes to the exit.
- Day24.Search: the argument that the queue never runs empty is not modelled; the `unreachable!` of an empty queue is kept as a possible panic.
- Day24.FindMovesMeaning: states which positions the moves are, not that they are pairwise distinct.
- Day24.PartA: the answer's `usize` is unbounded; it cannot overflow, since the minute is a `u16`.
- Day25: bytes are modelled as characters, one per byte; the final `from_utf8` cannot fail, since every digit written is one of `=-012`, so its `?` is not modelled.
- Day25.PartA: the running sum and carry are unbounded integers; `isize` overflow of `acc` is not modelled.

## Findings

| source | as written | input that shows it | evidently intended | confidence | as-written member | corrected member |
|---|---|---|---|---|---|---|
| src/challenge/day_15.rs:18-19 | the beacon list records `beacon_y`, which is always the row, so at most one beacon is subtracted | sensors at x=0 and x=10 of row 2000000 with their beacons at x=1 and x=11: 5 reported, 4 positions cannot hold a beacon | record `beacon_x`, so that every distinct beacon in the row is subtracted | high (not executed) | Day15.BeaconYExample | Day15.PartA |
| src/challenge/day_16.rs:26-31 | `lower_bound` is the position of the first disjoint solution within `solutions[1..]` but indexes `solutions`, one place early; the search starts from a pair that may share valves | four solutions opening valve 0 with pressures 20, 15 and 12, then one opening nothing: 32 reported, the best disjoint pair gives 20 | index the disjoint solution at `lower_bound + 1` and search every disjoint pair | high (not executed) | Day16.AsWrittenCountsOverlappingPair | Day16.PairSearch |
| src/challenge/day_20.rs:67-76 | the answer's lookup calls `find_next_node`, whose zero case returns the node before `start` (right for a move, which then inserts after it); when the list's length divides the offset the number read is the one before the 0 | the file `0`, `5`: 15 reported, while the numbers 1000, 2000 and 3000 places after the 0 are all the 0 itself | return the 0's own node for an offset that is a multiple of the length | medium (not executed) | Day20.FullTurnExample | Day20.LookupForward |

