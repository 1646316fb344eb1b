# Advent of Code solutions, modelled in Dafny

Each puzzle day of the repository is an independent program: it parses a small
text input and runs a self-contained algorithm. This project models the
algorithmic core of each day as its own Dafny module and proves the behaviour its
unit tests and doc comments promise.

## Model

| member | source | states |
|---|---|---|
| DiskFragmenter.ParseDiskMap | 2024/rust/day-9/src/lib.rs:12-41 | stops at the first newline; `None` (the panic) iff a non-digit precedes it; otherwise entry `i` is file `i/2` for even `i`, free space for odd `i`, sized by the digit |
| DiskFragmenter.FilesystemToIdList | 2024/rust/day-9/src/lib.rs:43-62 | the loop builds the block list: each object's blocks in order, `Some(id)` per file block and `None` per free block |
| DiskFragmenter.Owner | 2024/rust/day-9/src/lib.rs:54-59 | every block of the list belongs to exactly one object, lies on that object's extent and holds its id (or `None` for free space) |
| DiskFragmenter.TotalSizeMonotone | 2024/rust/day-9/src/lib.rs:44-52 | the extents of the objects follow each other: object `i` ends no later than the prefix up to any later object |
| DiskFragmenter.Compact | 2024/rust/day-9/src/lib.rs:65-89 | compaction keeps the length and the multiset of blocks, and leaves no free block before a file block |
| DiskFragmenter.CompactFsIdList | 2024/rust/day-9/src/lib.rs:65-89 | panics iff there is no file block or no free block; otherwise the array ends as `Compact` of its old contents |
| DiskFragmenter.FirstFit | 2024/rust/day-9/src/lib.rs:146-150 | a found window starts before the limit, fits in the list and is all free |
| DiskFragmenter.FirstFitLeast | 2024/rust/day-9/src/lib.rs:146-150 | the found window is the leftmost one, and `None` means no window left of the limit is all free |
| DiskFragmenter.LastFileId | 2024/rust/day-9/src/lib.rs:93-100 | the last file id of a disk map is the number of files minus one |
| DiskFragmenter.StartTable | 2024/rust/day-9/src/lib.rs:102-132 | `id_start_idx_map`: where each file starts, each file's extent lying within the expanded list (FileTables, TablesFit) |
| DiskFragmenter.SizeTable | 2024/rust/day-9/src/lib.rs:102-132 | `size_map`: the size of each file (FileTables, TablesFit) |
| DiskFragmenter.FileTables | 2024/rust/day-9/src/lib.rs:102-132 | `id_start_idx_map[id]` is the total size of the objects before file `id`, and `size_map[id]` is its size |
| DiskFragmenter.TablesFit | 2024/rust/day-9/src/lib.rs:102-132 | every file's extent, as the two tables give it, lies inside the block list |
| DiskFragmenter.MoveFileInPlace | 2024/rust/day-9/src/lib.rs:138-168 | one file's turn in place: the array ends as `MoveFile` of its old contents |
| DiskFragmenter.DefragPass | 2024/rust/day-9/src/lib.rs:136-175 | the loop from the highest id down to 0 leaves the array as `DefragFrom` of its old contents |
| DiskFragmenter.Defrag | 2024/rust/day-9/src/lib.rs:92-178 | the disk after every file, highest id first, took its turn; DefragFs computes it and DefragPreservesBlocks shows it keeps the length and the blocks |
| DiskFragmenter.DefragFs | 2024/rust/day-9/src/lib.rs:92-178 | the whole of part 2 equals `Defrag` of the disk map |
| DiskFragmenter.IdListOnFile | 2024/rust/day-9/src/lib.rs:102-132 | every block on file `id`'s original extent holds `Some(id)` |
| DiskFragmenter.IdListBlockInFile | 2024/rust/day-9/src/lib.rs:102-132 | every file block of the expanded list lies on the original extent of the file it names |
| DiskFragmenter.RelocatePreservesBlocks | 2024/rust/day-9/src/lib.rs:159-167 | writing a file into an all-free window and freeing its old blocks keeps the multiset of blocks |
| DiskFragmenter.MoveFileStep | 2024/rust/day-9/src/lib.rs:138-168 | one file's turn keeps the multiset of blocks and leaves the files still waiting on their original extents |
| DiskFragmenter.DefragFromPreservesBlocks | 2024/rust/day-9/src/lib.rs:136-175 | the pass over files `cur` down to 0 keeps the multiset of blocks |
| DiskFragmenter.DefragPreservesBlocks | 2024/rust/day-9/src/lib.rs:92-178 | part 2 keeps the length and the multiset of blocks of the expanded disk map |
| DiskFragmenter.Checksum | 2024/rust/day-9/src/lib.rs:181-187 | the sum of `index * id` over the file blocks (ChecksumBlockContribution, ChecksumOfFreeDisk) |
| DiskFragmenter.ChecksumBlockContribution | 2024/rust/day-9/src/lib.rs:181-187 | each file block at index `k` contributes exactly `k * id` to the checksum |
| DiskFragmenter.ChecksumOfFreeDisk | 2024/rust/day-9/src/lib.rs:181-187 | free blocks contribute 0: an all-free disk has checksum 0 |
| SupplyStacks.Perform | 2022/rust/day-5/src/lib.rs:28-33 | panics iff `num > 0` and a stack index is outside `1..=9` or the source runs out of crates (one crate suffices when source and destination coincide); otherwise the stacks end as `Performed`: the top `num` crates of the source land reversed on the destination |
| SupplyStacks.MoveCrate | 2022/rust/day-5/src/lib.rs:30-31 | one pop and push: panics iff the source is empty; moves its top crate onto the destination and leaves every other stack alone |
| SupplyStacks.MoveCrates | 2022/rust/day-5/src/lib.rs:29-32 | for distinct stacks the loop panics iff the source holds fewer than `num` crates, and otherwise moves the top block reversed |
| SupplyStacks.MoveCratesInPlace | 2022/rust/day-5/src/lib.rs:29-32 | for a stack moved onto itself the loop changes nothing, and panics iff the stack is empty |
| SupplyStacks.PerformTogether | 2022/rust/day-5/src/lib.rs:35-44 | panics iff `num > 0` and an index is invalid or the source holds fewer than `num` crates; otherwise the stacks end as `PerformedTogether`: the top block moves keeping its order |
| SupplyStacks.PopBlock | 2022/rust/day-5/src/lib.rs:36-40 | the buffer holds the top `num` crates topmost first, and the source keeps the rest |
| SupplyStacks.PushAll | 2022/rust/day-5/src/lib.rs:41-43 | pushing the buffer appends it to the destination in order and changes no other stack |
| SupplyStacks.PerformEffect | 2022/rust/day-5/src/lib.rs:28-44 | the source loses its top `num` crates, the destination gains them reversed (one at a time) or in order (together), and every other stack is unchanged |
| SupplyStacks.PerformKeepsCrates | 2022/rust/day-5/src/lib.rs:28-44 | both cranes keep the total number of crates |
| SupplyStacks.MoveBlockKeepsCrates | 2022/rust/day-5/src/lib.rs:28-44 | moving a block from one stack to another keeps the total number of crates |
| SupplyStacks.CranesDifferByReversal | 2022/rust/day-5/src/lib.rs:28-44 | whenever the block crane can run so can the single-crate one, and for blocks of at most one crate the two cranes agree |
| SupplyStacks.ReverseReverse | 2022/rust/day-5/src/lib.rs:40 | reversing the buffer twice gives it back, which is why `perform_together` keeps the block's order |
| SyntaxScoring.Pair | 2021/day-10/src/lib.rs:6-18 | maps each opener to a closer and each closer to an opener |
| SyntaxScoring.PairInvolution | 2021/day-10/src/lib.rs:6-18 | `pair` is an involution without fixed points |
| SyntaxScoring.Scan | 2021/day-10/src/lib.rs:22-49 | a running scan's stack holds only openers, and a corrupt scan stops at a closer |
| SyntaxScoring.FindCorruptionScore | 2021/day-10/src/lib.rs:21-52 | `None` (the panic) iff a closer meets an empty stack; otherwise the score of the first mismatched closer from the 3/57/1197/25137 table, or 0 |
| SyntaxScoring.CorruptionScoreMeaning | 2021/day-10/src/lib.rs:40-46 | a line scores above 0 exactly when it is corrupt, and the score is one of 3, 57, 1197, 25137 |
| SyntaxScoring.StopsForever | 2021/day-10/src/lib.rs:32-46 | once a scan is corrupt or has panicked, the rest of the line does not change its outcome (the early return) |
| SyntaxScoring.ScanAppend | 2021/day-10/src/lib.rs:24-49 | scanning a concatenation is scanning the second part from where the first left off |
| SyntaxScoring.FindAutocompleteScore | 2021/day-10/src/lib.rs:55-86 | `None` (a panic) iff the line is corrupt, a closer meets an empty stack, or the score of the completion of the remaining stack does not fit a `u64`; otherwise that score |
| SyntaxScoring.ScoreCompletion | 2021/day-10/src/lib.rs:73-85 | the loop over the reversed stack computes the base-5 score of the completion, and panics (`None`) on `u64` overflow exactly when that score exceeds 2^64 - 1 |
| SyntaxScoring.ScorePrefix | 2021/day-10/src/lib.rs:74-83 | the partial scores of the loop never exceed the final one, so an overflow part-way means the whole score does not fit |
| SyntaxScoring.ScoreBelowPow | 2021/day-10/src/lib.rs:73-85 | a completion of `n` closers scores below 5^n |
| SyntaxScoring.ShortCompletionsFit | 2021/day-10/src/lib.rs:55-85 | a line leaving at most 27 delimiters open always gets a score: it fits a `u64` |
| SyntaxScoring.ScanOpeners | 2021/day-10/src/lib.rs:58-62 | a line of openers only leaves all of them open, in order |
| SyntaxScoring.AnglesScore | 2021/day-10/src/lib.rs:74-83 | `n` closing `>` score 5^n - 1 |
| SyntaxScoring.AnglesOverflow | 2021/day-10/src/lib.rs:55-85 | a line of 28 `<` is incomplete and its score, 5^28 - 1, overflows a `u64`: the source panics on it |
| SyntaxScoring.Completion | 2021/day-10/src/lib.rs:74 | the completion closes the stack from the top down: entry `i` is the partner of the `i`-th opener from the top |
| SyntaxScoring.CompletionCloses | 2021/day-10/src/lib.rs:55-86 | appending the completion to an incomplete line leaves nothing open |
| SyntaxScoring.CompletionScoreInjective | 2021/day-10/src/lib.rs:73-85 | distinct completions have distinct scores |
| SyntaxScoring.ScanIgnoresOthers | 2021/day-10/src/lib.rs:26-31 | characters other than the eight delimiters do not affect either scorer |
| DistressSignal.Cmp | 2022/rust/day-13/src/lib.rs:20-41 | the packet order: numeric on integers, an integer against a list as a one-element list, lexicographic on lists, antisymmetric and reflexive (the lemmas below) |
| DistressSignal.CmpNat | 2022/rust/day-13/src/lib.rs:25 | two integers compare numerically: Less iff smaller, Equal iff equal |
| DistressSignal.IntAgainstList | 2022/rust/day-13/src/lib.rs:26-27 | an integer compared with a list, on either side, compares as the one-element list holding it |
| DistressSignal.CmpListLexicographic | 2022/rust/day-13/src/lib.rs:28-38 | two lists compare equal exactly when they have the same length and equal elements pairwise; otherwise the first unequal pair decides, or, when one list is a prefix of the other, the lengths decide |
| DistressSignal.CmpAntisymmetric | 2022/rust/day-13/src/lib.rs:20-41 | swapping the two packets flips the ordering |
| DistressSignal.CmpReflexive | 2022/rust/day-13/src/lib.rs:20-41 | every packet compares equal to itself |
| DistressSignal.SamplePair1 | 2022/rust/day-13/src/lib.rs:44-45 | `[1,1,3,1,1]` is before `[1,1,5,1,1]` |
| DistressSignal.SamplePair2 | 2022/rust/day-13/src/lib.rs:47-48 | `[[1],[2,3,4]]` is before `[[1],4]` |
| DistressSignal.SamplePair3 | 2022/rust/day-13/src/lib.rs:50-51 | `[9]` is after `[[8,7,6]]` |
| DistressSignal.SamplePair4 | 2022/rust/day-13/src/lib.rs:53-54 | `[[4,4],4,4]` is before `[[4,4],4,4,4]` |
| DistressSignal.SamplePair5 | 2022/rust/day-13/src/lib.rs:56-57 | `[7,7,7,7]` is after `[7,7,7]` |
| DistressSignal.SamplePair6 | 2022/rust/day-13/src/lib.rs:59-60 | `[]` is before `[3]` |
| DistressSignal.SamplePair7 | 2022/rust/day-13/src/lib.rs:62-63 | `[[[]]]` is after `[[]]` |
| DistressSignal.SamplePair8 | 2022/rust/day-13/src/lib.rs:65-66 | `[1,[2,[3,[4,[5,6,7]]]],8,9]` is after `[1,[2,[3,[4,[5,6,0]]]],8,9]` |
| DumboOctopus.Parse | 2021/day-11/src/lib.rs:37-59 | parsing succeeds exactly when there are ten lines, each with at least ten characters and only digits; the energies are the first ten digits of each line, row-major, each at most 9 |
| DumboOctopus.Rows | 2021/day-11/src/lib.rs:38-50 | ten energies per line, each the value of the digit at that row and column |
| DumboOctopus.Octopodes.constructor | 2021/day-11/src/lib.rs:52-58 | a fresh grid holds the given energies, no flag set, no flashes counted |
| DumboOctopus.OffsetsHit | 2021/day-11/src/lib.rs:74-83 | the eight positions pushed for a flash at one octopus contain every neighbour of it exactly once and no other octopus |
| DumboOctopus.PushesHit | 2021/day-11/src/lib.rs:66-86 | over a whole pass, the pushed positions name each octopus once per neighbour of it that flashes |
| DumboOctopus.Octopodes.DoFlashes | 2021/day-11/src/lib.rs:62-102 | exactly the octopodes above 9 without a flag flash: their flag is set, the total rises by their number, every octopus gains one energy per flashing neighbour, and the result says whether anyone flashed |
| DumboOctopus.Octopodes.IncrementNeighbours | 2021/day-11/src/lib.rs:88-99 | each pushed position inside the grid adds one energy to that octopus; positions outside the grid are dropped |
| DumboOctopus.FlagsAddUp | 2021/day-11/src/lib.rs:69-72 | a pass sets one new flag per flash, so each octopus flashes at most once per step |
| DumboOctopus.NoFlashes | 2021/day-11/src/lib.rs:61-102 | a pass in which nobody flashes changes no energy |
| DumboOctopus.TrueCountAll | 2021/day-11/src/lib.rs:115-127 | the flag count reaches the number of octopodes exactly when every flag is set |
| DumboOctopus.Octopodes.RunStep | 2021/day-11/src/lib.rs:105-128 | from a resting grid (digits, no flags) the new energies are those of `Step` on the old ones and the total rises by `Step`'s flash count: every energy first rises by one, flashing passes repeat until one flashes nobody, and exactly the octopodes that flashed drop to 0; afterwards no flag is set, every other octopus is above its old energy and at most 9, and the result is true exactly when all of them are 0 |
| DumboOctopus.Octopodes.RaiseAll | 2021/day-11/src/lib.rs:106-110 | the first loop of a step raises every energy by exactly one |
| DumboOctopus.Octopodes.FlashUntilStill | 2021/day-11/src/lib.rs:113 | the `while` over `do_flashes` ends in the state `Settle` gives, and the total rises by one per flag it sets |
| DumboOctopus.Octopodes.ResetFlashed | 2021/day-11/src/lib.rs:115-125 | the last loop sets every flagged octopus to 0, clears every flag, leaves the other energies alone, and counts the flags it found |
| DumboOctopus.Settle | 2021/day-11/src/lib.rs:113 | repeated passes end with every octopus flagged or at most 9; flags are only set, and only on octopodes above 9, and no energy falls |
| DumboOctopus.StepMeaning | 2021/day-11/src/lib.rs:105-128 | from digit energies a step ends with digit energies, an octopus is 0 exactly when it flashed, every other one is above its old energy, the flash count is the number of zeros, and all hundred flashed exactly when all are 0 |
| DumboOctopus.QuietStep | 2021/day-11/src/lib.rs:105-128 | when no energy is above 8, a step raises every energy by one and nobody flashes |
| DumboOctopus.QuietLines | 2021/day-11/src/lib.rs:37-59 | lines of digits none above 8 parse to a grid whose step gives the grid of the lines each one higher, with no flash |
| DumboOctopus.SampleFirstStep | 2021/day-11/src/lib.rs:215-234 | the tests' grid after one step is the one the test expects, with a flash total of 0 |
| Lanternfish.Tick | 2021/day-6/src/lib.rs:15-23 | a timer at 0 resets to 6 and reports a spawn; any other timer drops by one and reports none |
| Lanternfish.TickAll | 2021/day-6/src/lib.rs:34-40 | every fish is ticked in place and the number of spawns is the number of fish that were at 0 |
| Lanternfish.SimulateWithVec | 2021/day-6/src/lib.rs:32-46 | the answer is the size of the population after the given days, each day ticking every fish and appending one newborn with timer 8 per spawn |
| Lanternfish.DayGrowth | 2021/day-6/src/lib.rs:36-42 | each day the population grows by exactly the number of fish at timer 0 |
| Lanternfish.CountTimers | 2021/day-6/src/lib.rs:51-64 | the nine counters hold, for each timer 0 to 8, how many fish have it |
| Lanternfish.NextCounts | 2021/day-6/src/lib.rs:68-80 | the new counters move timer 0 to both 6 and 8 and every other timer k to k - 1 |
| Lanternfish.SimulateWithMap | 2021/day-6/src/lib.rs:48-86 | the answer is the sum of the counters stepped once per day from the initial counts |
| Lanternfish.StepCountsGrowth | 2021/day-6/src/lib.rs:70-71 | each day the counted total grows by exactly the count at timer 0 |
| Lanternfish.CountTicked | 2021/day-6/src/lib.rs:36-40 | after ticking, timer k is held by the fish that had k + 1, and timer 6 also by those that had 0 |
| Lanternfish.DayCounts | 2021/day-6/src/lib.rs:67-83 | the counters of the next day's population are the stepped counters of today's |
| Lanternfish.CountsTotal | 2021/day-6/src/lib.rs:49-50 | when every timer is at most 8 the counters add up to the population |
| Lanternfish.SimulationsAgree | 2021/day-6/src/lib.rs:32-86 | for any school whose timers are at most 8, both simulations give the same population after any number of days |
| Lanternfish.SampleCounts | 2021/day-6/src/lib.rs:93 | the sample school `3,4,3,1,2` counts one fish at timers 1, 2 and 4 and two at timer 3 |
| Lanternfish.Sample80Days | 2021/day-6/src/bin.rs:25 | the sample school numbers 5934 fish after 80 days, by either simulation |
| MonkeyInTheMiddle.Apply | 2022/rust/day-11/src/lib.rs:86-95 | a missing operand stands for the old level: `old + old` doubles it, `old * old` squares it, and a constant on the left is added to or multiplies the old level |
| MonkeyInTheMiddle.ApplyMod | 2022/rust/day-11/src/lib.rs:54-57 | reducing the old level modulo any positive `m` before the operation leaves the new level's remainder modulo `m` unchanged |
| MonkeyInTheMiddle.GetResult | 2022/rust/day-11/src/lib.rs:105-111 | the first target exactly when the level is divisible by the modulus, the second otherwise |
| MonkeyInTheMiddle.ReductionKeepsTarget | 2022/rust/day-11/src/lib.rs:6-8 | for a modulus that divides `MAGIC_NUMBER`, a level reduced modulo `MAGIC_NUMBER` goes to the same target |
| MonkeyInTheMiddle.ReducedWorryKeepsTarget | 2022/rust/day-11/src/lib.rs:54-65 | in part 2 the reduced new level goes to the same target as the unreduced result of the operation |
| MonkeyInTheMiddle.InspectAndThrow | 2022/rust/day-11/src/lib.rs:44-69 | an empty queue gives no throw and an unchanged monkey; otherwise the front item leaves, the counter rises by one, and the item goes out with its new level (divided by 3, or reduced modulo `MAGIC_NUMBER`) to the target the test picks for that level |
| MonkeyInTheMiddle.ThrowKeepsItems | 2022/rust/day-11/src/lib.rs:23-25 | one throw keeps the total number of items |
| MonkeyInTheMiddle.Turn | 2022/rust/day-11/src/lib.rs:22-26 | `do_turn`: the monkey inspects its items in order and throws each; it keeps every monkey's rules, and its effect on the queues and the counter is proved in `TurnEffect` |
| MonkeyInTheMiddle.TurnEffect | 2022/rust/day-11/src/lib.rs:22-26 | a turn empties the monkey's queue, raises its counter by the number of items it held, only appends to every other queue, leaves their counters alone, and keeps the total number of items |
| MonkeyInTheMiddle.Turns | 2022/rust/day-11/src/lib.rs:16-20 | a round as every monkey's turn in order, on values, keeping the number of items (TurnsKeepItems); MonkeyGroup.DoRound performs it in place |
| MonkeyInTheMiddle.TurnsKeepItems | 2022/rust/day-11/src/lib.rs:16-20 | a round keeps the total number of items |
| MonkeyInTheMiddle.MonkeyBusiness | 2022/rust/day-11/src/lib.rs:28-32 | the product of the two largest counters (MonkeyBusinessIsTopProduct, TopTwo) |
| MonkeyInTheMiddle.TopTwo | 2022/rust/day-11/src/lib.rs:29-31 | two different positions, the first holding a largest value, the second a largest among the rest |
| MonkeyInTheMiddle.MonkeyBusinessIsTopProduct | 2022/rust/day-11/src/lib.rs:28-32 | with two or more monkeys the monkey business is the product of a largest counter and a largest counter among the others |
| MonkeyInTheMiddle.SampleFirstTurn | 2022/rust/day-11/src/lib.rs:115-120 | in the sample, monkey 0 throws 79 as 500 and 98 as 620 to monkey 3, which then holds 74, 500, 620 |
| MonkeyInTheMiddle.MonkeyGroup.DoTurn | 2022/rust/day-11/src/lib.rs:22-26 | the loop of throws leaves the group in the state the turn function gives and keeps every test's targets valid |
| MonkeyInTheMiddle.MonkeyGroup.DoRound | 2022/rust/day-11/src/lib.rs:16-20 | the turns in index order leave the group in the state the round function gives |
| MonkeyInTheMiddle.MonkeyGroup.GetMonkeyBusiness | 2022/rust/day-11/src/lib.rs:28-32 | with two or more monkeys, returns the product of a largest counter and a largest counter among the others |
| CathodeRayTube.Default | 2022/day-10/src/lib.rs:27-36 | the default CPU has register 1, is at cycle 1, has no signal total and has drawn no pixel |
| CathodeRayTube.SignalCycles | 2022/day-10/src/lib.rs:41 | the signal is added exactly on cycles 20, 60, 100, ..., those 20 more than a multiple of 40 |
| CathodeRayTube.Tick | 2022/day-10/src/lib.rs:39-55 | `increment_current_cycle` on values: the pixel and the due signal of one cycle, then the clock moves on; `Cpu.IncrementCurrentCycle` is proved to move to it |
| CathodeRayTube.Execute | 2022/day-10/src/lib.rs:57-66 | `execute_instruction` on values: one tick for `noop`, two then the addition for `addx`; what the ticks draw and add is proved in `ExecuteMeaning` |
| CathodeRayTube.ExecuteMeaning | 2022/day-10/src/lib.rs:39-66 | `noop` lasts one cycle and `addx n` two with the old register value, each cycle draws one pixel and adds its due signal, and only then does `addx` add `n` to the register |
| CathodeRayTube.FollowsAppend | 2022/day-10/src/lib.rs:57-66 | executing one program after another gives the trace, pixels, signal total and register of the joined program |
| CathodeRayTube.RunMeaning | 2022/day-10/src/lib.rs:57-66 | from any state, a program advances the clock by one per cycle of its register trace, draws that trace's pixels, adds that trace's due signals and adds every `addx` argument to the register |
| CathodeRayTube.PixelPerCycle | 2022/day-10/src/lib.rs:46-54 | from the default CPU the number of pixels is the current cycle minus one, and the pixel of cycle `k + 1` is lit exactly when the register during that cycle is within one of column `k % 40` |
| CathodeRayTube.RunFromDefault | 2022/day-10/src/lib.rs:41-43 | from the default CPU the signal total is the sum of cycle times register over the due cycles of the trace, and the register ends at 1 plus every `addx` argument |
| CathodeRayTube.SamplePixels | 2022/day-10/src/lib.rs:120-147 | the sample program draws the 21 pixels the test expects |
| CathodeRayTube.Cpu.constructor | 2022/day-10/src/lib.rs:27-36 | a new CPU is in the default state |
| CathodeRayTube.Cpu.IncrementCurrentCycle | 2022/day-10/src/lib.rs:39-55 | adds the signal if the cycle is due, appends the pixel of the current column and advances the clock |
| CathodeRayTube.Cpu.ExecuteInstruction | 2022/day-10/src/lib.rs:57-66 | the CPU moves to the state one instruction's ticks and addition give |
| CathodeRayTube.Cpu.ExecuteAll | 2022/day-10/src/lib.rs:135-138 | executing a program instruction by instruction reaches the state the whole program gives |
| GiantSquid.BingoCard.FromNumberArrays | 2021/rust/day-4/src/lib.rs:37-42 | a new card holds the given numbers, none of them marked, and no called number |
| GiantSquid.FirstUnmarkedMeaning | 2021/rust/day-4/src/lib.rs:45-47 | the cell `add_number` picks holds the number unmarked and every cell before it in row-major order does not; there is no such cell exactly when no cell holds the number unmarked |
| GiantSquid.BingoCard.AddNumber | 2021/rust/day-4/src/lib.rs:44-54 | when an unmarked cell holds the number, exactly the first such cell is marked and the number becomes the last called; otherwise the card and its last called number are unchanged |
| GiantSquid.HasWon | 2021/rust/day-4/src/lib.rs:65-81 | `has_won`: any of the five rows and five columns is fully marked, scanned as ten lines; that this is a row or a column fully marked is proved in `HasWonMeaning` |
| GiantSquid.HasWonMeaning | 2021/rust/day-4/src/lib.rs:65-81 | a card has won exactly when some row is fully marked or some column is fully marked |
| GiantSquid.BingoCard.HasWonCard | 2021/rust/day-4/src/lib.rs:65-81 | `has_won` of the card's current cells: some row or some column fully marked (HasWonMeaning) |
| GiantSquid.LineMarked | 2021/rust/day-4/src/lib.rs:66-78 | the ten lines checked are the five rows followed by the five columns |
| GiantSquid.DiagonalDoesNotWin | 2021/rust/day-4/src/lib.rs:78-80 | a card whose only marked cells form the main diagonal has not won |
| GiantSquid.Score | 2021/rust/day-4/src/lib.rs:56-63 | there is no score (the source panics) exactly when no number was ever marked |
| GiantSquid.BingoCard.ScoreCard | 2021/rust/day-4/src/lib.rs:56-63 | `score` of the card's current cells and last called number, missing exactly when no number was called (Score, MarkLowersUnmarked) |
| GiantSquid.MarkLowersUnmarked | 2021/rust/day-4/src/lib.rs:56-61 | marking an unmarked cell lowers the sum of unmarked numbers by exactly that cell's number |
| Dive.Default | 2021/day-2/src/lib.rs:45-53 | the default position has horizontal coordinate, depth and aim all 0 |
| Dive.Step1 | 2021/day-2/src/lib.rs:56-64 | `execute_command_part1` on values: `forward` adds to the horizontal coordinate, `down` adds to and `up` subtracts from the depth; the sums a run adds up to are proved in `Run1Meaning` |
| Dive.Run1Meaning | 2021/day-2/src/lib.rs:56-64 | under the first reading a run of commands adds the `forward` distances to the horizontal coordinate and the `down` minus `up` distances to the depth, and leaves the aim alone |
| Dive.Step2 | 2021/day-2/src/lib.rs:66-77 | one command under the second reading, on values; a run of them ends as Run2Meaning says, and ExecuteCommandPart2 performs it in place |
| Dive.Run2Meaning | 2021/day-2/src/lib.rs:66-77 | under the second reading, from the default position, the horizontal coordinate is the total `forward` distance, the aim is the `down` minus `up` distance, and the depth sums, over each `forward n`, `n` times the aim set by the commands before it |
| Dive.ReadingsAgree | 2021/day-2/src/lib.rs:56-77 | on the same commands both readings end at the same horizontal coordinate, and the second reading's aim equals the first reading's depth |
| Dive.LevelWithoutAim | 2021/day-2/src/lib.rs:70-73 | a run of `forward` commands with no `up` or `down` before them does not dive under the second reading |
| Dive.Position.constructor | 2021/day-2/src/lib.rs:45-53 | a new position is the default one |
| Dive.Position.PositionProduct | 2021/day-2/src/lib.rs:79-81 | the product of the depth and the horizontal coordinate, the answer read off a position that Run1Meaning and Run2Meaning describe |
| Dive.Position.ExecuteCommandPart1 | 2021/day-2/src/lib.rs:56-64 | the position moves as one command of the first reading says |
| Dive.Position.ExecuteCommandPart2 | 2021/day-2/src/lib.rs:66-77 | the position moves as one command of the second reading says |
| GrovePositioningSystem.IndexOf | 2022/rust/day-20/src/lib.rs:19-22 | the index of the first entry carrying the id, every entry before it carrying another id; the length of the state when no entry carries it |
| GrovePositioningSystem.NewIndexInRange | 2022/rust/day-20/src/lib.rs:28-48 | under both wrapping rules the new index lies in `0 .. len`, so it is at most the length of the list without the moved entry and the insert cannot panic |
| GrovePositioningSystem.RulesAgreeOnShortMoves | 2022/rust/day-20/src/lib.rs:28-45 | the rule as written (a sum strictly inside the list kept, a sum at or past the length wrapped as `(sum + 1) % len`, a negative one as `(sum - 1) % len`, a zero sum sent to `len - 1`) gives the same index as the corrected rule whenever `2 - len <= idx + offset <= 2 * len - 2` |
| GrovePositioningSystem.CorrectedIndexMeaning | 2022/rust/day-20/src/lib.rs:28-45 | the corrected index lies in `1 .. len - 1` and is congruent to `idx + offset` modulo the `len - 1` other entries |
| GrovePositioningSystem.MoveMovesOneEntry | 2022/rust/day-20/src/lib.rs:26-48 | removing the entry at `k` and inserting it at `q` keeps the length, puts that entry at `q`, and leaves the other entries in their old order |
| GrovePositioningSystem.MovePermutes | 2022/rust/day-20/src/lib.rs:26-48 | a remove followed by an insert of the same entry keeps the multiset of entries and the multiset of their values |
| GrovePositioningSystem.MoveFollowedBy | 2022/rust/day-20/src/lib.rs:48 | circularly, the entry inserted at `q >= 1` is followed by the entry that was at `q` (index `len - 1` being the same place as 0) of the list without it |
| GrovePositioningSystem.StepSucceeds | 2022/rust/day-20/src/lib.rs:19-22 | while the entry to move is in a state of `len` entries, the `position(..).expect(..)` lookup and the insert of one iteration cannot panic |
| GrovePositioningSystem.StepPermutes | 2022/rust/day-20/src/lib.rs:18-49 | one iteration of the loop keeps the length, the multiset of entries and the multiset of values |
| GrovePositioningSystem.MixFromPermutes | 2022/rust/day-20/src/lib.rs:18-50 | moving each entry of a list of entries found in the state, once each and in order, never panics and ends in a permutation of the state |
| GrovePositioningSystem.MixFromChain | 2022/rust/day-20/src/lib.rs:18-50 | when each entry in turn takes one state to the next, the loop ends in the last state |
| GrovePositioningSystem.Mix | 2022/rust/day-20/src/lib.rs:10-54 | `mix_list` under either wrapping rule, a permutation of its input (MixPermutes) that the test's example mixes as expected (SampleMix) |
| GrovePositioningSystem.MixPermutes | 2022/rust/day-20/src/lib.rs:10-54 | under either rule mixing never panics and returns a permutation of its input of the same length, so the final `assert_eq!` on the length holds |
| GrovePositioningSystem.CorrectedLandsBefore | 2022/rust/day-20/src/lib.rs:26-48 | under the corrected rule the entry taken out at `k` and moved by `offset` lands at an index in `1 .. len - 1`, just before the entry `k + offset` places on, counted circularly among the other entries |
| GrovePositioningSystem.SampleSteps | 2022/rust/day-20/src/lib.rs:18-51 | each of the example's seven moves takes one state to the next under either wrapping rule, the rule as written included |
| GrovePositioningSystem.SampleMix | 2022/rust/day-20/src/lib.rs:78-85 | the example `1, 2, -3, 3, -2, 0, 4` mixes to `1, 2, -3, 4, 0, 3, -2` as the test expects, both with `mix_list` as written (`Mix(AsWritten, ·)`) and with the corrected rule |
| GrovePositioningSystem.AsWrittenOvershoots | 2022/rust/day-20/src/lib.rs:32-37 | with the rule as written, `5, 0, 1` mixes to `5, 1, 0` |
| GrovePositioningSystem.CorrectedMixesOvershootExample | 2022/rust/day-20/src/lib.rs:32-37 | with the corrected rule, `5, 0, 1` mixes to `5, 0, 1`, a different circular order from the rule as written |
| GrovePositioningSystem.MixList | 2022/rust/day-20/src/lib.rs:10-54 | the loop over the original entries, each located by its id, removed and reinserted, returns exactly `Mix` of the input under the corrected rule: a permutation of the input of the same length |
| GuardGallivant.TurnRight | 2024/rust/day-6/src/lib.rs:14-21 | turning right never keeps the direction, and rotates the unit step a quarter turn clockwise (with `y` growing downwards) |
| GuardGallivant.FourTurns | 2024/rust/day-6/src/lib.rs:14-21 | four right turns give back the starting direction and two never do |
| GuardGallivant.NextPosition | 2024/rust/day-6/src/lib.rs:23-44 | a position returned is the adjacent one in the direction; from a position on the map the result is `None` exactly when the adjacent position is off the map |
| GuardGallivant.TakeStep | 2024/rust/day-6/src/lib.rs:57-69 | one move of the guard: off the map, a right turn before an obstacle, or a step forward (TakeStepMeaning, TakeStepKeepsGuardOnMap) |
| GuardGallivant.TakeStepMeaning | 2024/rust/day-6/src/lib.rs:57-69 | a step is `None` exactly when the position ahead is off the map; otherwise the guard turns right in place when the position ahead is an obstacle and moves there keeping the direction when it is not |
| GuardGallivant.TakeStepKeepsGuardOnMap | 2024/rust/day-6/src/lib.rs:57-69 | a guard on the map and off the obstacles stays on the map and off the obstacles after a step |
| GuardGallivant.WalkSplit | 2024/rust/day-6/src/lib.rs:126-132 | walking `i + k` steps is walking `i` steps and then `k` more from where the guard stands |
| GuardGallivant.GoneForGood | 2024/rust/day-6/src/lib.rs:126-132 | once a walk has left the map, every longer walk has too |
| GuardGallivant.LoopNeverExits | 2024/rust/day-6/src/lib.rs:126-132 | once a state recurs after `i` and `j` steps the walk never leaves the map |
| GuardGallivant.LoopOrExit | 2024/rust/day-6/src/lib.rs:121-135 | no walk both repeats a state and leaves the map |
| GuardGallivant.MapHasLoop | 2024/rust/day-6/src/lib.rs:121-135 | the loop with its set of visited states ends, and returns true exactly when some position and direction of the walk repeats, and exactly when the guard never leaves the map |
| GuardGallivant.GuardChar | 2024/rust/day-6/src/lib.rs:84-107 | a character names a direction exactly when it is one of `^`, `>`, `v`, `<` |
| GuardGallivant.RowObstaclesMeaning | 2024/rust/day-6/src/lib.rs:81-83 | an obstacle of a row is exactly a column of it holding `#` |
| GuardGallivant.ObstaclesMeaning | 2024/rust/day-6/src/lib.rs:80-83 | the obstacles of the map are exactly the positions holding `#` |
| GuardGallivant.ObstaclesOrdered | 2024/rust/day-6/src/lib.rs:80-83 | the obstacles are pushed in reading order, top row first and left to right, so no position is listed twice |
| GuardGallivant.RowGuardMeaning | 2024/rust/day-6/src/lib.rs:81-107 | a row's guard stands on a guard character facing the way it points, with no guard character right of it; there is none exactly when the row has no guard character |
| GuardGallivant.GuardInMeaning | 2024/rust/day-6/src/lib.rs:80-116 | the guard found stands on a guard character facing the way it points, no guard character follows it in reading order (a later one overwrites an earlier one), and there is none exactly when the map holds no guard character |
| GuardGallivant.ParseMap | 2024/rust/day-6/src/lib.rs:73-119 | the nested loops over rows and characters return `Parse` of the rows: `None` where the source panics (an empty map, a character other than `#.^>v<`, no guard), otherwise the first row's length and the row count as bounds, the obstacles and the last guard |
| GuardGallivant.SampleParse | 2024/rust/day-6/src/lib.rs:137-177 | the ten by ten sample map reads as bounds `(10, 10)`, the eight obstacles in the listed order and the guard at `(4, 6)` facing north |
| RegolithReservoir.PointsInStraightLine | 2022/day-14/src/lib.rs:33-62 | a segment has points exactly when it is vertical or horizontal; a diagonal one is `None` (the panic) |
| RegolithReservoir.StraightLineMeaning | 2022/day-14/src/lib.rs:33-62 | a point is in a straight segment's list iff it lies between the two ends, in whichever order the ends come |
| RegolithReservoir.StraightLineOrdered | 2022/day-14/src/lib.rs:37-58 | the list has one point per unit of the varying coordinate plus one, in increasing order with no repeats |
| RegolithReservoir.PathRocksMeaning | 2022/day-14/src/lib.rs:110-113 | the rock of a path's first `k` segments is exactly the points lying on one of them |
| RegolithReservoir.RocksMeaning | 2022/day-14/src/lib.rs:107-120 | for valid paths the rock is exactly the points lying on a segment of some path |
| RegolithReservoir.RockPointsMeaning | 2022/day-14/src/lib.rs:107-120 | building the map panics iff some path is empty or has a diagonal segment; otherwise its rock is the union of all segments |
| RegolithReservoir.RockMap.AddPath | 2022/day-14/src/lib.rs:111-113 | the inner loop adds the path's segments to the rock, and gives `None` iff the path is empty or has a diagonal segment |
| RegolithReservoir.RockMap.FromLines | 2022/day-14/src/lib.rs:107-120 | the nested loops give `None` iff `RockPoints` does; otherwise a fresh map whose rock is `RockPoints` and whose sand is empty |
| RegolithReservoir.SampleRocks | 2022/day-14/src/lib.rs:211-225 | the two sample paths give the twenty rock points of the unit test |
| RegolithReservoir.MaxRockY | 2022/day-14/src/lib.rs:126-128 | `None` (the unwrap panic) iff there is no rock; otherwise the row of some rock point, and no rock point is lower |
| RegolithReservoir.Occupied | 2022/day-14/src/lib.rs:122-124 | rock or sand at the point, the test that blocks each step of a grain (NextPointMeaning) |
| RegolithReservoir.GetNextPoint | 2022/day-14/src/lib.rs:134-165 | a move goes one row down to a free cell from above the floor row (and not past the lowest rock with abyss); a panic happens only with no rock or at column 0 |
| RegolithReservoir.NextPointMeaning | 2022/day-14/src/lib.rs:134-165 | the priority of a step: floor row blocks, abyss swallows, then down, down-left, down-right, a panic at column 0, and blocked (source blocked at the source) when all three cells below are taken |
| RegolithReservoir.FallMeaning | 2022/day-14/src/lib.rs:167-185 | a grain rests only where it is held up, on a free cell below where it started and not below the floor; it is stuck only at a blocked source, and lost only with abyss |
| RegolithReservoir.Drop | 2022/day-14/src/lib.rs:167-185 | one grain of sand dropped from the source, adding at most that grain (DropMeaning, DropKeepsSettled) |
| RegolithReservoir.DropMeaning | 2022/day-14/src/lib.rs:167-185 | a drop adds at most one grain; a returned grain is new; without abyss `None` means a grain now sits at the source |
| RegolithReservoir.DropKeepsSettled | 2022/day-14/src/lib.rs:167-185 | when sand is off the rock and held up, it still is after another drop |
| RegolithReservoir.RockMap.DropSandWithAbyss | 2022/day-14/src/lib.rs:167-185 | the loop follows the grain to where `Fall` says it ends, leaves the rock alone, and records and returns what `Drop` gives |
| PyroclasticFlow.HasLast | 2022/day-17/src/lib.rs:35-45 | under the order by row then column every non-empty set of cells has a greatest element |
| PyroclasticFlow.Last | 2022/day-17/src/lib.rs:129-131 | `last()` is `None` iff the set is empty, and otherwise a member that every other member precedes |
| PyroclasticFlow.MaxHeight | 2022/day-17/src/lib.rs:129-131 | `None` iff the chamber is empty; otherwise the row of some occupied cell, and no occupied cell is higher |
| PyroclasticFlow.ParseDirections | 2022/day-17/src/lib.rs:53-62 | the jets of the pattern, one per `<` or `>` (ParseJetsOnly, ParseAppend) |
| PyroclasticFlow.ParseAppend | 2022/day-17/src/lib.rs:53-62 | parsing works character by character: the jets of a concatenation are the jets of each part |
| PyroclasticFlow.ParseJetsOnly | 2022/day-17/src/lib.rs:53-62 | a pattern of only `<` and `>` gives one jet per character, left for `<` and right for `>` |
| PyroclasticFlow.NextShape | 2022/day-17/src/lib.rs:75-85 | the next shape on the cycle of five (ShapesCycle, ShapesPeriod) |
| PyroclasticFlow.ShapesCycle | 2022/day-17/src/lib.rs:75-85 | after `n` rocks the shape has moved `n` places round the cycle of five |
| PyroclasticFlow.ShapesPeriod | 2022/day-17/src/lib.rs:75-85 | the shape comes back exactly after a multiple of five rocks |
| PyroclasticFlow.Points | 2022/day-17/src/lib.rs:87-111 | the cells of a shape, four or five distinct cells in a four-by-four box (ShapeBox) |
| PyroclasticFlow.ShapeBox | 2022/day-17/src/lib.rs:87-111 | each shape has four or five distinct cells in a four-by-four box whose bottom left corner is the origin |
| PyroclasticFlow.StartPoint | 2022/day-17/src/lib.rs:133-135 | where a new rock starts: column 2, four rows above the highest rock, row 3 when empty (StartRockMeaning) |
| PyroclasticFlow.StartRockMeaning | 2022/day-17/src/lib.rs:133-138 | a new rock starts with its left edge at column 2, inside the walls, its bottom row four rows above the highest rock (row 3 when empty), so it overlaps nothing |
| PyroclasticFlow.PushMeaning | 2022/day-17/src/lib.rs:141-165 | a push keeps the rows and either does nothing or moves the rock one cell, moving it exactly when the walls allow it and the moved rock overlaps nothing; a rock inside the walls and clear of the others stays so |
| PyroclasticFlow.MovesKeepShape | 2022/day-17/src/lib.rs:141-180 | pushes and downward moves keep the rock's shape |
| PyroclasticFlow.Fall | 2022/day-17/src/lib.rs:140-181 | the pushes and falls of one rock until it rests, keeping its shape inside the walls and clear of the other rocks (FallMeaning, Landing) |
| PyroclasticFlow.FallMeaning | 2022/day-17/src/lib.rs:140-181 | the rock stays inside the walls, clear of the other rocks, with its shape and no higher than it started, resting on the floor or right above a rock |
| PyroclasticFlow.Landing | 2022/day-17/src/lib.rs:137-181 | a new rock comes to rest with its shape, inside the walls, clear of the other rocks and held up |
| PyroclasticFlow.Dropped | 2022/day-17/src/lib.rs:137-185 | the chamber after one rock, on values: the resting rock's cells added, the next shape, the next jet (DropMeaning); Chamber.DropRock performs it in place |
| PyroclasticFlow.DropMeaning | 2022/day-17/src/lib.rs:137-185 | a drop adds exactly the cells of the resting rock, all new and inside the walls, advances the shape and never lowers the highest rock |
| PyroclasticFlow.Chamber.constructor | 2022/day-17/src/lib.rs:121-127 | a new chamber is empty, starts with the flat shape and at the first jet |
| PyroclasticFlow.Chamber.DropRock | 2022/day-17/src/lib.rs:137-185 | the loop leaves the chamber as `Dropped` of its old state: the cells where the rock stays added, the next shape, the next jet |
| PyroclasticFlow.SampleFirstRock | 2022/day-17/src/lib.rs:133-185 | with jets starting `>>><` the first rock rests in columns 2 to 5 of row 0, and the plus and the fifth jet come next |
| Fertilizer.Convert | 2023/day-5/src/lib.rs:22-31 | a number is converted exactly when it lies in the source range; the result lies in the destination range at the same offset |
| Fertilizer.ConvertInverse | 2023/day-5/src/lib.rs:22-31 | converting with the reversed triplet takes every converted number back to where it came from |
| Fertilizer.ConvertWithList | 2023/day-5/src/lib.rs:33-40 | conversion by the first covering triplet, or no change (ConvertWithListMeaning); ConvertNumWithList computes it |
| Fertilizer.ConvertWithListMeaning | 2023/day-5/src/lib.rs:33-40 | the first covering triplet decides the result; a number no triplet covers is returned unchanged |
| Fertilizer.ConvertNumWithList | 2023/day-5/src/lib.rs:33-40 | the loop returning at the first conversion computes the first-match conversion through the list |
| Fertilizer.GetLocations | 2023/day-5/src/lib.rs:56-72 | the location of each seed through the seven maps in order (LocationIsChain, SampleLocations) |
| Fertilizer.ChainAppend | 2023/day-5/src/lib.rs:56-72 | applying a concatenation of maps is applying the first maps and then the rest |
| Fertilizer.ChainUncovered | 2023/day-5/src/lib.rs:56-72 | a number that no triplet of any map covers reaches the end of the chain unchanged |
| Fertilizer.LocationIsChain | 2023/day-5/src/lib.rs:56-72 | the per-seed closure applies the seven maps in order, seed-to-soil first and humidity-to-location last |
| Fertilizer.SeedRangesMeaning | 2023/day-5/src/lib.rs:78-88 | a number is among the reinterpreted seeds exactly when it lies in the half-open range of one start/length pair |
| Fertilizer.SeedRangesLength | 2023/day-5/src/lib.rs:78-88 | the reinterpreted seeds are as many as the pairs' lengths add up to |
| Fertilizer.OddSeedDropped | 2023/day-5/src/lib.rs:78-88 | a trailing unpaired seed number contributes no seeds |
| Fertilizer.ReinterpretedLocations | 2023/day-5/src/lib.rs:78-88 | the locations of every number in the seed ranges (ReinterpretedLocationsMeaning) |
| Fertilizer.ReinterpretedLocationsMeaning | 2023/day-5/src/lib.rs:78-88 | a location is produced exactly when it is the location of some number inside one of the seed ranges |
| Fertilizer.SampleLocations | 2023/day-5/src/lib.rs:316-326 | the sample almanac's seeds 79, 14, 55 and 13 reach locations 82, 43, 86 and 35 |
| MirageMaintenance.NextNumber | 2023/day-9/src/lib.rs:12-19 | `get_next_number`: 0 for an all-zero history, otherwise the last reading plus the next value of the differences; that this extends the history so that its differences extend too is proved in `NextExtends`, `ConstantExtends` and `LinearExtends` |
| MirageMaintenance.PreviousNumber | 2023/day-9/src/lib.rs:21-28 | `get_previous_number`: 0 for an all-zero history, otherwise the first reading minus the previous value of the differences; its meaning is proved in `PreviousExtends` and `PreviousIsNextOfReversed` |
| MirageMaintenance.Diffs | 2023/day-9/src/lib.rs:16 | the differences of neighbouring readings are one fewer than the readings (none for an empty history), so the recursion on them ends |
| MirageMaintenance.ZerosExtendByZero | 2023/day-9/src/lib.rs:13-14 | an all-zero history, the empty one included, extends by 0 at both ends |
| MirageMaintenance.NextExtends | 2023/day-9/src/lib.rs:12-19 | appending the next value to a history that is not all zeros appends the next value of its differences to its differences |
| MirageMaintenance.PreviousExtends | 2023/day-9/src/lib.rs:21-28 | prepending the previous value prepends the previous value of the differences to the differences |
| MirageMaintenance.ConstantExtends | 2023/day-9/src/lib.rs:12-28 | a history of one repeated reading continues with that reading at both ends |
| MirageMaintenance.LinearExtends | 2023/day-9/src/lib.rs:12-28 | a history growing by `b` from `a` continues with `a + b * len` and is preceded by `a - b` |
| MirageMaintenance.NextOfNegated | 2023/day-9/src/lib.rs:12-19 | negating every reading negates the next value |
| MirageMaintenance.DiffsOfReversed | 2023/day-9/src/lib.rs:16-25 | the differences of the reversed history are its differences reversed and negated |
| MirageMaintenance.PreviousIsNextOfReversed | 2023/day-9/src/lib.rs:12-28 | the previous value of a history is the next value of the history read from its end |
| MirageMaintenance.SampleFirst | 2023/day-9/src/lib.rs:60-72 | the sample history `0 3 6 9 12 15` continues with 18 and is preceded by -3 |
| MirageMaintenance.SampleSecond | 2023/day-9/src/lib.rs:60-72 | the sample history `1 3 6 10 15 21` continues with 28 and is preceded by 0 |
| MirageMaintenance.SampleThird | 2023/day-9/src/lib.rs:60-72 | the sample history `10 13 16 21 30 45` continues with 68 and is preceded by 5 |
| CamelCards.CardRank | 2023/day-7/src/lib.rs:14-30 | each card's rank is its position in the declared order Joker, Two, ..., Ace, which the derived `Ord` follows |
| CamelCards.TypeRank | 2023/day-7/src/lib.rs:32-41 | each hand type's rank is its position in the declared order HighCard, ..., FiveOfAKind |
| CamelCards.OrdersFollowDeclaration | 2023/day-7/src/lib.rs:148-170 | the ranks order the cards and types exactly as listed, with no two variants sharing a rank |
| CamelCards.FromCounts | 2023/day-7/src/lib.rs:44-57 | the type named by a sorted list of group sizes, one list per type, `None` for the unreachable panic (FromCountsBijection, FromCountsTotal) |
| CamelCards.FromCountsBijection | 2023/day-7/src/lib.rs:44-57 | every type has exactly one sorted list of group sizes that `from_counts` maps to it |
| CamelCards.FromCountsTotal | 2023/day-7/src/lib.rs:44-57 | `from_counts` names a type exactly for the sorted lists of positive sizes adding up to five, and otherwise reaches `unreachable!` |
| CamelCards.GetCardMap | 2023/day-7/src/lib.rs:64-70 | the map has a key for exactly the cards of the hand, each mapped to how often it occurs |
| CamelCards.SortCountsMeaning | 2023/day-7/src/lib.rs:73 | sorting the counts gives a sorted list with the same counts |
| CamelCards.SumOfPermutation | 2023/day-7/src/lib.rs:73 | a reordering of the counts keeps their sum |
| CamelCards.SortedGroupsMeaning | 2023/day-7/src/lib.rs:73 | the sorted group sizes are positive, one per card present, and add up to the number of cards counted |
| CamelCards.SortedGroupsTop | 2023/day-7/src/lib.rs:73 | the last sorted group size is the size of the largest group |
| CamelCards.GetType | 2023/day-7/src/lib.rs:72-76 | the type of a hand from its sorted group sizes, never the panic (GetTypeMeaning, ShapeDeterminesType) |
| CamelCards.GetTypeMeaning | 2023/day-7/src/lib.rs:72-76 | `get_type` never panics; the type has one group per distinct card and its last group size is the largest group of the hand |
| CamelCards.ShapeDeterminesType | 2023/day-7/src/lib.rs:44-57 | the number of groups and the largest group decide the type |
| CamelCards.JoinJokersMeaning | 2023/day-7/src/lib.rs:86-90 | adding the jokers to the last of sorted counts keeps them sorted, adds the jokers to their sum and changes nothing else |
| CamelCards.GetTypeWithJokerRule | 2023/day-7/src/lib.rs:78-97 | the type with the jokers joined to the largest other group, never the panic (JokerRuleTotal, JokerRuleShape, NoJokersSameType) |
| CamelCards.JokerRuleTotal | 2023/day-7/src/lib.rs:78-97 | the joker rule never panics, and five jokers are five of a kind |
| CamelCards.JokerRuleCounts | 2023/day-7/src/lib.rs:78-90 | with fewer than five jokers the group sizes are the sorted non-joker sizes with every joker joined to the largest |
| CamelCards.JokerRuleShape | 2023/day-7/src/lib.rs:78-97 | under the joker rule the type has one group per distinct non-joker card and its largest group is the largest non-joker group plus all jokers |
| CamelCards.NoJokersSameType | 2023/day-7/src/lib.rs:72-97 | a hand without jokers gets the same type under both rules |
| CamelCards.ParseCard | 2023/day-7/src/lib.rs:100-117 | the card of a letter, `J` the joker exactly under the flag (ParseCardMeaning, ParseCardLetter) |
| CamelCards.ParseCardMeaning | 2023/day-7/src/lib.rs:100-117 | exactly the thirteen card letters parse; `J` is the joker exactly when the flag is set and the jack otherwise |
| CamelCards.ParseCardLetter | 2023/day-7/src/lib.rs:100-117 | a card's letter parses back to the card when the flag matches its `J` |
| CamelCards.ParseHand | 2023/day-7/src/lib.rs:119-126 | five card letters in a row, parsing back to the hand (ParseHandLetters) |
| CamelCards.ParseHandLetters | 2023/day-7/src/lib.rs:119-126 | five card letters parse back to the hand and leave the rest of the input untouched |
| CamelCards.JokerSample32T3K | 2023/day-7/src/lib.rs:195 | `32T3K` is one pair under the joker rule |
| CamelCards.JokerSampleT55J5 | 2023/day-7/src/lib.rs:196 | `T55J5` is four of a kind under the joker rule |
| CamelCards.JokerSampleKK677 | 2023/day-7/src/lib.rs:197 | `KK677` is two pair under the joker rule |
| CamelCards.JokerSampleKTJJT | 2023/day-7/src/lib.rs:198 | `KTJJT` is four of a kind under the joker rule |
| CamelCards.JokerSampleQQQJA | 2023/day-7/src/lib.rs:199 | `QQQJA` is four of a kind under the joker rule |
| CamelCards.JokerSampleAAJJJ | 2023/day-7/src/lib.rs:200 | `AAJJJ` is five of a kind under the joker rule |
| CamelCards.JokerSampleJ67KQ | 2023/day-7/src/lib.rs:201 | `J67KQ` is one pair under the joker rule |
| CamelCards.JokerSample22J33 | 2023/day-7/src/lib.rs:202 | `22J33` is a full house under the joker rule |
| CamelCards.JokerSample32T3KParse | 2023/day-7/src/lib.rs:205-210 | `32T3K` parses with the joker flag into its five cards, nothing left over |
| CamelCards.JokerSampleT55J5Parse | 2023/day-7/src/lib.rs:205-210 | `T55J5` parses with the joker flag, its `J` as the joker |
| CamelCards.JokerSampleKK677Parse | 2023/day-7/src/lib.rs:205-210 | `KK677` parses with the joker flag into its five cards, nothing left over |
| CamelCards.JokerSampleKTJJTParse | 2023/day-7/src/lib.rs:205-210 | `KTJJT` parses with the joker flag, both `J`s as jokers |
| CamelCards.JokerSampleQQQJAParse | 2023/day-7/src/lib.rs:205-210 | `QQQJA` parses with the joker flag, its `J` as the joker |
| CamelCards.JokerSampleAAJJJParse | 2023/day-7/src/lib.rs:205-210 | `AAJJJ` parses with the joker flag, its three `J`s as jokers |
| CamelCards.JokerSampleJ67KQParse | 2023/day-7/src/lib.rs:205-210 | `J67KQ` parses with the joker flag, its `J` as the joker |
| CamelCards.JokerSample22J33Parse | 2023/day-7/src/lib.rs:205-210 | `22J33` parses with the joker flag, its `J` as the joker |
| BridgeRepair.OperatorPermutationsSimple | 2024/rust/day-7/src/lib.rs:27-47 | builds, by recursion and a loop, the operator sequences in the builder's order (each shorter sequence with `Add` then `Multiply` in front), `2^n` of them |
| BridgeRepair.OperatorPermutationsWithConcat | 2024/rust/day-7/src/lib.rs:49-72 | the same with `Add`, `Multiply` and `Concatenate` in front, `3^n` sequences |
| BridgeRepair.PermsLength | 2024/rust/day-7/src/lib.rs:27-72 | an alphabet of `k` operators gives `k^n` sequences of length `n` |
| BridgeRepair.PermsMembers | 2024/rust/day-7/src/lib.rs:27-72 | the sequences produced are exactly the sequences of `n` operators of the alphabet |
| BridgeRepair.PermsDistinct | 2024/rust/day-7/src/lib.rs:27-72 | no operator sequence is produced twice |
| BridgeRepair.ExtendMembers | 2024/rust/day-7/src/lib.rs:34-43 | one round of the builder yields exactly an operator of the alphabet in front of a shorter sequence |
| BridgeRepair.PermsSamplesSimple | 2024/rust/day-7/src/lib.rs:152-165 | the first builder gives `[[]]`, `[[+], [*]]` and the four pairs in the tested order |
| BridgeRepair.PermsSamplesConcat | 2024/rust/day-7/src/lib.rs:167-185 | the second builder gives `[[]]`, the three single operators and the nine pairs in the tested order |
| BridgeRepair.DigitsMeaning | 2024/rust/day-7/src/lib.rs:88 | `ilog10(n) + 1` is the number of decimal digits: `10^(d-1) <= n < 10^d` |
| BridgeRepair.ConcatenateSplits | 2024/rust/day-7/src/lib.rs:88 | concatenating puts `n` in the last digits and the running value before them: the result divided by `10^digits(n)` is the running value, the remainder is `n` |
| BridgeRepair.ConcatenateSamples | 2024/rust/day-7/src/lib.rs:88 | `15 || 6` is 156 and `12 || 345` is 12345 |
| BridgeRepair.EvalLeftToRight | 2024/rust/day-7/src/lib.rs:82-89 | no precedence: the last operator applies to the value of everything before it |
| BridgeRepair.Solves | 2024/rust/day-7/src/lib.rs:74-97 | whether the operators make the equation true, `None` where its assertions fail (SolvesSound, SolvesExact); DoesSolveEquation computes it |
| BridgeRepair.DoesSolveEquation | 2024/rust/day-7/src/lib.rs:74-97 | folds the operators into the running value with the early `false`, and panics (`None`) when the operators do not fit the numbers or `ilog10` gets a number below one |
| BridgeRepair.SolvesSound | 2024/rust/day-7/src/lib.rs:74-97 | an equation reported solved evaluates to the test value, whatever the numbers |
| BridgeRepair.SolvesExact | 2024/rust/day-7/src/lib.rs:91-96 | on positive numbers the early `false` is only a shortcut: the answer is exactly whether the equation evaluates to the test value |
| BridgeRepair.StepGrows | 2024/rust/day-7/src/lib.rs:85-89 | with a positive number no operator lowers a non-negative running value |
| BridgeRepair.ShortcutNeedsPositive | 2024/rust/day-7/src/lib.rs:91-93 | with a zero the shortcut is wrong: `0: 5 2 0` with `+` then `*` evaluates to 0 but is reported unsolved |
| BridgeRepair.SolvesTwo | 2024/rust/day-7/src/lib.rs:74-97 | on two numbers the answer is whether the one operator gives the test value |
| BridgeRepair.CountSolvingCounts | 2024/rust/day-7/src/lib.rs:99-111 | on positive numbers, filtering and counting distinct fitting sequences gives the number of those that solve the equation |
| BridgeRepair.WaysToSolveSimple | 2024/rust/day-7/src/lib.rs:99-104 | the number of operator sequences that solve the equation (WaysToSolveSimpleCounts) |
| BridgeRepair.WaysToSolveSimpleCounts | 2024/rust/day-7/src/lib.rs:99-104 | `ways_to_solve_simple` counts the distinct sequences of additions and multiplications that make the equation true |
| BridgeRepair.WaysToSolveWithConcat | 2024/rust/day-7/src/lib.rs:106-111 | the number of sequences of all three operators that solve the equation (WaysToSolveWithConcatCounts) |
| BridgeRepair.WaysToSolveWithConcatCounts | 2024/rust/day-7/src/lib.rs:106-111 | `ways_to_solve_with_concat` counts the distinct sequences of all three operators that make the equation true |
| BridgeRepair.SampleSimple190 | 2024/rust/day-7/src/lib.rs:190 | `190: 10 19` is solved one way |
| BridgeRepair.SampleSimple3267 | 2024/rust/day-7/src/lib.rs:191 | `3267: 81 40 27` is solved two ways |
| BridgeRepair.SampleConcat156 | 2024/rust/day-7/src/lib.rs:194 | `156: 15 6` is solved one way with concatenation |
| BridgeRepair.SampleConcat192 | 2024/rust/day-7/src/lib.rs:196 | `192: 17 8 14` is solved one way with concatenation |
| RedNosedReports.Sign | 2024/rust/day-2/src/lib.rs:16-24 | the score of one neighbouring pair, 1 rising, 0 equal, -1 falling; one per pair (Signs), their sum deciding a report (ScoreSumTop, ScoreSumBottom) |
| RedNosedReports.Signs | 2024/rust/day-2/src/lib.rs:16-24 | one score per neighbouring pair: none for fewer than two levels, one fewer than the levels otherwise |
| RedNosedReports.ScoreSumTop | 2024/rust/day-2/src/lib.rs:16-26 | pair scores sum to at most their number, and reach it exactly when every pair rises |
| RedNosedReports.ScoreSumBottom | 2024/rust/day-2/src/lib.rs:16-26 | pair scores sum to at least minus their number, and reach it exactly when every pair falls |
| RedNosedReports.RisingMeaning | 2024/rust/day-2/src/lib.rs:16-33 | every pair scoring 1 with a step of 1 to 3 is exactly rising by 1 to 3 throughout |
| RedNosedReports.FallingMeaning | 2024/rust/day-2/src/lib.rs:16-33 | every pair scoring -1 with a step of 1 to 3 is exactly falling by 1 to 3 throughout |
| RedNosedReports.IsReportSafe | 2024/rust/day-2/src/lib.rs:15-34 | safety of a report, holding exactly when its levels only rise or only fall by 1 to 3 (IsReportSafeMeaning) |
| RedNosedReports.IsReportSafeMeaning | 2024/rust/day-2/src/lib.rs:15-34 | `is_report_safe` holds exactly when the levels only rise or only fall, each step by 1 to 3 |
| RedNosedReports.ShortReportsSafe | 2024/rust/day-2/src/lib.rs:21-31 | a report of fewer than two levels has no pairs and is safe |
| RedNosedReports.IsReportSafeWithProblemDampener | 2024/rust/day-2/src/lib.rs:38-67 | the answer is true exactly when the report is safe or safe with some one level taken out |
| RedNosedReports.SafeIsDampenedSafe | 2024/rust/day-2/src/lib.rs:39-41 | a safe report passes the dampened check |
| RedNosedReports.SafeWithoutFirst | 2024/rust/day-2/src/lib.rs:38-67 | a safe report stays safe with its first level taken out |
| RedNosedReports.DampenedSafeMeaning | 2024/rust/day-2/src/lib.rs:38-67 | for a non-empty report, dampened safety is exactly being safe with some one level taken out; the early return is only a shortcut |
| RedNosedReports.Unsafe | 2024/rust/day-2/src/lib.rs:15-34 | one step that is not a rise of 1 to 3 and one that is not a fall of 1 to 3 make a report unsafe |
| RedNosedReports.SampleFirst | 2024/rust/day-2/src/lib.rs:70 | `7 6 4 2 1` is safe |
| RedNosedReports.SampleSecond | 2024/rust/day-2/src/lib.rs:71 | `1 2 7 8 9` is unsafe with or without the dampener |
| RedNosedReports.SampleThird | 2024/rust/day-2/src/lib.rs:72 | `9 7 6 2 1` is unsafe with or without the dampener |
| RedNosedReports.SampleFourth | 2024/rust/day-2/src/lib.rs:73 | `1 3 2 4 5` is unsafe but passes the dampener |
| RedNosedReports.SampleFifth | 2024/rust/day-2/src/lib.rs:74 | `8 6 4 4 1` is unsafe but passes the dampener |
| RedNosedReports.SampleSixth | 2024/rust/day-2/src/lib.rs:75 | `1 3 6 7 9` is safe |
| Text.Split | 2024/rust/day-5/src/lib.rs:16 | `str::split` on one character, whose pieces joined by the separator give the text back (JoinSplit, SplitJoin) |
| Text.SplitJoin | 2024/rust/day-5/src/lib.rs:16 | `str::split` on a character gives back the pieces of a text joined by that character, when no piece holds it |
| Text.JoinSplit | 2024/rust/day-5/src/lib.rs:16 | joining the pieces of a split with the separator gives the text back |
| Text.Lines | 2024/rust/day-5/src/lib.rs:14 | `str::lines` as current Rust has it: `\n` and `\r\n` end a line, a bare `\r` at the end of the text stays; lines written with newlines are read back (LinesUnlines, LinesJoin) |
| Text.LinesUnlines | 2024/rust/day-5/src/lib.rs:14 | `str::lines` reads back plain lines each written with a trailing newline |
| Text.LinesJoin | 2024/rust/day-5/src/lib.rs:14 | `str::lines` reads back plain lines joined by newlines when the last is not empty |
| Text.SplitBlankPiece | 2024/rust/day-5/src/lib.rs:9 | `split("\n\n")` takes off a leading piece with no blank line in it whole |
| Text.SplitBlankNone | 2024/rust/day-5/src/lib.rs:9 | text with no two newlines in a row is one `split("\n\n")` piece |
| Text.ParseUnsigned | 2024/rust/day-5/src/lib.rs:17 | a parsed number lies below the type's bound |
| Text.ShowValue | 2024/rust/day-5/src/lib.rs:17 | the decimal digits of a number have that number as their value |
| Text.ParseShow | 2024/rust/day-5/src/lib.rs:17 | `str::parse` reads back a written number that fits the type |
| PrintQueue.CmpWithRules | 2024/rust/day-5/src/lib.rs:34-42 | `Less` exactly when a rule puts `a` before `b`; `Greater` exactly when none does but one puts `b` before `a` |
| PrintQueue.GreaterFlips | 2024/rust/day-5/src/lib.rs:34-42 | a pair comparing `Greater` compares `Less` the other way round, whatever the rules |
| PrintQueue.CmpAntisymmetric | 2024/rust/day-5/src/lib.rs:34-42 | under rules that never contradict each other, swapping the pages flips the comparison |
| PrintQueue.CmpSelf | 2024/rust/day-5/src/lib.rs:34-42 | a page compares `Equal` to itself unless a rule puts it before itself |
| PrintQueue.IsPageListOrdered | 2024/rust/day-5/src/lib.rs:50-58 | order of a page list, holding exactly when no neighbouring pair compares `Greater` (OrderedMeaning, OrderedByRules) |
| PrintQueue.OrderedMeaning | 2024/rust/day-5/src/lib.rs:50-58 | a page list is in order exactly when no neighbouring pair compares `Greater` |
| PrintQueue.OrderedByRules | 2024/rust/day-5/src/lib.rs:34-58 | a page list is in order exactly when no neighbouring pair is put in the opposite order by a rule alone |
| PrintQueue.OutOfOrder | 2024/rust/day-5/src/lib.rs:50-58 | one neighbouring pair comparing `Greater` puts a list out of order |
| PrintQueue.OrderedPrefix | 2024/rust/day-5/src/lib.rs:50-58 | every prefix of a list in order is in order |
| PrintQueue.OrderPageList | 2024/rust/day-5/src/lib.rs:44-48 | the result is a permutation of the list, in order, and is the list itself when that is already in order |
| PrintQueue.InsertPage | 2024/rust/day-5/src/lib.rs:46 | one sorting round rearranges only the first `i + 1` pages, keeping them as a multiset and leaving them in order, leaves every later page where it was, and moves nothing when the first `i + 1` were already in order |
| PrintQueue.InsertStep | 2024/rust/day-5/src/lib.rs:46 | moving the page one place left past a neighbour that compares `Greater` keeps the pages, keeps both runs beside it in order and leaves the later pages untouched |
| PrintQueue.SampleOrderedFirst | 2024/rust/day-5/src/lib.rs:140 | `75,47,61,53,29` is in order under the test rules |
| PrintQueue.SampleOrderedSecond | 2024/rust/day-5/src/lib.rs:141 | `97,61,53,29,13` is in order under the test rules |
| PrintQueue.SampleOrderedThird | 2024/rust/day-5/src/lib.rs:142 | `75,29,13` is in order under the test rules |
| PrintQueue.SampleUnorderedFirst | 2024/rust/day-5/src/lib.rs:143 | `75,97,47,61,53` is out of order under the test rules |
| PrintQueue.SampleUnorderedSecond | 2024/rust/day-5/src/lib.rs:144 | `61,13,29` is out of order under the test rules |
| PrintQueue.SampleUnorderedThird | 2024/rust/day-5/src/lib.rs:145 | `97,13,75,29,47` is out of order under the test rules |
| PrintQueue.ParseRule | 2024/rust/day-5/src/lib.rs:15-20 | a parsed rule has both pages within `u8` |
| PrintQueue.RuleLineRoundTrip | 2024/rust/day-5/src/lib.rs:15-20 | the rule line is plain and parses back to the rule |
| PrintQueue.ParsePagesShows | 2024/rust/day-5/src/lib.rs:27 | comma-separated written pages parse back to the pages |
| PrintQueue.ListLineRoundTrip | 2024/rust/day-5/src/lib.rs:27 | a page-list line is plain and parses back to its pages |
| PrintQueue.ParseRulesLines | 2024/rust/day-5/src/lib.rs:11-21 | rule lines parse back to their rules, in order |
| PrintQueue.ParseListsLines | 2024/rust/day-5/src/lib.rs:23-28 | page-list lines parse back to their lists, in order |
| PrintQueue.RenderSections | 2024/rust/day-5/src/lib.rs:9 | written input splits at the blank line into the rule lines and the page-list lines |
| PrintQueue.ParseInput | 2024/rust/day-5/src/lib.rs:8-31 | the rules and the page lists of the input, reading back what was written (ParseRender) |
| PrintQueue.ParseRender | 2024/rust/day-5/src/lib.rs:8-31 | `parse_input` reads back any rules (at least one) and non-empty page lists written in the input format |
| BinaryDiagnostic.BitsValueBound | 2021/rust/day-3/src/lib.rs:35-45 | an `n`-bit array's value is below `2^n` |
| BinaryDiagnostic.BitsValueCons | 2021/rust/day-3/src/lib.rs:35-45 | a leading set bit adds `2^k` over the `k` bits after it: the first bit is the most significant |
| BinaryDiagnostic.BitArrayToNumber | 2021/rust/day-3/src/lib.rs:35-45 | adding `2^idx` for each set bit `idx` places from the end gives the big-endian value of the array |
| BinaryDiagnostic.SampleNumbers | 2021/rust/day-3/src/lib.rs:149-161 | `00100`, `11110` and `10110` read as 4, 30 and 22 |
| BinaryDiagnostic.GammaMajority | 2021/rust/day-3/src/lib.rs:50-53 | a gamma bit is set exactly when more than half the rows have that bit set |
| BinaryDiagnostic.XorValue | 2021/rust/day-3/src/lib.rs:58 | `^` on two arrays' values is the value of their bit-by-bit exclusive or |
| BinaryDiagnostic.ComplementValue | 2021/rust/day-3/src/lib.rs:58 | an array and its complement add up to `2^n - 1` |
| BinaryDiagnostic.FindPowerConsumption | 2021/rust/day-3/src/lib.rs:47-59 | the result is the gamma rate, built column by column, times gamma exclusive-or `n` ones |
| BinaryDiagnostic.EpsilonIsComplement | 2021/rust/day-3/src/lib.rs:58 | the epsilon rate is the value of gamma's flipped bits, and gamma plus epsilon is `2^n - 1` |
| BinaryDiagnostic.MostCommonMeaning | 2021/rust/day-3/src/lib.rs:65-70 | the oxygen filter's bit is 1 exactly when ones are at least half the rows, so a tie keeps 1 |
| BinaryDiagnostic.LeastCommonMeaning | 2021/rust/day-3/src/lib.rs:90-95 | the CO2 filter's bit is 1 exactly when ones are fewer than half the rows, so a tie keeps 0 |
| BinaryDiagnostic.KeepBitMembers | 2021/rust/day-3/src/lib.rs:71-75 | a round keeps exactly the rows whose bit in that column is the chosen one |
| BinaryDiagnostic.KeepBitCount | 2021/rust/day-3/src/lib.rs:71-75 | a round keeping 1s keeps as many rows as have the bit set, and one keeping 0s the rest |
| BinaryDiagnostic.FindOxygenGeneratorRating | 2021/rust/day-3/src/lib.rs:61-84 | the loop with its early `break` computes the oxygen filter's survivors, and the result is the value of the single survivor or `None` where the `assert!` fails |
| BinaryDiagnostic.FindCo2ScrubberRating | 2021/rust/day-3/src/lib.rs:86-109 | the loop with its early `break` computes the CO2 filter's survivors, and the result is the value of the single survivor or `None` where the `assert!` fails |
| BinaryDiagnostic.RatingStep | 2021/rust/day-3/src/lib.rs:64-80 | one round filters on the kept bit and stops once one row is left |
| BinaryDiagnostic.RatingFromInput | 2021/rust/day-3/src/lib.rs:71-75 | every surviving row comes from the report |
| BinaryDiagnostic.KeepsHalf | 2021/rust/day-3/src/lib.rs:65-75 | an oxygen round keeps at least half the rows, a CO2 round at most half |
| BinaryDiagnostic.OxygenNonempty | 2021/rust/day-3/src/lib.rs:64-80 | oxygen filtering never empties a nonempty report |
| BinaryDiagnostic.KeepBitDistinct | 2021/rust/day-3/src/lib.rs:71-75 | filtering keeps distinct rows distinct |
| BinaryDiagnostic.OxygenSingle | 2021/rust/day-3/src/lib.rs:64-82 | on distinct rows the oxygen filter ends with exactly one row, as the `assert!` demands |
| BinaryDiagnostic.OxygenSucceeds | 2021/rust/day-3/src/lib.rs:61-84 | a nonempty report of distinct rows always has an oxygen generator rating |
| BinaryDiagnostic.Co2CanEmpty | 2021/rust/day-3/src/lib.rs:86-109 | on `00` and `01` the CO2 filter keeps no row, so the `assert!` fails |
| BinaryDiagnostic.LifeSupportRating | 2021/rust/day-3/src/lib.rs:111-113 | there is a life support rating exactly when both ratings exist |
| BinaryDiagnostic.SampleOxygenRating | 2021/rust/day-3/src/lib.rs:163-171 | the oxygen generator rating of the twelve-row test input is 23 |
| BinaryDiagnostic.SampleCo2Rating | 2021/rust/day-3/src/lib.rs:173-179 | the CO2 scrubber rating of the twelve-row test input is 10 |
| BinaryDiagnostic.SampleLifeSupportRating | 2021/rust/day-3/src/lib.rs:111-113 | the life support rating of the test input is 23 times 10 |
| PointOfIncidence.ParseSingleScan | 2023/rust/day-13/src/lib.rs:9-14 | `parse_single_scan`: one row per line, `#` as rock; that it reads back a rendered scan is proved in `ParseRenderScan` |
| PointOfIncidence.ParseRenderRow | 2023/rust/day-13/src/lib.rs:9-14 | a row written with `#` and `.` is a plain line of the same length and parses back to the row, rock as `true` |
| PointOfIncidence.RenderScan | 2023/rust/day-13/src/lib.rs:23-28 | the rows of a scan written with a newline between each two, read back by `parse_single_scan` (ParseRenderScan) |
| PointOfIncidence.ParseRenderScan | 2023/rust/day-13/src/lib.rs:9-14 | `parse_single_scan` reads back `render_scan`, one row per line, whenever the last row is not empty |
| PointOfIncidence.ParseScans | 2023/rust/day-13/src/lib.rs:16-21 | the scans of the blocks between blank lines, reading back what was written (ParseScansText) |
| PointOfIncidence.ScansTextSplits | 2023/rust/day-13/src/lib.rs:16-21 | the input of several scans splits at its blank lines into exactly one block per scan |
| PointOfIncidence.ParseScansText | 2023/rust/day-13/src/lib.rs:16-21 | `parse_scans` reads back every scan of an input written with a blank line between scans, when no row is empty |
| PointOfIncidence.ZipAllEqualMeaning | 2023/rust/day-13/src/lib.rs:52-66 | zipping and comparing pairs agrees exactly when every index below the shorter length agrees |
| PointOfIncidence.MirroredAtMeaning | 2023/rust/day-13/src/lib.rs:52-59 | a row is mirrored about the gap after `idx` exactly when any two cells at the same distance from the gap, one on each side, are equal |
| PointOfIncidence.IsRowOfSymmetry | 2023/rust/day-13/src/lib.rs:61-66 | `is_row_of_symmetry`: the rows up to the gap, read nearest first, zipped with the rows below are pairwise equal; its meaning as mirror equality up to the nearer edge is proved in `RowSymmetryMeaning` |
| PointOfIncidence.RowSymmetryMeaning | 2023/rust/day-13/src/lib.rs:61-66 | a row line holds exactly when any two rows at the same distance from the gap, one on each side, are equal, up to the nearer edge |
| PointOfIncidence.IsColumnOfSymmetry | 2023/rust/day-13/src/lib.rs:52-59 | a vertical mirror line, holding exactly when every row is mirrored about it (ColumnSymmetryMeaning) |
| PointOfIncidence.ColumnSymmetryMeaning | 2023/rust/day-13/src/lib.rs:52-59 | a column line holds exactly when every row is mirrored about it |
| PointOfIncidence.MismatchesZero | 2023/rust/day-13/src/lib.rs:52-66 | no zipped pair differs exactly when all zipped pairs are equal |
| PointOfIncidence.MismatchesOne | 2023/rust/day-13/src/lib.rs:68-102 | exactly one zipped pair differs when one index below the shorter length differs and every other agrees |
| PointOfIncidence.IsColumnOfSmudgedSymmetry | 2023/rust/day-13/src/lib.rs:68-86 | counting differing mirrored cells row by row and giving up at the second one returns true exactly when the scan has one differing mirrored cell about the column gap |
| PointOfIncidence.IsRowOfSmudgedSymmetry | 2023/rust/day-13/src/lib.rs:88-102 | adding up each mirrored pair of rows' differing cells and giving up past one returns true exactly when the scan has one differing mirrored cell about the row gap |
| PointOfIncidence.ColumnMismatchesZero | 2023/rust/day-13/src/lib.rs:52-86 | no differing mirrored cell about a column gap is the same as plain column symmetry there |
| PointOfIncidence.RowMismatchesZero | 2023/rust/day-13/src/lib.rs:61-102 | on a rectangular scan, no differing mirrored cell about a row gap is the same as plain row symmetry there |
| PointOfIncidence.ColumnSmudgeMeaning | 2023/rust/day-13/src/lib.rs:68-86 | a smudged column line has exactly one row with one differing mirrored cell, and every other row mirrored |
| PointOfIncidence.RowSmudgeMeaning | 2023/rust/day-13/src/lib.rs:88-102 | a smudged row line has exactly one mirrored pair of rows with one differing cell, and every other pair identical |
| PointOfIncidence.Gaps | 2023/rust/day-13/src/lib.rs:47-49 | the gaps yielded are exactly `idx + 1` for each verdict that passes, each within the range |
| PointOfIncidence.GapsIncreasing | 2023/rust/day-13/src/lib.rs:47-49 | the gaps come out in increasing order |
| PointOfIncidence.LinesOfSymmetry | 2023/rust/day-13/src/lib.rs:30-50 | the lines are exactly `idx + 1` for each `idx` in `0..total - 1` whose chosen check passes, in increasing order; the result is missing where the source panics, for an empty scan or columns of an empty first row |
| PointOfIncidence.SampleScan0Lines | 2023/rust/day-13/src/lib.rs:159-199 | the first example scan has a column line after column 4 only and no row line |
| PointOfIncidence.SampleScan1Lines | 2023/rust/day-13/src/lib.rs:159-199 | the second example scan has a row line after row 3 only and no column line |
| TreetopTreeHouse.CountAtLeastZero | 2022/rust/day-8/src/lib.rs:36 | no tree of a line is at least as tall exactly when every tree of it is strictly shorter |
| TreetopTreeHouse.VisibleMeaning | 2022/rust/day-8/src/lib.rs:33-36 | an interior tree is visible exactly when, in one of the four directions, every tree up to the edge is strictly shorter |
| TreetopTreeHouse.TallestVisible | 2022/rust/day-8/src/lib.rs:33-36 | a tree taller than every other tree of the grid is visible |
| TreetopTreeHouse.ClearSight | 2022/rust/day-8/src/lib.rs:20-36 | the four slices and the `any` over them give the tree's visibility verdict |
| TreetopTreeHouse.CheckIfVisibleFromOutside | 2022/rust/day-8/src/lib.rs:15-43 | a fresh `N` by `N` grid whose every cell holds the tree's verdict: edge trees visible, interior trees visible when some line of sight is clear |
| TreetopTreeHouse.FillVisibleRow | 2022/rust/day-8/src/lib.rs:19-39 | one pass of the column loop fills the interior cells of its row and leaves every other cell alone |
| TreetopTreeHouse.VisibleCountLowerBound | 2022/rust/day-8/src/lib.rs:16-19 | the `4 * (N - 1)` edge trees of a grid of at least two rows are all counted as visible |
| TreetopTreeHouse.CountVisibleTrees | 2022/rust/day-8/src/lib.rs:45-51 | the count is the number of `true` cells of the visibility grid |
| TreetopTreeHouse.ViewingDistanceStep | 2022/rust/day-8/src/lib.rs:124-134 | the fold always sees the first tree, and sees past it only when it is shorter than the viewer |
| TreetopTreeHouse.ViewingDistanceMeaning | 2022/rust/day-8/src/lib.rs:121-136 | the viewing distance counts the trees up to and including the first one at least as tall, or all of them when there is none |
| TreetopTreeHouse.ScenicScore | 2022/rust/day-8/src/lib.rs:99-136 | the product of a tree's four viewing distances, 0 exactly on the edge (ScenicScoreSign, SceneAt, ViewingDistanceMeaning) |
| TreetopTreeHouse.ScenicScoreSign | 2022/rust/day-8/src/lib.rs:99-136 | a tree scores 0 exactly when it is on the edge: every interior tree sees at least one tree each way |
| TreetopTreeHouse.SceneAt | 2022/rust/day-8/src/lib.rs:103-136 | the reversed left and upper slices, the right and lower slices and the product of their folds give the tree's scenic score |
| TreetopTreeHouse.FindScenicScores | 2022/rust/day-8/src/lib.rs:98-143 | a fresh `N` by `N` grid holding 0 on the edge and every interior tree's scenic score |
| TreetopTreeHouse.FillScoreRow | 2022/rust/day-8/src/lib.rs:102-139 | one pass of the column loop scores the interior cells of its row and leaves every other cell alone |
| TreetopTreeHouse.SampleVisibilityGrid | 2022/rust/day-8/src/lib.rs:153-179 | the example grid's visibility grid is the one the test expects |
| TreetopTreeHouse.SampleScoreGrid | 2022/rust/day-8/src/lib.rs:186-197 | the example grid's scores are the ones the test expects |
| GearRatios.IsAdjacent | 2023/day-3/src/lib.rs:19-28 | adjacency of two spans, symmetric and holding exactly when some columns of the two are within one line and one column (IsAdjacentSymmetric, IsAdjacentMeaning) |
| GearRatios.IsAdjacentSymmetric | 2023/day-3/src/lib.rs:19-28 | adjacency gives the same answer whichever of the two positions asks |
| GearRatios.FarLinesNotAdjacent | 2023/day-3/src/lib.rs:22-27 | positions two or more lines apart are never adjacent |
| GearRatios.IsAdjacentMeaning | 2023/day-3/src/lib.rs:19-28 | for well-formed spans that do not overlap on one line, `is_adjacent` holds exactly when some column of one is within one line and one column of some column of the other |
| GearRatios.Values | 2023/day-3/src/lib.rs:45-55 | the values kept are the numbers of the kept entries, one for one and in order |
| GearRatios.GetPartNumbers | 2023/day-3/src/lib.rs:44-56 | the numbers touching a symbol, in order (PartNumbersMeaning) |
| GearRatios.PartNumbersMeaning | 2023/day-3/src/lib.rs:44-56 | the part numbers are the numbers at exactly the indices whose position touches some symbol, in increasing index order |
| GearRatios.PartNumbersAt | 2023/day-3/src/lib.rs:44-56 | given the increasing list of indices of the numbers that touch a symbol, the part numbers are the numbers at those indices |
| GearRatios.AdjacentNumbersMeaning | 2023/day-3/src/lib.rs:61-65 | the numbers adjacent to a symbol are those at exactly the indices whose position is adjacent to it, in order |
| GearRatios.GetGearRatios | 2023/day-3/src/lib.rs:58-76 | the products of the two numbers of every gear with exactly two adjacent numbers, in order (GearRatiosMeaning) |
| GearRatios.GearRatiosMeaning | 2023/day-3/src/lib.rs:58-76 | a ratio is produced for exactly the symbols flagged as gears with exactly two adjacent numbers, in order, and each ratio is the product of those two numbers |
| GearRatios.RunEnd | 2023/day-3/src/lib.rs:7 | the end of a run of digits: every column before it is a digit and the column at it is not (or the line has ended) |
| GearRatios.NumberMatchesSound | 2023/day-3/src/lib.rs:83-92 | every `\d+` match is a maximal run of digits on its line, with that run's decimal value, start column and end column; matches come left to right with at least one column between them |
| GearRatios.NumberMatchesComplete | 2023/day-3/src/lib.rs:83-92 | every digit of a line lies inside some `\d+` match |
| GearRatios.SymbolMatchesMeaning | 2023/day-3/src/lib.rs:95-106 | the `[^.0-9]` matches are exactly the characters other than `.` and digits, one column each, left to right, each a gear exactly when it is `*` |
| GearRatios.ParseSchematic | 2023/day-3/src/lib.rs:79-122 | the schematic holds the numbers and the symbols of all lines' matches, each kind in the order the lines and matches come |
| GearRatios.SortObjects | 2023/day-3/src/lib.rs:110-119 | the fold puts every number object, and only those, in the first list and every symbol object in the second, each in the order of the objects |
| GearRatios.ObjectsOnLines | 2023/day-3/src/lib.rs:82-108 | every object collected from the lines is a maximal digit run or a symbol character of its line |
| GearRatios.SortedOnLines | 2023/day-3/src/lib.rs:110-119 | the fold sends numbers only to the numbers and symbols only to the symbols |
| GearRatios.NumbersOfKeeps | 2023/day-3/src/lib.rs:110-119 | the fold keeps every number it meets |
| GearRatios.SymbolsOfKeeps | 2023/day-3/src/lib.rs:110-119 | the fold keeps every symbol it meets |
| GearRatios.ParseSchematicSound | 2023/day-3/src/lib.rs:79-122 | every reported number is a maximal run of digits of its line with that run's value, and every reported symbol is a single non-`.`, non-digit character, a gear exactly when it is `*` |
| GearRatios.ParseSchematicComplete | 2023/day-3/src/lib.rs:79-122 | every digit of the input lies inside a reported number on its line, and every symbol character is reported as a symbol at its column |
| GearRatios.SamplePartTests | 2023/day-3/src/lib.rs:330-338 | in the example schematic every number but 114 and 58 touches a symbol |
| GearRatios.SamplePartNumbers | 2023/day-3/src/lib.rs:330-338 | the example schematic's part numbers are 467, 35, 633, 617, 592, 755, 664 and 598 |
| HydrothermalVenture.Column | 2021/rust/day-5/src/lib.rs:27-30 | a vertical run lists `hi - lo + 1` points, the `k`-th at height `lo + k` |
| HydrothermalVenture.Row | 2021/rust/day-5/src/lib.rs:34-37 | a horizontal run lists `hi - lo + 1` points, the `k`-th at column `lo + k` |
| HydrothermalVenture.GetPointsOnStraightLine | 2021/rust/day-5/src/lib.rs:24-42 | the points of a vertical or horizontal line, `None` for any other (StraightLineDefined, StraightLineMeaning, StraightLineSymmetric) |
| HydrothermalVenture.StraightLineDefined | 2021/rust/day-5/src/lib.rs:24-42 | `get_points_on_straight_line` gives points exactly when the two ends share an `x` or a `y`, and `None` otherwise |
| HydrothermalVenture.StraightLineMeaning | 2021/rust/day-5/src/lib.rs:24-42 | a straight line's points are exactly the integer points between its ends, ends included, one more than their distance, in strictly ascending order |
| HydrothermalVenture.StraightLineSymmetric | 2021/rust/day-5/src/lib.rs:27-37 | swapping the two ends gives the same list |
| HydrothermalVenture.WalkPoint | 2021/rust/day-5/src/lib.rs:57-92 | every point of the diagonal walk lies in the box the two ends span |
| HydrothermalVenture.Walk | 2021/rust/day-5/src/lib.rs:57-92 | the first `k` points of the walk are the points `0, 1, ..., k - 1` diagonal steps from the first end |
| HydrothermalVenture.DiagonalLoopsAsWritten | 2021/rust/day-5/src/lib.rs:50-97 | the four direction loops as written give the full walk, or the `u32` overflow panic exactly when the step after the last point leaves the `u32` range |
| HydrothermalVenture.DiagonalLoop | 2021/rust/day-5/src/lib.rs:50-97 | the walk stopped once a coordinate reaches its end gives the full walk, on every input |
| HydrothermalVenture.GetPointsOnStraightOrDiagonalLines | 2021/rust/day-5/src/lib.rs:44-100 | a straight line's points when there are any, and otherwise the corrected diagonal walk from the first end, which equals what the loops as written give whenever their last step does not overflow (where the source panics, this member still returns the walk) |
| HydrothermalVenture.FullWalkMeaning | 2021/rust/day-5/src/lib.rs:57-92 | the walk starts at the first end, moves one unit in both coordinates toward the second end per step, stays in their box and stops where a coordinate meets the second end's |
| HydrothermalVenture.FullWalkReachesEnd | 2021/rust/day-5/src/lib.rs:57-92 | on a 45-degree line the walk ends exactly at the second end and covers exactly the points of the line |
| HydrothermalVenture.AsWrittenAgrees | 2021/rust/day-5/src/lib.rs:57-92 | wherever the source's loops do not overflow they give the corrected walk |
| HydrothermalVenture.LastStepOverflowsMeaning | 2021/rust/day-5/src/lib.rs:57-92 | the source's loops overflow exactly when a coordinate that reaches its end ends on 0 moving down or on `u32::MAX` moving up |
| HydrothermalVenture.AsWrittenUnderflows | 2021/rust/day-5/src/lib.rs:77-82 | the line `8,0 -> 0,8` of the example input makes the source's walk underflow after `(0, 8)` |
| HydrothermalVenture.CorrectedWalkReachesEnd | 2021/rust/day-5/src/lib.rs:77-82 | the corrected walk on `8,0 -> 0,8` lists the nine points from `(8, 0)` to `(0, 8)` |
| HydrothermalVenture.SampleStraightLines | 2021/rust/day-5/src/lib.rs:141-152 | the three straight-line examples of the tests: two expansions and one `None` |
| HydrothermalVenture.SampleDiagonals | 2021/rust/day-5/src/lib.rs:154-164 | the two diagonal examples of the tests, which the source's loops also give |
| BeaconExclusionZone.ManhattanDistance | 2022/day-15/src/lib.rs:12-14 | `manhattan_distance`: the sum of the absolute coordinate differences; that it is a metric is proved in `DistanceSymmetric` and `DistanceMetric` |
| BeaconExclusionZone.DistanceSymmetric | 2022/day-15/src/lib.rs:11-14 | the taxicab distance does not depend on the order of the two points |
| BeaconExclusionZone.DistanceMetric | 2022/day-15/src/lib.rs:11-14 | the distance is 0 exactly between equal points and obeys the triangle inequality |
| BeaconExclusionZone.GetDist | 2022/day-15/src/lib.rs:46-48 | the taxicab distance from a sensor to its beacon, the radius of its range (ContainsEnds, JustOutsideMeaning) |
| BeaconExclusionZone.Contains | 2022/day-15/src/lib.rs:50-52 | a point no farther from the sensor than its beacon, a range holding the sensor and the beacon (ContainsEnds) |
| BeaconExclusionZone.ContainsEnds | 2022/day-15/src/lib.rs:46-52 | a sensor's range holds the sensor itself and its beacon |
| BeaconExclusionZone.PerimeterStep | 2022/day-15/src/lib.rs:63-82 | each step of the walk adds exactly the point it passes |
| BeaconExclusionZone.PerimeterIsRing | 2022/day-15/src/lib.rs:54-86 | the walk of `4r` steps around the centre visits exactly the points at distance `r` |
| BeaconExclusionZone.LegPoints | 2022/day-15/src/lib.rs:62-82 | the four legs of the walk: up-right from `(sx, sy - r)`, then up-left, down-left and down-right, `r` points each |
| BeaconExclusionZone.GetPointsJustOutsideRange | 2022/day-15/src/lib.rs:54-86 | the four loops insert exactly the points at distance one more than the sensor's beacon distance |
| BeaconExclusionZone.JustOutsideMeaning | 2022/day-15/src/lib.rs:54-86 | the points just outside a sensor's range are exactly the points outside it with a neighbour inside it |
| BeaconExclusionZone.CountFromMeaning | 2022/day-15/src/lib.rs:97-109 | counting column by column gives the number of columns of the range where some sensor covers the cell and no beacon sits |
| BeaconExclusionZone.MinBeaconX | 2022/day-15/src/lib.rs:89-92 | the start of the scanned range is the least beacon `x`: no beacon lies left of it and some beacon lies on it |
| BeaconExclusionZone.MaxBeaconX | 2022/day-15/src/lib.rs:89-92 | the greatest beacon `x`: no beacon lies right of it and some beacon lies on it |
| BeaconExclusionZone.CountOccupiedCellsAtYLevel | 2022/day-15/src/lib.rs:88-110 | the cells of the row between the least beacon column and one and a half times the greatest that some sensor covers and no beacon sits on, `None` on an empty list (CountOccupiedMeaning) |
| BeaconExclusionZone.CountOccupiedMeaning | 2022/day-15/src/lib.rs:88-110 | `count_occupied_cells_at_y_level` panics exactly on an empty list; otherwise it is the number of columns from the least beacon `x` to `max * 15 / 10` (truncated) where some sensor covers the cell and no beacon sits |
| BeaconExclusionZone.OccupiedColumnsMeaning | 2022/day-15/src/lib.rs:99-108 | a counted column lies in the range, holds no beacon and is within some sensor's beacon distance |
| BeaconExclusionZone.InRing | 2022/day-15/src/lib.rs:54-86 | a point at distance `r` from the centre is on the ring |
| BeaconExclusionZone.SampleRingWithin | 2022/day-15/src/lib.rs:222-248 | every point of the ring of radius 4 around the origin is one of the sixteen points of the test |
| BeaconExclusionZone.SampleRingCovers | 2022/day-15/src/lib.rs:222-248 | each of the sixteen points of the test lies on that ring |
| BeaconExclusionZone.SampleJustOutside | 2022/day-15/src/lib.rs:222-248 | a sensor at the origin with its beacon at `(3, 0)` has exactly the sixteen points of the test just outside its range |
| BoilingBoulders.AdjacentPoints | 2022/day-18/src/lib.rs:25-36 | the six face neighbours of a point, exactly the points at distance 1 (AdjacentPointsMeaning, AdjacentSymmetric) |
| BoilingBoulders.AdjacentPointsMeaning | 2022/day-18/src/lib.rs:25-36 | the six neighbours are pairwise distinct and are exactly the points at taxicab distance 1 |
| BoilingBoulders.AdjacentSymmetric | 2022/day-18/src/lib.rs:25-36 | `q` neighbours `p` exactly when `p` neighbours `q` |
| BoilingBoulders.FindTotalSurfaceArea | 2022/day-18/src/lib.rs:38-43 | the count of faces whose neighbour is not a cube, at most six per cube and exactly six for apart cubes (FreeFacesBound, ApartArea) |
| BoilingBoulders.FreeFacesBound | 2022/day-18/src/lib.rs:38-43 | the surface area is at most six per listed cube |
| BoilingBoulders.LoneCubeFaces | 2022/day-18/src/lib.rs:38-43 | a cube none of whose neighbours is occupied has all six faces uncovered |
| BoilingBoulders.ApartArea | 2022/day-18/src/lib.rs:38-43 | cubes that pairwise do not touch give a surface area of six per cube |
| BoilingBoulders.OneCoveredFace | 2022/day-18/src/lib.rs:38-43 | a cube with exactly one occupied neighbour contributes five faces |
| BoilingBoulders.TouchingPairArea | 2022/day-18/src/lib.rs:38-43 | any two cubes side by side along `x` have a surface area of 10 |
| BoilingBoulders.SampleTotalArea | 2022/day-18/src/lib.rs:151-154 | the test's cubes `(1,1,1)` and `(2,1,1)` have a surface area of 10 |
| BoilingBoulders.ExtendFlood | 2022/day-18/src/lib.rs:65-84 | flooding the filtered neighbours of a flooded point adds only dry in-box air, leaves none of that point's in-box air neighbours dry, and keeps every flooded point reachable from the origin |
| BoilingBoulders.PassStepNone | 2022/day-18/src/lib.rs:66-81 | a point with no floodable neighbour is visited without changing the flood or `extended` |
| BoilingBoulders.PassStepMore | 2022/day-18/src/lib.rs:66-84 | a point with floodable neighbours grows the flood, sets `extended`, and leaves strictly fewer dry points in the box |
| BoilingBoulders.Visit | 2022/day-18/src/lib.rs:65-85 | one iteration of the pass adds to the flood exactly the in-box air neighbours of the point (the filter's test against the current flood only skips those already in), and keeps the pass invariant with the point added to the visited ones |
| BoilingBoulders.PassLoopStep | 2022/day-18/src/lib.rs:65-85 | after each visit the flood is the flood at the start of the pass plus the in-box air neighbours of the points visited so far |
| BoilingBoulders.SpreadAdd | 2022/day-18/src/lib.rs:65-85 | visiting one more point adds exactly its in-box air neighbours to what the pass has spread |
| BoilingBoulders.FloodableAdds | 2022/day-18/src/lib.rs:66-79 | adding the neighbours that pass the filter (not a cube, not yet flooded, in the box) to the flood gives the flood plus all the point's in-box air neighbours |
| BoilingBoulders.FloodPass | 2022/day-18/src/lib.rs:61-85 | a pass over the points flooded at its start, in any order, ends with exactly those points plus their in-box air neighbours; every one of them then has no dry in-box air neighbour; `extended` holds exactly when the flood grew, and then the dry part of the box shrank |
| BoilingBoulders.Flood | 2022/day-18/src/lib.rs:59-90 | the loop stops, and its result holds the origin, only in-box air, every point reachable from the origin through flooded points, and no dry in-box air next to a flooded point |
| BoilingBoulders.RootedWithin | 2022/day-18/src/lib.rs:59-90 | a flood reached from the origin lies inside every closed set that holds the origin |
| BoilingBoulders.FloodUnique | 2022/day-18/src/lib.rs:59-90 | any two results of the flood are equal, so the order in which the `HashSet` is visited does not matter |
| BoilingBoulders.MaxCoord | 2022/day-18/src/lib.rs:47-49 | the result bounds the chosen coordinate of every cube and is attained by one of them |
| BoilingBoulders.BoxCells | 2022/day-18/src/lib.rs:93-99 | the nested ranges list exactly the points of the box from the origin to the far corner |
| BoilingBoulders.FindExteriorSurfaceArea | 2022/day-18/src/lib.rs:45-104 | an empty list panics; otherwise the result is the total area less the area of the dry air in the box, for a flood of the box from the origin |
| BoilingBoulders.ExteriorArea | 2022/day-18/src/lib.rs:92-103 | the total area less the area of the dry air in the box, the whole area when no air stays dry (NoPocketsExterior) |
| BoilingBoulders.NoPocketsExterior | 2022/day-18/src/lib.rs:92-103 | when the flood leaves no dry air in the box, the exterior area is the whole surface area |
| BoilingBoulders.RayFlooded | 2022/day-18/src/lib.rs:59-90 | a closed flood reaches every point of a straight run of in-box air that starts at a flooded point |
| BoilingBoulders.PlaneFlooded | 2022/day-18/src/lib.rs:59-90 | a closed flood that reaches `(0, 0, c)` reaches every in-box point of the plane `z = c` when no cube lies in it |
| BoilingBoulders.SampleAirFlooded | 2022/day-18/src/lib.rs:156-159 | in the box of the two test cubes, every air point is reached by a closed flood from the origin |
| BoilingBoulders.SampleNoPockets | 2022/day-18/src/lib.rs:156-159 | any flood of the two test cubes' box leaves no air dry |
| BoilingBoulders.SampleCorner | 2022/day-18/src/lib.rs:47-49 | the box of the two test cubes reaches `(3, 2, 2)` |
| BoilingBoulders.TouchingPairExterior | 2022/day-18/src/lib.rs:92-103 | two cubes side by side whose box has no dry air have an exterior area of 10 |
| BoilingBoulders.SampleExteriorArea | 2022/day-18/src/lib.rs:156-159 | the test's cubes `(1,1,1)` and `(2,1,1)` have an exterior area of 10 for any flood of their box, which with FindExteriorSurfaceArea's contract gives the test's answer |
| ResonantCollinearity.RowAntennasMeaning | 2024/rust/day-8/src/lib.rs:14-21 | scanning one line adds to a frequency's list exactly the places of that frequency in the line, and creates a key exactly for each frequency the line shows |
| ResonantCollinearity.AntennasMeaning | 2024/rust/day-8/src/lib.rs:11-22 | a place is listed under `c` exactly when `c` is a digit or letter shown there, and `c` has a key exactly when it appears on some line |
| ResonantCollinearity.RowAntennasOrdered | 2024/rust/day-8/src/lib.rs:13-21 | pushing one line's places keeps every list in reading order and before the end of that line |
| ResonantCollinearity.AntennasOrdered | 2024/rust/day-8/src/lib.rs:13-22 | every list is in strictly increasing reading order, so it has no repeats, and lies within the scanned lines |
| ResonantCollinearity.Parse | 2024/rust/day-8/src/lib.rs:7-25 | the bounds and the antennas of the map, `None` on no lines; ParseMap computes it, and AntennasMeaning and ParsedWithinBounds give its meaning |
| ResonantCollinearity.ParseMap | 2024/rust/day-8/src/lib.rs:7-25 | no lines is the panic of `unwrap`; otherwise the bounds are the first line's length and the number of lines, with the antennas grouped as AntennasMeaning describes |
| ResonantCollinearity.ParsedWithinBounds | 2024/rust/day-8/src/lib.rs:7-25 | on a rectangular map every parsed antenna lies within the parsed bounds |
| ResonantCollinearity.SimplePairMeaning | 2024/rust/day-8/src/lib.rs:35-49 | the two nodes of a pair are exactly the on-map points in line with both antennas and twice as far from one as from the other |
| ResonantCollinearity.SimplePairSymmetric | 2024/rust/day-8/src/lib.rs:35-49 | swapping the two antennas gives the same nodes |
| ResonantCollinearity.RowMeaning | 2024/rust/day-8/src/lib.rs:34-50 | the inner loop over `j > idx` collects exactly the nodes of the pairs `(idx, j)` it visits |
| ResonantCollinearity.PairsMeaning | 2024/rust/day-8/src/lib.rs:33-51 | the two loops collect exactly the nodes of the pairs `i < j` of the list |
| ResonantCollinearity.AddSimplePair | 2024/rust/day-8/src/lib.rs:35-49 | one iteration inserts the pair's nodes that are on the map and nothing else |
| ResonantCollinearity.FindSimpleAntinodes | 2024/rust/day-8/src/lib.rs:27-54 | the result is the union over all pairs `idx < j` of their nodes on the map |
| ResonantCollinearity.SimpleAntinodesMeaning | 2024/rust/day-8/src/lib.rs:27-54 | a point is returned exactly when some pair of the list has it as a simple antinode, so every returned point is on the map |
| ResonantCollinearity.RunBound | 2024/rust/day-8/src/lib.rs:71-95 | a nonzero step leaves the map after a number of steps bounded by the map's size and the start, so each stepping loop ends |
| ResonantCollinearity.RunMeaning | 2024/rust/day-8/src/lib.rs:71-95 | a stepping loop adds exactly the points `a + m*d` for which every step up to `m` stays on the map |
| ResonantCollinearity.AddRun | 2024/rust/day-8/src/lib.rs:71-95 | the stepping `loop` ends and adds exactly the run of on-map steps |
| ResonantCollinearity.AddComplexPair | 2024/rust/day-8/src/lib.rs:64-95 | one iteration inserts both antennas and the two runs outward, for distinct antennas |
| ResonantCollinearity.FindComplexAntinodes | 2024/rust/day-8/src/lib.rs:56-100 | for a list without repeats, the result is the union over all pairs `idx < j` of both antennas and the two runs |
| ResonantCollinearity.ComplexPairOnLine | 2024/rust/day-8/src/lib.rs:64-95 | every point a pair contributes is the first antenna plus a whole multiple of the difference |
| ResonantCollinearity.ComplexPairComplete | 2024/rust/day-8/src/lib.rs:64-95 | with both antennas on the map, every on-map point at a whole multiple of the difference is contributed, since the map is convex |
| ResonantCollinearity.ComplexPairMeaning | 2024/rust/day-8/src/lib.rs:64-95 | with both antennas on the map, a pair contributes exactly the on-map points of their line at whole multiples of the difference |
| ResonantCollinearity.ComplexAntinodesMeaning | 2024/rust/day-8/src/lib.rs:56-100 | for on-map antennas without repeats, a point is returned exactly when it is on the map and on the line of some pair, so every returned point is on the map |
| ResonantCollinearity.Between | 2024/rust/day-8/src/lib.rs:75 | a step count between two on-map step counts lands on the map |
| CeresSearch.Offset | 2024/rust/day-4/src/lib.rs:31-42 | the step of a direction, the eight nonzero unit steps, one per direction (OffsetMeaning) |
| CeresSearch.OffsetMeaning | 2024/rust/day-4/src/lib.rs:31-42 | the offsets are exactly the eight nonzero unit steps (each coordinate in -1..1), and different directions have different offsets |
| CeresSearch.AllDirectionsComplete | 2024/rust/day-4/src/lib.rs:17-28 | `Direction::all` lists every direction, and none twice |
| CeresSearch.ScanXmas | 2024/rust/day-4/src/lib.rs:53-77 | the scan from one cell in one direction, succeeding exactly when the four cells along it exist and spell `XMAS` (ScanXmasMeaning) |
| CeresSearch.ScanXmasMeaning | 2024/rust/day-4/src/lib.rs:53-77 | a scan succeeds iff the cells 0, 1, 2 and 3 steps along the direction all exist and spell `XMAS`; a step off the grid (including below 0) fails it |
| CeresSearch.ScanXmasStart | 2024/rust/day-4/src/lib.rs:53-77 | a successful scan starts on an `X` inside the grid |
| CeresSearch.Matches | 2024/rust/day-4/src/lib.rs:86-90 | the directions in which an XMAS starts at a place, with that place (MatchesMeaning) |
| CeresSearch.MatchesMeaning | 2024/rust/day-4/src/lib.rs:86-90 | the `filter_map` over the directions keeps exactly the directions whose scan succeeds, paired with the starting place, without repeats |
| CeresSearch.FindAllXmases | 2024/rust/day-4/src/lib.rs:80-95 | the nested loops collect the matches of every `X` cell, row by row |
| CeresSearch.XmasesMeaning | 2024/rust/day-4/src/lib.rs:80-95 | a place and direction is reported iff an XMAS starts there in that direction, and no pair is reported twice, so the count is the number of XMASes |
| CeresSearch.ScanXMas | 2024/rust/day-4/src/lib.rs:101-127 | the scan centred on one cell, succeeding exactly for an `A` whose two diagonals read `MAS` either way round (ScanXMasInterior, MasPairSymmetric) |
| CeresSearch.ScanXMasInterior | 2024/rust/day-4/src/lib.rs:101-127 | an X-MAS centre is an `A` with a row above and below and a column on each side |
| CeresSearch.MasPairSymmetric | 2024/rust/day-4/src/lib.rs:114-125 | a diagonal matches with its ends either way round, and only when one end is `M` and the other `S` |
| CeresSearch.FindAllXMases | 2024/rust/day-4/src/lib.rs:130-142 | the nested loops collect every cell whose X-MAS scan succeeds, in reading order |
| CeresSearch.XMasesMeaning | 2024/rust/day-4/src/lib.rs:130-142 | a place is reported iff it centres an X-MAS, in strictly increasing reading order, hence once |
| CosmicExpansion.ParseRowsShown | 2023/rust/day-11/src/lib.rs:15-30 | a row pattern match takes the longest run of `.` and `#`, and the list goes on only where a newline is followed by another such run |
| CosmicExpansion.ParseRender | 2023/rust/day-11/src/lib.rs:15-30 | round trip: every non-empty universe of non-empty rows is read back from its image, leaving untouched any rest where the list stops (such as a final newline) |
| CosmicExpansion.ParseUniverse | 2023/rust/day-11/src/lib.rs:15-30 | the universe parser, failing exactly when the input does not start with a row and otherwise consuming exactly the rows' image (ParseUniverseMeaning) |
| CosmicExpansion.ParseUniverseMeaning | 2023/rust/day-11/src/lib.rs:15-30 | the parser fails iff the input does not start with `.` or `#`; on success the rows are non-empty, the consumed text is exactly their image, and the rest starts with no row |
| CosmicExpansion.ParseSample | 2023/rust/day-11/src/lib.rs:68-107 | a small image with a trailing newline parses to its rows with `#` as `true`, leaving the newline, as the test expects of the ten-row example |
| CosmicExpansion.ColumnEmptyMeaning | 2023/rust/day-11/src/lib.rs:39-41 | a column scan says empty iff every row reaches the column without a galaxy there, says non-empty only on a galaxy, and panics only on a row too short |
| CosmicExpansion.ColumnsMeaning | 2023/rust/day-11/src/lib.rs:39-41 | the column list is increasing and holds exactly the empty columns, and it exists whenever every row is as wide as the range scanned |
| CosmicExpansion.RowsColsToCopy | 2023/rust/day-11/src/lib.rs:32-44 | the indices of the empty rows and columns, or the panic on an empty universe or a short row (RowsColsToCopyMeaning) |
| CosmicExpansion.RowsColsToCopyMeaning | 2023/rust/day-11/src/lib.rs:32-44 | panics iff the universe is empty or a column scan meets a short row (never for a rectangular universe); otherwise both lists are increasing and name exactly the empty rows and the empty columns of the first row's width |
| CosmicExpansion.ManhattanDistance | 2023/rust/day-11/src/lib.rs:46-48 | the taxicab distance of two places, a metric with unit steps (ManhattanMetric, ManhattanStep) |
| CosmicExpansion.ManhattanMetric | 2023/rust/day-11/src/lib.rs:46-48 | the distance is zero exactly between equal points, symmetric, and obeys the triangle inequality |
| CosmicExpansion.ManhattanStep | 2023/rust/day-11/src/lib.rs:46-48 | moving one cell along either axis changes the distance by exactly one |
| CosmicExpansion.ManhattanSamples | 2023/rust/day-11/src/lib.rs:110-116 | the four tested distances are 9, 15, 17 and 5 |
| HandyHaversacks.Backwards | 2020/rust/day-7/src/lib.rs:18-29 | the map from each colour to the colours that list it (BackwardsMeaning); BuildBackwards computes it |
| HandyHaversacks.BuildBackwards | 2020/rust/day-7/src/lib.rs:18-29 | the nested loops build `backwards_map` as `Backwards` of the rules |
| HandyHaversacks.RecordMeaning | 2020/rust/day-7/src/lib.rs:21-28 | recording one rule adds its colour to the containers of exactly the colours it lists, and no entry is ever empty |
| HandyHaversacks.BackwardsMeaning | 2020/rust/day-7/src/lib.rs:18-29 | `backwards_map` maps each colour to exactly the colours of the rules that list it |
| HandyHaversacks.BackwardsKeys | 2020/rust/day-7/src/lib.rs:34 | the queried colour has an entry (so `unwrap` succeeds) iff some rule lists it |
| HandyHaversacks.WithinStep | 2020/rust/day-7/src/lib.rs:45-56 | a colour that directly holds a colour that is, or can hold, the target can itself hold the target |
| HandyHaversacks.WithinOuter | 2020/rust/day-7/src/lib.rs:45-56 | only a colour with a rule can hold anything |
| HandyHaversacks.ExploredBound | 2020/rust/day-7/src/lib.rs:33-64 | `new_map` only ever has keys among the rules' colours and the target, which bounds the exploration |
| HandyHaversacks.AddParents | 2020/rust/day-7/src/lib.rs:45-57 | the loop over one reachable set gives every container an entry, adds only unexplored entries and changes no existing one |
| HandyHaversacks.ExploreOne | 2020/rust/day-7/src/lib.rs:44-59 | exploring one listed colour keeps the invariant and covers its containers |
| HandyHaversacks.ExploreRound | 2020/rust/day-7/src/lib.rs:36-64 | one turn of the `while` keeps the invariant and strictly enlarges the set of explored keys |
| HandyHaversacks.MarkExplored | 2020/rust/day-7/src/lib.rs:61-63 | marking sets exactly the listed entries explored and keeps their sets |
| HandyHaversacks.ExploredAll | 2020/rust/day-7/src/lib.rs:66-71 | once every entry is explored, the union of the recorded sets is exactly the set of colours that can eventually hold the target |
| HandyHaversacks.HowManyCanContain | 2020/rust/day-7/src/lib.rs:16-72 | panics iff no rule lists the colour; otherwise the count is the number of distinct colours that can eventually hold it |
| HandyHaversacks.Weight | 2020/rust/day-7/src/lib.rs:93-97 | the sum of `num * (1 + count(inner))` over a rule's contents, unchanged by counts learned later (WeightExtends) |
| HandyHaversacks.WeightExtends | 2020/rust/day-7/src/lib.rs:93-97 | counts learned in later rounds do not change the sum over contents already resolved |
| HandyHaversacks.Round | 2020/rust/day-7/src/lib.rs:83-99 | one round's new counts: exactly the resolvable rules' colours, each with its weight (RoundMeaning, RoundGrows) |
| HandyHaversacks.RoundMeaning | 2020/rust/day-7/src/lib.rs:83-99 | a round adds exactly the colours of resolvable rules, none already known, each with the weight of a rule for it; it adds nothing iff no rule is resolvable |
| HandyHaversacks.RoundGrows | 2020/rust/day-7/src/lib.rs:79-102 | a round that resolves something strictly grows the known map and keeps it within the rules' colours |
| HandyHaversacks.ResolveRound | 2020/rust/day-7/src/lib.rs:80-99 | the filtered loop over the rules builds `temp_map` as `Round` |
| HandyHaversacks.ResolveFrom | 2020/rust/day-7/src/lib.rs:79-102 | the rounds of the `while` until every rule has a count, or `None` for a round that adds nothing (ResolveFromMeaning); Resolve performs it |
| HandyHaversacks.Resolve | 2020/rust/day-7/src/lib.rs:76-102 | the `while` ends with the counts `ResolveFrom` gives, or stalls (`None`) where the source loops forever |
| HandyHaversacks.Inside | 2020/rust/day-7/src/lib.rs:75-105 | the resolved count of bags inside a colour, or the panic or the endless loop (InsideMeaning); HowManyInside computes it |
| HandyHaversacks.HowManyInside | 2020/rust/day-7/src/lib.rs:75-105 | the result is `Inside`: the resolved count of the colour, a panic when it has no rule, or no end |
| HandyHaversacks.SolvedStep | 2020/rust/day-7/src/lib.rs:83-101 | each round keeps every resolved colour grounded in a rule whose inner colours were resolved in earlier rounds, each colour resolved once |
| HandyHaversacks.ColoursCount | 2020/rust/day-7/src/lib.rs:79 | there are at most as many colours as rules, and as many only when no colour has two rules |
| HandyHaversacks.ChainLevels | 2020/rust/day-7/src/lib.rs:83-101 | along a containment chain among resolved colours the resolution round strictly falls |
| HandyHaversacks.ResolveFromMeaning | 2020/rust/day-7/src/lib.rs:79-102 | a finished resolution has counts for exactly the rule colours, one rule per colour, every count equal to its rule's sum, and no cycle |
| HandyHaversacks.InsideMeaning | 2020/rust/day-7/src/lib.rs:75-105 | if the loop finishes, colours are distinct, acyclic and without dangling references, each count is the sum of `num * (1 + count(inner))`, and the answer panics iff the colour has no rule |
| RockPaperScissors.Compare | 2022/day-2/src/lib.rs:10-32 | the ordering of two shapes on the cycle Rock, Paper, Scissors (CompareMeaning, CompareAntisymmetric, CompareCyclic) |
| RockPaperScissors.CompareMeaning | 2022/day-2/src/lib.rs:10-32 | a shape compares equal only to itself, greater than the shape before it on the cycle Rock, Paper, Scissors and less than the one after |
| RockPaperScissors.CompareAntisymmetric | 2022/day-2/src/lib.rs:14-30 | `a < b` exactly when `b > a` |
| RockPaperScissors.CompareCyclic | 2022/day-2/src/lib.rs:14-30 | Rock < Paper < Scissors < Rock, so the ordering is not transitive |
| RockPaperScissors.ShapeFromCharMeaning | 2022/day-2/src/lib.rs:40-51 | A/X decode to Rock, B/Y to Paper, C/Z to Scissors, and every other letter panics |
| RockPaperScissors.WinTypeFromCharMeaning | 2022/day-2/src/lib.rs:71-82 | X, Y, Z decode to lose, draw, win, and every other letter panics |
| RockPaperScissors.RawScore | 2022/day-2/src/lib.rs:54-62 | the points of a shape, between 1 and 3 (RawScoreMeaning gives each) |
| RockPaperScissors.RawScoreMeaning | 2022/day-2/src/lib.rs:54-62 | Rock, Paper, Scissors score 1, 2, 3, distinct scores for distinct shapes |
| RockPaperScissors.WinningShapeAgainst | 2022/day-2/src/lib.rs:85-102 | the one shape that gets the wanted outcome against the opponent's (WinningShapeMeaning) |
| RockPaperScissors.WinningShapeMeaning | 2022/day-2/src/lib.rs:85-102 | the chosen shape gets the wanted outcome against the opponent's, and is the only shape that does |
| SonarSweep.GapsMeaning | 2021/day-1/src/lib.rs:13-24 | the reference count is the number of positions `i` with `v[i + k] > v[i]` |
| SonarSweep.CountIncreasesInVec | 2021/day-1/src/lib.rs:13-24 | the number of increases from one depth to the next, `None` on an empty vector (CountIncreasesMeaning) |
| SonarSweep.CountIncreasesMeaning | 2021/day-1/src/lib.rs:13-24 | the fold counts the positions `i >= 1` with `v[i] > v[i - 1]`, and panics exactly on an empty vector |
| SonarSweep.CountIncreasingDepthDifferences | 2021/day-1/src/lib.rs:26-29 | part one on the parsed depths: the number of depth increases, `None` on an empty report (CountDepthsMeaning) |
| SonarSweep.CountDepthsMeaning | 2021/day-1/src/lib.rs:26-29 | part one panics only on an empty report and otherwise counts the depth increases |
| SonarSweep.WindowSumsMeaning | 2021/day-1/src/lib.rs:33-36 | one sum per window of three consecutive depths (`len - 2` of them, none for fewer than three depths), absent exactly when some window sum overflows `u32` |
| SonarSweep.WindowGaps | 2021/day-1/src/lib.rs:31-38 | the window sums increase exactly as often as depths three apart do |
| SonarSweep.CountIncreasingWindowSums | 2021/day-1/src/lib.rs:31-38 | part two on the parsed depths: the number of increasing three-depth windows, `None` where the source panics (CountWindowsMeaning) |
| SonarSweep.CountWindowsMeaning | 2021/day-1/src/lib.rs:31-38 | part two panics exactly on fewer than three depths or an overflowing window, and otherwise counts the `i` with `v[i + 3] > v[i]` |
| CampCleanup.ParseSingleRange | 2022/rust/day-4/src/lib.rs:7-13 | the range written `a-b`, which reads back what was written (ParseShowRange) |
| CampCleanup.ParseShowRange | 2022/rust/day-4/src/lib.rs:7-13 | `a-b` written from a `u32` range reads back as that range |
| CampCleanup.ParseRanges | 2022/rust/day-4/src/lib.rs:15-21 | the pair of ranges written `a-b,c-d`, which reads back what was written (ParseShowRanges) |
| CampCleanup.ParseShowRanges | 2022/rust/day-4/src/lib.rs:15-21 | `a-b,c-d` written from two ranges reads back as the pair |
| CampCleanup.FullyContainsOther | 2022/rust/day-4/src/lib.rs:23-26 | containment of one range in the other, as sets of sections (FullyContainsMeaning) |
| CampCleanup.FullyContainsMeaning | 2022/rust/day-4/src/lib.rs:23-26 | one range lies in the other's bounds, or one of them is empty, exactly when every element of one is in the other |
| CampCleanup.RangesOverlap | 2022/rust/day-4/src/lib.rs:28-31 | `ranges_overlap`: some section of either range lies in the other; that this is a comparison of the ends is proved in `RangesOverlapMeaning` |
| CampCleanup.RangesOverlapMeaning | 2022/rust/day-4/src/lib.rs:28-31 | the ranges share an element exactly when both are non-empty and neither ends before the other starts |
| CampCleanup.Symmetric | 2022/rust/day-4/src/lib.rs:23-31 | both predicates ignore the order of the pair |
| CampCleanup.ContainsOverlaps | 2022/rust/day-4/src/lib.rs:23-31 | full containment of non-empty ranges implies overlap |
| CampCleanup.PredicateSamples | 2022/rust/day-4/src/lib.rs:53-72 | the pairs of the tests are contained and overlap as the tests assert |
| RucksackReorganization.TypesFromRucksack | 2022/rust/day-3/src/lib.rs:7-13 | the two halves of a rucksack, which concatenate back to it (TypesMeaning) |
| RucksackReorganization.TypesMeaning | 2022/rust/day-3/src/lib.rs:7-13 | the halves concatenate back to the rucksack, the first holding `len / 2` items |
| RucksackReorganization.MismatchedType | 2022/rust/day-3/src/lib.rs:15-18 | the first item of the first half also in the second, `None` when they share nothing (MismatchedTypeMeaning) |
| RucksackReorganization.MismatchedTypeMeaning | 2022/rust/day-3/src/lib.rs:15-18 | the result is the first item of the first half that is in the second half, and `None` exactly when the halves share nothing |
| RucksackReorganization.MismatchedTypeFromRucksack | 2022/rust/day-3/src/lib.rs:20-23 | the item type in both halves of a rucksack (MismatchedFromRucksackMeaning) |
| RucksackReorganization.MismatchedFromRucksackMeaning | 2022/rust/day-3/src/lib.rs:20-23 | a rucksack's mismatch occurs in both halves, and is missing exactly when the halves share nothing |
| RucksackReorganization.SkipMissing | 2022/rust/day-3/src/lib.rs:15-18 | items of the first half absent from the second are passed over in order |
| RucksackReorganization.MismatchedSample | 2022/rust/day-3/src/lib.rs:59 | the halves of the first test rucksack share `p` |
| RucksackReorganization.CharToPriority | 2022/rust/day-3/src/lib.rs:25-31 | the priority of a letter, `None` where the source is unreachable (PriorityMeaning, PriorityCharMeaning) |
| RucksackReorganization.PriorityMeaning | 2022/rust/day-3/src/lib.rs:25-31 | letters a–z get 1–26 and A–Z get 27–52, every other character panics, and the letter is recovered from its priority |
| RucksackReorganization.PriorityCharMeaning | 2022/rust/day-3/src/lib.rs:25-31 | every priority from 1 to 52 belongs to a letter |
| RucksackReorganization.PrioritySamples | 2022/rust/day-3/src/lib.rs:67-75 | the priorities of the tests |
| TobogganTrajectory.MovedAtLeast | 2020/day-3/src/lib.rs:30-41 | moving down at least one row per step, step `k` is at least `k` rows down, so the loop ends |
| TobogganTrajectory.TreesBeforeNext | 2020/day-3/src/lib.rs:36-38 | one more step adds one to the count exactly when it lands on a tree |
| TobogganTrajectory.TreeStepsBound | 2020/day-3/src/lib.rs:36-40 | the count never exceeds the number of steps that land on a row, which is at most the number of rows |
| TobogganTrajectory.CountCollisions | 2020/day-3/src/lib.rs:25-44 | the count is the number of steps `k` that land on a tree at row `k * down`, column `k * across` wrapped to the first row's width; a panic exactly on an empty map, an empty first row or a row too short for its wrapped column |
| TuningTrouble.UniqueCountMeaning | 2022/rust/day-6/src/lib.rs:14 | a window has as many unique characters as its length exactly when no character repeats |
| TuningTrouble.FindUniqueSlice | 2022/rust/day-6/src/lib.rs:10-20 | the result is `i + N` for the least `i` whose window is a marker, so at least `N`; a panic exactly when no window is a marker |
| TuningTrouble.MarkerMeaning | 2022/rust/day-6/src/lib.rs:13-15 | a window is a marker exactly when its characters are all different |
| TuningTrouble.Sample | 2022/rust/day-6/src/lib.rs:10-20 | a stream starting `mjqjpqm` has its first four-character marker end after seven characters |
| BinaryBoarding.FromStrRadix2 | 2020/rust/day-5/src/lib.rs:6-14 | a parsed value is below 2^16 |
| BinaryBoarding.BinValueBound | 2020/rust/day-5/src/lib.rs:6-14 | a binary numeral of n digits reads as less than 2^n |
| BinaryBoarding.BinValueConcat | 2020/rust/day-5/src/lib.rs:6-14 | the value of two numerals side by side is the first shifted by the length of the second plus the second |
| BinaryBoarding.GetSeatId | 2020/rust/day-5/src/lib.rs:5-15 | the seat id of a boarding pass, row * 8 + column for every well-formed pass, `None` exactly where the radix-2 parse panics (SeatIdMeaning, PanicMeaning) |
| BinaryBoarding.SeatIdMeaning | 2020/rust/day-5/src/lib.rs:5-15 | every boarding pass (seven F/B letters, three L/R letters) has a seat id, namely row * 8 + column, with row below 128, column below 8 and id below 1024 |
| BinaryBoarding.PassValue | 2020/rust/day-5/src/lib.rs:5-15 | the letters written for an id read back as the id modulo 2^n, with F/B in the first seven places and L/R after |
| BinaryBoarding.PassRoundTrip | 2020/rust/day-5/src/lib.rs:5-15 | every id below 1024 has a boarding pass whose seat id is that id |
| BinaryBoarding.PanicMeaning | 2020/rust/day-5/src/lib.rs:6-14 | the seat id is missing (the source panics) exactly when the replaced code, after an optional `+`, is empty, holds a non-binary character or reads as 2^16 or more |
| BinaryBoarding.Sample | 2020/rust/day-5/src/lib.rs:22-24 | the seat id of `FBFBBFFRLR` is 357 |
| PasswordPhilosophy.OccurrencesMeaning | 2020/rust/day-2/src/lib.rs:45-48 | the filtered count of the policy's character is its multiplicity in the password |
| PasswordPhilosophy.IsPasswordValidPart1 | 2020/rust/day-2/src/lib.rs:44-52 | the count policy, `None` where the `u8` conversion panics (Part1Meaning) |
| PasswordPhilosophy.Part1Meaning | 2020/rust/day-2/src/lib.rs:44-52 | part one answers exactly when the character occurs fewer than 256 times (the `u8` conversion panics otherwise), and then the password is valid iff that count lies between minimum and maximum inclusive |
| PasswordPhilosophy.IsPasswordValidPart2 | 2020/rust/day-2/src/lib.rs:54-58 | the position policy, `None` where a position is out of the password (Part2Meaning) |
| PasswordPhilosophy.Part2Meaning | 2020/rust/day-2/src/lib.rs:54-58 | part two answers exactly when both 1-based positions lie within the password (position 0 or past the end panics), and then the password is valid iff exactly one of the two positions holds the character; equal positions are never valid |
| PasswordPhilosophy.FirstSample | 2020/rust/day-2/src/lib.rs:61 | `1-3 a: abcde` is valid under both parts |
| PasswordPhilosophy.SecondSample | 2020/rust/day-2/src/lib.rs:62 | `1-3 b: cdefg` is valid under neither part |
| PasswordPhilosophy.ThirdSample | 2020/rust/day-2/src/lib.rs:63 | `2-9 c: ccccccccc` is valid under part one and not under part two |
| WaitForIt.WaysToWin | 2023/day-6/src/lib.rs:18-21 | the winning hold times, missing exactly on a `u64` overflow (WaysToWinMeaning, WaysToWinInterval) |
| WaitForIt.WaysToWinMeaning | 2023/day-6/src/lib.rs:18-21 | the ways to win are missing exactly when a distance overflows a `u64`, and otherwise are exactly the hold times `h <= time` with `h * (time - h)` above the record, strictly increasing |
| WaitForIt.WinsSymmetric | 2023/day-6/src/lib.rs:20 | holding for `h` wins exactly when holding for `time - h` does |
| WaitForIt.EndsNeverWin | 2023/day-6/src/lib.rs:20 | holding for 0 or for the whole race never wins |
| WaitForIt.DistanceMonotone | 2023/day-6/src/lib.rs:20 | up to half the race, a longer hold travels at least as far |
| WaitForIt.WinsInterval | 2023/day-6/src/lib.rs:18-21 | the winning hold times are an interval `lo..=time - lo` symmetric around half the race, where `lo` is the first winner |
| WaitForIt.SmallRaceFits | 2023/day-6/src/lib.rs:20 | a race shorter than 2^32 never overflows the distance |
| WaitForIt.WaysToWinInterval | 2023/day-6/src/lib.rs:18-21 | for a race shorter than 2^32, the ways to win are the written-out interval of winners |
| WaitForIt.FirstSample | 2023/day-6/src/lib.rs:86-96 | the race of time 7 and record 9 is won by holding 2 to 5 |
| WaitForIt.SecondSample | 2023/day-6/src/lib.rs:86-97 | the race of time 15 and record 40 is won by holding 4 to 11 |
| WaitForIt.ThirdSample | 2023/day-6/src/lib.rs:86-98 | the race of time 30 and record 200 is won by holding 11 to 19 |
| TreacheryOfWhales.TriangleSteps | 2021/rust/day-7/src/lib.rs:30-31 | the part-two formula `n * (n + 1) / 2` is the fuel `1 + 2 + ... + n` of steps that each cost one more |
| TreacheryOfWhales.FuelMonotone | 2021/rust/day-7/src/lib.rs:15-31 | under either rate, more steps never cost less fuel |
| TreacheryOfWhales.SeqMin | 2021/rust/day-7/src/lib.rs:10 | the minimum of the positions is one of them and no greater than any |
| TreacheryOfWhales.SeqMax | 2021/rust/day-7/src/lib.rs:11 | the maximum of the positions is one of them and no smaller than any |
| TreacheryOfWhales.MinTotalMeaning | 2021/rust/day-7/src/lib.rs:13-17 | the minimum over the candidates `lo..=hi` is the total of one of them and at most the total of each |
| TreacheryOfWhales.Steps | 2021/rust/day-7/src/lib.rs:15 | `abs_diff` of a crab and a position, the distance on which the fuel of either rate grows (FuelMonotone, TotalFartherAway) |
| TreacheryOfWhales.TotalFartherAway | 2021/rust/day-7/src/lib.rs:15 | a position at least as far from every crab costs at least as much in total |
| TreacheryOfWhales.OutsideNoCheaper | 2021/rust/day-7/src/lib.rs:10-13 | no position left of the leftmost crab or right of the rightmost costs less than that crab's position |
| TreacheryOfWhales.OptimalFuelCost | 2021/rust/day-7/src/lib.rs:9-37 | the least total fuel over the candidates, `None` where the source panics, and no position costing less (OptimalMeaning) |
| TreacheryOfWhales.OptimalMeaning | 2021/rust/day-7/src/lib.rs:9-37 | both parts panic exactly on an empty input or a candidate whose `u32` arithmetic overflows; otherwise the answer is the total fuel of a candidate between the leftmost and rightmost crab, and no position whatever costs less |
| ReportRepair.ParseNums | 2020/day-1/src/lib.rs:3-8 | the entries of a report, one per line, that parse as numbers (ParseShowAll, ParseNumsRoundTrip) |
| ReportRepair.ParseShowAll | 2020/day-1/src/lib.rs:3-8 | lines holding written entries, followed by an empty line, parse back to the entries; lines that do not parse are skipped |
| ReportRepair.ParseNumsRoundTrip | 2020/day-1/src/lib.rs:3-8 | a report written one entry per newline-terminated line, as in the tests, parses back to its entries |
| ReportRepair.FirstPairExists | 2020/day-1/src/lib.rs:11-17 | when some pair of positions stops the loops, a first such pair in loop order exists |
| ReportRepair.FirstPairUnique | 2020/day-1/src/lib.rs:11-17 | the first stopping pair in loop order is unique |
| ReportRepair.FindPair | 2020/day-1/src/lib.rs:10-20 | returns the entries of the first pair `i < j` in loop order whose sum is 2020; panics (`None`) when no pair stops the loops or the first one that does overflows `u32` |
| ReportRepair.PairFoundWhenSmall | 2020/day-1/src/lib.rs:10-20 | with entries below 2^31 no sum overflows, so a first pair summing to 2020 exists exactly when some pair sums to 2020 |
| ReportRepair.FirstTripleExists | 2020/day-1/src/lib.rs:23-31 | when some triple of positions stops the loops, a first such triple in loop order exists |
| ReportRepair.FirstTripleUnique | 2020/day-1/src/lib.rs:23-31 | the first stopping triple in loop order is unique |
| ReportRepair.FindTriplet | 2020/day-1/src/lib.rs:22-34 | returns the entries of the first triple `i < j < k` in loop order whose sum is 2020; panics (`None`) when no triple stops the loops or the first one that does overflows `u32` |
| ReportRepair.TripleFoundWhenSmall | 2020/day-1/src/lib.rs:22-34 | with entries below 2^30 no sum overflows, so a first triple summing to 2020 exists exactly when some triple sums to 2020 |
| ReportRepair.PairSample | 2020/day-1/src/lib.rs:37-52 | in the report of the tests the first pair is at positions 0 and 3, the entries 1721 and 299 |
| CubeConundrum.Power | 2023/day-2/src/lib.rs:14-16 | the product of red and green, both `u16`, always fits a `u32`; the power is missing exactly where the product of all three overflows |
| CubeConundrum.PowerMonotone | 2023/day-2/src/lib.rs:14-16 | a set within another has a power whenever the other does, and no greater |
| CubeConundrum.IsPossible | 2023/day-2/src/lib.rs:26-37 | true exactly when every revealed set is within the bag, colour by colour |
| CubeConundrum.GetMinimumSet | 2023/day-2/src/lib.rs:39-51 | the running maxima over the revealed sets, starting from zero, end as the componentwise maximum of all sets |
| CubeConundrum.MinimumSetMeaning | 2023/day-2/src/lib.rs:26-51 | a bag makes the game possible exactly when the minimum set fits in it: the minimum set is the least such bag |
| CubeConundrum.PossibleWithMinimum | 2023/day-2/src/lib.rs:26-51 | every game is possible with its own minimum set |
| CubeConundrum.MinimumSetAttained | 2023/day-2/src/lib.rs:39-51 | each count of the minimum set is 0 or is that colour's count in some revealed set |
| CubeConundrum.Sample | 2023/day-2/src/lib.rs:74-93 | the first game of the tests needs 4 red, 2 green and 6 blue cubes, a power of 48 |
| PassportProcessing.LastValueMeaning | 2020/rust/day-4/src/lib.rs:63-75 | a field is missing exactly when no pair has its key; otherwise its value is that of the last pair with the key |
| PassportProcessing.FromParsed | 2020/rust/day-4/src/lib.rs:51-78 | the loop over the pairs yields the passport whose every known field holds the value of the last pair with its key, unknown keys ignored |
| PassportProcessing.PresentMeaning | 2020/rust/day-4/src/lib.rs:63-75 | a field of the collected passport is present exactly when some pair has its key |
| PassportProcessing.IsBasicValid | 2020/rust/day-4/src/lib.rs:80-88 | presence of every field but `cid` (BasicValidMeaning, CountryIgnored) |
| PassportProcessing.BasicValidMeaning | 2020/rust/day-4/src/lib.rs:80-88 | a passport from pairs is basically valid exactly when the pairs name each of `byr`, `iyr`, `eyr`, `hgt`, `hcl`, `ecl` and `pid` |
| PassportProcessing.IsProperValid | 2020/rust/day-4/src/lib.rs:90-128 | presence plus the year, height, colour and id rules, implying basic validity and ignoring `cid` (ProperIsBasic, CountryIgnored, the rule lemmas below and the samples) |
| PassportProcessing.ProperIsBasic | 2020/rust/day-4/src/lib.rs:90-91 | a properly valid passport is basically valid |
| PassportProcessing.CountryIgnored | 2020/rust/day-4/src/lib.rs:80-128 | changing the country id changes neither kind of validity |
| PassportProcessing.YearValidShow | 2020/rust/day-4/src/lib.rs:92-103 | a year written in decimal below 65536 passes a year rule exactly when it lies in the rule's inclusive range |
| PassportProcessing.YearRules | 2020/rust/day-4/src/lib.rs:92-103 | a properly valid passport's birth, issue and expiration years parse as `u16` values in 1920..=2002, 2010..=2020 and 2020..=2030 |
| PassportProcessing.HeightCapture | 2020/rust/day-4/src/lib.rs:13 | the captures, when there are any, are two or three digits and the unit `cm` or `in`; that they are the regex's leftmost-first match is proved in `HeightCaptureMeaning` |
| PassportProcessing.HeightCaptureMeaning | 2020/rust/day-4/src/lib.rs:13 | the unanchored height regex (two or three digits, then `cm` or `in`) finds a capture exactly when some position starts a match, and then the captures of the least such position, three digits tried before two |
| PassportProcessing.HeightCaptureShow | 2020/rust/day-4/src/lib.rs:104-107 | a two- or three-digit number followed by a unit is captured as that number's text and that unit |
| PassportProcessing.HeightValidShow | 2020/rust/day-4/src/lib.rs:104-120 | such a height passes exactly when it lies in 150..=193 for `cm` or 59..=76 for `in`; a number over 255 fails the `u8` parse |
| PassportProcessing.PidDigits | 2020/rust/day-4/src/lib.rs:127 | an id of digits only passes the unanchored nine-digit regex exactly when it has at least nine digits |
| PassportProcessing.FirstInvalidSample | 2020/rust/day-4/src/lib.rs:246-247 | a passport with expiration year `1972` is not properly valid |
| PassportProcessing.SecondInvalidSample | 2020/rust/day-4/src/lib.rs:249-251 | a passport with expiration year `1967` is not properly valid |
| PassportProcessing.ThirdInvalidSample | 2020/rust/day-4/src/lib.rs:253-254 | a passport with hair colour `dab227` is not properly valid |
| PassportProcessing.FourthInvalidSample | 2020/rust/day-4/src/lib.rs:256-258 | a passport with eye colour `zzz` is not properly valid |
| PassportProcessing.FirstValidSample | 2020/rust/day-4/src/lib.rs:261-262 | the first passport of the valid list is properly valid |
| PassportProcessing.LastValidSample | 2020/rust/day-4/src/lib.rs:272 | the last passport of the valid list is properly valid |
| NoSpaceLeft.Directory.constructor | 2022/rust/day-7/src/lib.rs:21-33 | a new directory (the root is the one named `/`) has the given name, no files and no subdirectories, and is valid |
| NoSpaceLeft.Directory.OwnSize | 2022/rust/day-7/src/lib.rs:35-37 | the sum of the directory's file sizes, which `add_file` grows by exactly the file's size (AddFile) |
| NoSpaceLeft.Directory.SubdirTotalsMeaning | 2022/rust/day-7/src/lib.rs:39-45 | the totals that `get_total_size` adds up are, entry by entry, the total sizes of the subdirectories |
| NoSpaceLeft.Directory.TotalSize | 2022/rust/day-7/src/lib.rs:39-45 | the own size plus the totals of the subdirectories (SubdirTotalsMeaning), never below a subdirectory's total (SubdirTotalBound) |
| NoSpaceLeft.Directory.SubdirTotalBound | 2022/rust/day-7/src/lib.rs:39-45 | no subdirectory's total exceeds its parent's total |
| NoSpaceLeft.Directory.AllTotalSizes | 2022/rust/day-7/src/lib.rs:47-53 | one total per directory of the tree, the subdirectories' listings first and the directory's own total last (ListingShape, SubdirsListedFirst) |
| NoSpaceLeft.Directory.ListingShape | 2022/rust/day-7/src/lib.rs:47-53 | `get_all_total_sizes` lists exactly one entry per directory of the tree; its last entry is the directory's own total and no entry exceeds it |
| NoSpaceLeft.Directory.SubdirListingShape | 2022/rust/day-7/src/lib.rs:47-52 | the flattened listings of the first `n` subdirectories have one entry per directory in their trees, none above the sum of their totals |
| NoSpaceLeft.Directory.SubdirsListedFirst | 2022/rust/day-7/src/lib.rs:47-53 | each subdirectory's whole listing appears as one block, after the blocks of the subdirectories before it and before the directory's own total |
| NoSpaceLeft.Directory.AddFile | 2022/rust/day-7/src/lib.rs:55-57 | the file size is appended to the files; the own size and the total size both grow by exactly that size, and the tree stays valid |
| NoSpaceLeft.Directory.AddDir | 2022/rust/day-7/src/lib.rs:59-62 | a fresh empty directory with that name becomes the subdirectory found under that name: it takes the place of an existing one of that name, or joins at the end when there is none; names stay distinct and the tree stays valid |
| NoSpaceLeft.Directory.Append | 2022/rust/day-7/src/lib.rs:59-62 | inserting an empty directory under a new name adds it after the others and leaves the total size unchanged |
| NoSpaceLeft.Directory.Replace | 2022/rust/day-7/src/lib.rs:59-62 | inserting an empty directory under a name already present drops the old subdirectory, whose total is subtracted from the parent's total |
| NoSpaceLeft.Directory.Position | 2022/rust/day-7/src/lib.rs:64-66 | the index found holds a subdirectory with that name, and the count of subdirectories is returned exactly when no subdirectory has that name |
| NoSpaceLeft.Directory.Cd | 2022/rust/day-7/src/lib.rs:64-66 | `cd` yields a subdirectory exactly when one has that name, and the one yielded has that name; `None` stands for the panic of `unwrap` |
| NoSpaceLeft.Sample | 2022/rust/day-7/src/lib.rs:98-103 | for the tree of the tests the root totals 48381165, `cd("a")` finds `a`, and `a` totals 94853 |
| PassagePathing.ParseSizeMeaning | 2021/day-12/src/node.rs:58-68 | a name without upper-case letters is small, one with upper-case letters and no lower-case letters is large, and a name mixing both is refused (the `unreachable!` panic) |
| PassagePathing.Parse | 2021/day-12/src/node.rs:58-68 | `None` exactly when the name mixes cases; otherwise a fresh cave with that name, the size its case gives and no neighbours |
| PassagePathing.Node.constructor | 2021/day-12/src/node.rs:47-56 | a cave with the given name and size and no neighbours |
| PassagePathing.EqualKey | 2021/day-12/src/node.rs:31-45 | two caves are equal exactly when their names and sizes, the fields that are hashed, agree; the neighbours play no part |
| PassagePathing.Node.RcConnections | 2021/day-12/src/node.rs:76-82 | the neighbours of the cave that are still alive, in order (Live) |
| PassagePathing.Live | 2021/day-12/src/node.rs:76-82 | `rc_connections` keeps exactly the neighbours that are still alive, each taken from the list, and a list without repeats stays without repeats |
| PassagePathing.AddConnection | 2021/day-12/src/node.rs:70-74 | each cave gets the other appended to its neighbours, and a graph whose passages are listed at both ends stays so |
| PassagePathing.PathToString | 2021/rust/day-12/src/dfs.rs:8-14 | the names of a path joined by commas, which split back into the names (PathToStringNames) |
| PassagePathing.PathToStringNames | 2021/rust/day-12/src/dfs.rs:8-14 | splitting the text of a path at the commas gives back its names, in order, when no name holds a comma |
| PassagePathing.PathToStringInjective | 2021/rust/day-12/src/dfs.rs:8-14 | two paths through caves with distinct comma-free names have the same text only when they are the same path |
| PassagePathing.DfsVisitor.constructor | 2021/rust/day-12/src/dfs.rs:22-29 | the search stands on the start cave and has recorded nothing |
| PassagePathing.StartWalk | 2021/rust/day-12/src/dfs.rs:23-29 | the start cave alone is a path both searches may stand on |
| PassagePathing.StringsMembers | 2021/rust/day-12/src/dfs.rs:31-39 | the recorded texts are exactly the texts of the recorded paths |
| PassagePathing.DfsVisitor.AllPathsContains | 2021/rust/day-12/src/dfs.rs:31-34 | the path's text among the recorded texts, which are exactly the texts of the recorded paths (StringsMembers, AbsentWhenUnvisited) |
| PassagePathing.AbsentWhenUnvisited | 2021/rust/day-12/src/dfs.rs:31-34 | `all_paths_contains` is false for a path that no recorded path passes through |
| PassagePathing.DfsVisitor.AllPathsPush | 2021/rust/day-12/src/dfs.rs:36-39 | the path is appended and its text added, which keeps the texts those of the recorded paths |
| PassagePathing.DfsVisitor.RecordCurrent | 2021/rust/day-12/src/dfs.rs:44-46 | the `assert!` never fails: the path standing on `end` is not yet recorded; it is appended, and the texts stay those of the paths |
| PassagePathing.RecordOne | 2021/rust/day-12/src/dfs.rs:44-46 | a path just recorded from a complete walk extends the current path and is one the search records |
| PassagePathing.Contains | 2021/rust/day-12/src/dfs.rs:51-54 | `Vec::contains` on a path by cave equality, holding exactly when the path counts the cave at least once (ContainsCount) |
| PassagePathing.ContainsCount | 2021/rust/day-12/src/dfs.rs:51-54 | a path contains a cave exactly when it counts at least one cave equal to it |
| PassagePathing.OnceConnections | 2021/rust/day-12/src/dfs.rs:48-55 | keeps, in order and without repeats, exactly the neighbours other than `start` that are large or not yet on the path |
| PassagePathing.WalkSnoc | 2021/rust/day-12/src/dfs.rs:48-58 | stepping from a walk not at `end` to a live neighbour of its last cave, other than `start` and small only while it is below the limit, gives a walk |
| PassagePathing.BudgetSnoc | 2021/rust/day-12/src/dfs.rs:57-63 | a step never raises the visits left to small caves, and entering a live small cave still open lowers them |
| PassagePathing.LiveCandidates | 2021/rust/day-12/src/dfs.rs:48-55 | caves chosen without repeats from the live neighbours are live neighbours of the cave the search stands on |
| PassagePathing.ChildUnvisited | 2021/rust/day-12/src/dfs.rs:57-61 | no recorded path passes through the path extended by the next candidate, so the `continue` is never taken |
| PassagePathing.ExploredStep | 2021/rust/day-12/src/dfs.rs:57-64 | the paths recorded below candidate `k` extend the path by that candidate, so those recorded in the loop so far extend it by one of the first `k + 1` |
| PassagePathing.ProgressStep | 2021/rust/day-12/src/dfs.rs:57-64 | searching below candidate `k` keeps the paths recorded before the loop and moves the loop on by one candidate |
| PassagePathing.Descend | 2021/rust/day-12/src/dfs.rs:57-63 | stepping to a candidate gives a walk that no recorded path passes through, whose text is not recorded, and which has strictly less search left below it |
| PassagePathing.DfsVisitor.FindOnce | 2021/rust/day-12/src/dfs.rs:41-66 | the search ends and restores the current path; every path it records extends that path, steps from cave to live neighbouring cave, ends at `end`, never re-enters `start` and holds each small cave at most once; every such path through the current path is recorded; and the texts stay those of the paths |
| PassagePathing.DfsVisitor.ExploreOnce | 2021/rust/day-12/src/dfs.rs:57-64 | after the loop over the filtered neighbours, every path recorded during it extends the current path and is one the search records, and every such path through the current path is recorded |
| PassagePathing.DfsVisitor.VisitOnce | 2021/rust/day-12/src/dfs.rs:58-63 | the extended path is not recorded yet, and after the recursive call and the pop the path is restored, the paths recorded since the loop began extend it by one of the first `k + 1` candidates, and every path the search records that runs through one of those candidates is recorded |
| PassagePathing.CoveredStep | 2021/rust/day-12/src/dfs.rs:57-64 | once the search below candidate `k` has recorded every path through it, every path through the first `k + 1` candidates is recorded |
| PassagePathing.CoveredDone | 2021/rust/day-12/src/dfs.rs:57-65 | when every candidate is covered and every path through the current path goes on to a candidate, every path through the current path is recorded |
| PassagePathing.EndComplete | 2021/rust/day-12/src/dfs.rs:44-46 | a path standing on `end`, once recorded, is the only path the search records through it |
| PassagePathing.CountPrefix | 2021/rust/day-12/src/dfs.rs:53-98 | a path counts each cave no more often than any path it begins |
| PassagePathing.NextLive | 2021/rust/day-12/src/dfs.rs:48-89 | the cave a path takes after a prefix is among the live neighbours (`rc_connections`) of the prefix's last cave |
| PassagePathing.NextCount | 2021/rust/day-12/src/dfs.rs:53-98 | the cave a path with each small cave at most `limit` times takes after a prefix is, when small, on the prefix fewer than `limit` times |
| PassagePathing.NextFacts | 2021/rust/day-12/src/dfs.rs:48-99 | the cave a recorded path takes after a prefix is a live neighbour of its last cave, is not `start`, and is small only while the prefix holds it fewer than `limit` times |
| PassagePathing.OnceNext | 2021/rust/day-12/src/dfs.rs:48-55 | every path of the once-search through the current path goes on to a cave the filter keeps |
| PassagePathing.TwiceNext | 2021/rust/day-12/src/dfs.rs:87-107 | every path of the twice-search through the current path goes on to a cave both filters keep |
| PassagePathing.FirstRepeated | 2021/rust/day-12/src/dfs.rs:75-85 | `Some` of a small cave of the path that it holds at least twice, or `None` when it holds no small cave twice |
| PassagePathing.TwiceConnections | 2021/rust/day-12/src/dfs.rs:87-107 | keeps, in order and without repeats, exactly the neighbours other than `start` that are large or on the path fewer than twice and differ from the doubled cave |
| PassagePathing.VisitedFilterRedundant | 2021/rust/day-12/src/dfs.rs:100-106 | the second filter never removes a cave the first keeps, so every small cave may occur twice, not only one of them |
| PassagePathing.DfsVisitor.FindTwice | 2021/rust/day-12/src/dfs.rs:68-119 | the search ends and restores the current path; every path it records extends that path, steps from cave to live neighbouring cave, ends at `end`, never re-enters `start` and holds each small cave at most twice; every such path through the current path is recorded; and the texts stay those of the paths |
| PassagePathing.DfsVisitor.ExploreTwice | 2021/rust/day-12/src/dfs.rs:110-117 | after the loop over the filtered neighbours, every path recorded during it extends the current path and is one the search records, and every such path through the current path is recorded |
| PassagePathing.DfsVisitor.VisitTwice | 2021/rust/day-12/src/dfs.rs:111-116 | the extended path is not recorded yet, and after the recursive call and the pop the path is restored, the paths recorded since the loop began extend it by one of the first `k + 1` candidates, and every path the search records that runs through one of those candidates is recorded |

## Left out

- DiskFragmenter.DefragFs: requires a non-empty disk map (the source unwraps the last file id and panics on an empty one) and every file to have a positive size; a zero-size file makes the source's `windows(0)` panic, which the model does not represent as a result.
- DiskFragmenter.Checksum: sums in unbounded integers; the source's `usize` sum could overflow on inputs far larger than puzzle inputs.
- SupplyStacks.Perform: reports a panic but does not describe the partly moved stacks a panicking run leaves behind; the source aborts at that point.
- SupplyStacks: `Instruction::parse`, `parse_many` and `parse_whole_file` are thin wrappers over a parser-combinator library; the model takes parsed instructions and stacks directly. The `u16` width of `num` is not modelled.
- DistressSignal: packet integers are u32 in the source and unbounded naturals here; the comparison does not depend on the width. The nom packet parser is not part of this model.
- SyntaxScoring.FindAutocompleteScore: the `u64` overflow is modelled as the panic of a debug build, which is how the tests run; a release build would wrap the score silently instead, which is not modelled.
- SyntaxScoring.FindCorruptionScore: the `eprintln!` message printed before returning the score of a mismatched closer is output only and is not modelled; the score returned is.
- DumboOctopus: the grid is one row-major array of 100 energies and one of 100 flags instead of a 10 by 10 array of pairs, and the nested row and column loops are one loop over the flat index in the same order. Energies are unbounded integers rather than `u8` (they never exceed 18) and the total is a natural rather than a `u32`.
- DumboOctopus: only the first step of the tests is proved (`SampleFirstStep`); the grids and flash totals after steps 2 to 10 are not, since they would need the verifier to run the cascades of the sample grid cell by cell. The `Debug` rendering and `total_flashes()` getter (the `totalFlashes` field) have no separate member.
- Lanternfish: timers are naturals rather than `u8`, day counts naturals rather than `u16`, and totals unbounded rather than `usize`. `LanternFish` is a copied value, so `tick`'s update of the fish is the assignment to its slot in the vector. The map simulation reads only timers 0 to 8, so a fish with a larger timer is dropped there but counted by the vector simulation; `SimulationsAgree` therefore requires every timer to be at most 8, as every puzzle input is. The 256-day answer of part 2 is not proved. `parse_lanternfish` is a parser-combinator wrapper and is not part of this model.
- MonkeyInTheMiddle: worry levels and counters are unbounded naturals rather than `u128`; with the reduction modulo `MAGIC_NUMBER` part 2 never comes near the width, while part 1 levels are not bounded in the source either.
- MonkeyInTheMiddle.InspectAndThrow: requires a positive test modulus, and the turn functions require each test's targets to be other monkeys of the group; a zero modulus makes the source panic, an out-of-range target panics on indexing, and a monkey throwing to itself loops forever.
- MonkeyInTheMiddle: `process_part1` and `process_part2` (20 and 10 000 rounds) and the sample item lists after rounds 1 to 5 and 20 are not proved; only the first turn of the sample is. The ignored part-2 test asserts counts for rounds 2000 to 10000 without running further rounds after round 1000. The parser-combinator reader of the notes is not part of this model.
- CathodeRayTube: the register and the signal total are unbounded integers rather than `i32`, and the cycle a natural rather than `u32`; the source would overflow only on programs far longer than the puzzle's. The source tests `(cycle - 20) % 40 == 0` with a remainder that truncates toward zero, which is zero for the same cycles as the model's remainder. `get_crt_output` (rendering the pixels as rows of `#` and `.`) and the parser-combinator reader of instructions are not part of this model.
- GiantSquid: numbers are naturals rather than `u8` and the score unbounded rather than `u32`; with numbers below 256 the source's `u32` cannot overflow. `has_won` and `score` are the card's `HasWonCard` and `ScoreCard`, which read the array and apply `HasWon` and `Score`. `BingoCard::from_number_arrays` takes a sequence of five rows of five numbers rather than a fixed-size array, so its `requires` states the shape the source's type guarantees. The parser-combinator reader of the numbers and cards is not part of this model, and the sample game (4512 and 1924) is not proved.
- Dive: command distances are naturals rather than `u8` and the coordinates unbounded rather than `i32`, so the model has no overflow. `position_product` is the class's `PositionProduct`, the product of depth and horizontal coordinate, with no property beyond its definition. The parser-combinator reader of commands is not part of this model.
- GrovePositioningSystem.MixList: follows the corrected wrapping rule of the Findings below; the rule as written is the `AsWritten` case of `NewIndex`, which `RulesAgreeOnShortMoves` shows agrees with the corrected one while `idx + offset` stays within `2 - len ..= 2 * len - 2`; `SampleMix` proves that the test's example mixes to the expected list under both rules. Values are unbounded integers rather than `i32`, and the `as i32` casts of the length and of the index are taken to be exact.
- GrovePositioningSystem: `parse_list`, the tracing calls, and `process_part1` with its grove-coordinate sum in `bin.rs` are not part of this model.
- GuardGallivant: coordinates and bounds are naturals rather than `usize`, so `x + 1` cannot overflow; `checked_sub` is the `None` of a step west or north from column or row 0. `input.lines()` is taken as already split into rows, and a parsed map whose rows are shorter than the first is accepted as the source accepts it.
- GuardGallivant: `process_part1` and `process_part2` in `bin.rs` (counting visited cells, trying every extra obstacle in parallel) are not part of this model; `get_all_visited_coords_assuming_no_loop`, which `bin.rs` calls, is not among the source files of this model. The sample's walk off the map is not proved.
- RegolithReservoir: coordinates are `nat` rather than `u32`; `max_rock_y + 1` and `y + 1` cannot overflow in the model.
- RegolithReservoir: the `nom` parser `parse_lines`, the `Debug` drawing and the part 1 and part 2 drivers (counting grains until the source blocks) are not modelled; the sample answers 24 and 93 are not proved.
- RegolithReservoir.GetNextPoint: the map's queries are functions of its rock and sand sets rather than methods on the map; `x - 1` at column 0, which underflows in the source, is modelled as a panic.
- PyroclasticFlow: coordinates are `nat` rather than `u64`; the `y - 1` and `x - 1` the source guards are guarded the same way.
- PyroclasticFlow.Chamber.DropRock: requires a non-empty jet pattern; the source's `directions.next().unwrap()` panics on an empty one. The jet iterator `Cycle` is modelled as an index into the pattern.
- PyroclasticFlow.Chamber.DropRock: the jet push is the function `Shifted` rather than the inline `all`/`map` iterator chain; `max_height` and `get_start_point` are functions of the occupied set.
- PyroclasticFlow: the drivers in `bin.rs` (2022 and 10^12 rocks) and the sample answer 3068 are not modelled; only the first rock of the sample is proved.
- Fertilizer: numbers are naturals rather than `u64`, so `source + length - 1` and `destination + number - source` cannot overflow in the model.
- Fertilizer.Convert: requires a triplet with a positive length, the condition the source's `debug_assert!` checks.
- Fertilizer.ReinterpretedLocationsMeaning: the parallel iterators yield locations in an order the source does not fix (`par_bridge`); the model lists them in seed order and its properties are about which locations occur.
- Fertilizer: the parser-combinator reader `parse_almanac` and the minimum-location drivers of `bin.rs` are not part of this model.
- MirageMaintenance: readings are unbounded integers rather than `i64`, so the differences and sums cannot overflow in the model. The parser-combinator reader `parse` and the part drivers of `bin.rs` are not part of this model.
- CamelCards.GetCardMap: counts are unbounded `nat`s rather than `u8`; with five cards the `u8` never overflows.
- CamelCards.GetType: `into_values` yields counts in an unspecified hash order; the model lists them in card order before sorting, which sorting makes irrelevant.
- CamelCards.FromCounts: the `debug_assert!` that the counts add up to five is not modelled; `FromCountsTotal` shows the `unreachable!` arm is hit exactly when they do not form such a split.
- CamelCards: `parse_hands_and_bids` (hands with their bids, built from parser combinators), the derived lexicographic order on hands, and the part-one and part-two drivers that rank hands and sum the winnings are not part of this model.
- BridgeRepair: numbers are unbounded integers; the `i64` overflow of `+`, `*` and `10^d` on large inputs is not modelled.
- BridgeRepair: `parse_equations` (line splitting and `unwrap`ped number parsing) is not part of this model.
- BridgeRepair: the samples `292: 11 6 16 20` (8 sequences) and `7290: 6 8 6 15` (27 sequences) are not restated; `WaysToSolveSimpleCounts` and `WaysToSolveWithConcatCounts` cover every equation.
- BridgeRepair.WaysToSolveSimple: for no numbers the `u32` length `0 - 1` underflows; the model answers `None` for that panic.
- RedNosedReports: levels are `i8` and the score sum an `i32`; the model uses unbounded integers, which agree on every report of fewer than 2^31 levels.
- RedNosedReports: `get_reports` (line splitting and `unwrap`ped parsing) and the part drivers that count the passing reports are not part of this model; the samples state each report's verdict instead of the counts 2 and 4.
- RedNosedReports.IsReportSafeWithProblemDampener: the reused `Vec` buffer is a sequence reassigned to empty after each check; its retained capacity is not modelled.
- PrintQueue.OrderPageList: the standard library's `sort_by` is not shown; it is modelled as a stable insertion sort. When the comparison is a total order on a list's pages, every stable sort gives the same result. When it is not, Rust leaves the order unspecified, and since Rust 1.81 `sort_by` may also panic on detecting that the comparison is not a total order; the model never panics there and still returns a permutation with no neighbouring pair comparing `Greater`.
- PrintQueue: the part drivers (keeping the lists that `order_page_list` leaves unchanged and summing middle pages, expected 143 and 123 on the test input) are not part of this model.
- PrintQueue.ParseInput: the test-input parse at lines 96-134 is covered by `ParseRender` for every input written in that format rather than restated for the literal text.
- BinaryDiagnostic: values are unbounded naturals rather than `u32`; `u32::pow(2, idx)` overflows for arrays of more than 32 bits and the power consumption product can overflow, neither of which the model represents. `parse_bit_arrays` is a parser-combinator reader and is not part of this model; rows are given as bit sequences of length `n`.
- BinaryDiagnostic: the power consumption of the test input is not proved, as the source has no test for it; `EpsilonIsComplement` covers every input.
- BinaryDiagnostic: the CO2 filter can empty the report (`Co2CanEmpty`), which makes the source's `assert!` panic; the model answers `None` there and proves no condition under which the CO2 rating exists.
- PointOfIncidence.IsRowOfSmudgedSymmetry: counts in unbounded integers; the source's `count_ones() as u8` truncates a count of 256 or more and `errors +=` can overflow a `u8`, which only rows far longer than puzzle rows reach.
- PointOfIncidence.IsRowOfSmudgedSymmetry: the source XORs two bit vectors of possibly different lengths; the model counts differing cells over the shorter length, which is what XOR gives on the rectangular scans the puzzle uses.
- PointOfIncidence.LinesOfSymmetry: requires a rectangular scan; on ragged scans the source's column slices can panic in ways that depend on row order, which the model does not represent.
- PointOfIncidence: the `find_lines_of_symmetry` tests on the four larger scans and the parse test on the literal input are not restated; the example scans are given as parsed grids. The `bin.rs` drivers read files and print answers and are not part of this model.
- TreetopTreeHouse: heights are naturals rather than `u8` and scores unbounded rather than `u32`, so the product of the four distances cannot overflow. The grid is given as a square sequence of rows rather than a const-generic array; both methods require at least one row, since `N - 1` underflows for `N == 0`. The column loops of both methods are the separate methods `FillVisibleRow` and `FillScoreRow`.
- TreetopTreeHouse: the parser-combinator reader `parse_height_grid` and `find_best_scenic_score` (the maximum of the score grid) are not part of this model; the example grid is given as parsed heights.
- GearRatios.ParseSchematic: positions are character columns; the source's `start`/`end` are byte offsets, which differ only on lines with characters outside ASCII.
- GearRatios: `\d` is taken as the ASCII digits `0`-`9`; the source's Unicode-aware `\d` also matches other decimal digits (whose `parse::<usize>` would then panic).
- GearRatios: numbers are unbounded; the `usize` parse overflow and the overflowing ratio product (both panics) are not modelled.
- GearRatios: the parse test on the literal example text is not restated (the example schematic is that test's expected value); the gear-ratio test of the `bin` driver is not part of this model.
- HydrothermalVenture: `parse_lines` (a `nom` parser) and the overlap count of the `bin` driver are not part of this model.
- HydrothermalVenture.GetPointsOnStraightOrDiagonalLines: follows the corrected walk of the Findings below, so on a diagonal whose last step overflows, such as the test input's `8,0 -> 0,8`, it returns the whole line where the source as written panics in a build with overflow checks; the code as written is `DiagonalLoopsAsWritten` (the function `DiagonalAsWritten`), and the member's second ensures ties the two together wherever no overflow happens.
- HydrothermalVenture.DiagonalLoopsAsWritten: the overflow is a panic (`None`), as in a build with overflow checks; a build without them wraps and is not modelled.
- BeaconExclusionZone: coordinates are unbounded integers; the `i32` arithmetic (`sy - dist - 1`, `max * 15`), the `u32` distance sum and the `as i32` cast of the distance are assumed not to overflow.
- BeaconExclusionZone: `get_tuning_frequency_of_beacon_pos` (a parallel search through a mutex-guarded set) and `parse_sensor_beacon_pairs` (a `nom` parser) are not part of this model.
- BoilingBoulders: `parse_points` (a `nom` parser) is not modelled; points are given as a list of triples.
- BoilingBoulders: coordinates are unbounded integers; the `i32` arithmetic of the source cannot overflow for the puzzle's small inputs and is not modelled.
- BoilingBoulders: the order in which a `HashSet` is iterated is left open (an arbitrary remaining point is picked each time); `FloodPass` shows that one pass floods the same set in every order, and FloodUnique that the final flood does not depend on it.
- BoilingBoulders: the puzzle's thirteen-cube example (exterior area 58) is not proved; only the two-cube tests are.
- ResonantCollinearity: the map is given as its lines (`str::lines`); the `test_parse_map` sample (a 12×12 map) is not proved, as unfolding the map cell by cell is too large for a direct proof.
- ResonantCollinearity: coordinates are unbounded integers; the `as i32` casts of the source agree with them for maps smaller than 2^31 in each direction.
- ResonantCollinearity.FindComplexAntinodes: requires a list without repeats; two equal antennas would make the source's stepping `loop` run forever (a zero step never leaves the map), and `parse_map` never lists a place twice (AntennasOrdered).
- ResonantCollinearity: `process_part1`/`process_part2` in `bin.rs`, which union the per-frequency sets, are not part of this model.
- CeresSearch: `parse_grid` is taken as given (the grid is a sequence of rows of characters); it is the `Lines` split of the text module.
- CeresSearch: the counts on the 10x10 example grid (18 and 9) are not proved; unfolding the scans over a literal grid of that size is beyond the solver budget.
- CosmicExpansion: the ten-row example of the parser test is replaced by a two-row image of the same shape; the round-trip lemma covers any image.
- CosmicExpansion: the `unreachable!` arm of the row parser cannot be reached (the pattern admits only `.` and `#`) and has no counterpart.
- CosmicExpansion: the galaxy expansion and pair sum of `bin.rs` are not part of this model.
- HandyHaversacks: the `nom` rule parser (`parse.rs`) is not part of this model; rules are given as values. Counts are unbounded naturals, not `u16`/`usize`.
- HandyHaversacks: the iteration order of the hash maps and sets is modelled by arbitrary choice (`:|`), which covers every order.
- HowManyInside: loops that never end are represented by the `NeverFinishes` outcome; the model does not prove the converse of InsideMeaning (that acyclic rules with distinct colours and no dangling references always finish).
- HandyHaversacks: the sample answers 4 and 126 are not proved.
- RockPaperScissors: the round scores and the input loop live in the drivers (`bin.rs`), which are not part of this model.
- SonarSweep: the `nom` depth parser is not modelled; depths are given as `u32` values. An overflowing window sum is modelled as a panic (debug-build arithmetic); a release build would wrap instead.
- CampCleanup: the concrete parse tests (`parse_single_range_test`, `parse_ranges_test`) are covered by the round-trip lemmas rather than by evaluating the literal lines.
- RucksackReorganization: rucksacks are ASCII letters, so the byte length the source halves is the character count; a split inside a multi-byte character (a panic in the source) is not modelled.
- CountCollisions: requires `down >= 1`; with `down == 0` the source loops forever on a non-empty map. `usize` overflow of the column is not modelled.
- TobogganTrajectory: the `nom` map parser and the product over five slopes in the driver are not part of this model, and the sample answers 7 and 336 are not proved.
- TuningTrouble: the source slices bytes; the model works on characters, which agree on the ASCII datastream. The sample is proved from its first seven characters; the answer 19 for fourteen-character markers is not proved.
- BinaryBoarding: the binary that reads the passes from a file and finds the highest and the missing seat id (2020/rust/day-5/src/bin) is not part of this model; only `get_seat_id` is modelled.
- BinaryBoarding.Sample: only the first of the four test passes is stated; the other three follow from PassRoundTrip in the same way.
- PasswordPhilosophy: the nom parser of the policy lines (2020/rust/day-2/src/lib.rs:17-42) is left out; it is a parser-combinator library call, and the model takes the parsed policies and passwords as values.
- PasswordPhilosophy: the binary that counts the valid lines (2020/rust/day-2/src/bin) is not part of this model.
- WaitForIt: the nom parser of the races (2023/day-6/src/lib.rs:24-50) is left out; the model takes the races as values.
- WaitForIt.WaysToWin: the iterator is lazy; the model collects it, so an overflow anywhere in `0..=time` is a panic (debug build semantics; a release build would wrap instead).
- TreacheryOfWhales: the nom parser of the positions (2021/rust/day-7/src/lib.rs:5-7) is left out; the model takes the positions as values.
- TreacheryOfWhales.OptimalFuelCost: overflow follows debug-build semantics (a panic); a release build would wrap, which is not modelled.
- ReportRepair.FindPair, ReportRepair.FindTriplet: overflow follows debug-build semantics (a panic); a release build would wrap, which is not modelled.
- ReportRepair: the binaries under 2020/day-1/src/bin that read the input file and print the products are not part of this model.
- CubeConundrum: the nom parser of the games (2023/day-2/src/parse.rs) is left out; the model takes the games as values.
- CubeConundrum.Power: overflow follows debug-build semantics (a panic); a release build would wrap, which is not modelled.
- PassportProcessing: the nom parser of the batch text (2020/rust/day-4/src/lib.rs:18-49) is left out; the model takes each passport's key and value pairs as values.
- PassportProcessing: the regexes' `\d` matches any Unicode digit in the Rust regex crate; the model uses ASCII digits, which are all the pair parser admits in a value.
- PassportProcessing: the middle two passports of the valid test list and the fourth passport's other failures are not stated; each sample lemma states the one field that decides it.
- NoSpaceLeft: the subdirectories' hash map is a sequence, and its unspecified iteration order is the sequence's order; `get_all_total_sizes` is therefore stated block by block, not as one fixed order.
- NoSpaceLeft.Directory.TotalSize: sums sizes as unbounded integers; the source's `u64` sum would overflow only for trees far larger than a puzzle input.
- NoSpaceLeft.Directory.AddDir: states the change in the total size only through `Append` and `Replace`, which it calls, not in its own contract.
- NoSpaceLeft: directories shared through `Rc<RefCell<...>>` are objects, and each operation is proved for the directory it is applied to; what a change to an attached subdirectory does to its ancestors is not stated, and adding a directory below one that is already attached breaks the ancestors' invariant, because their footprints would have to grow with it.
- NoSpaceLeft: the shell-session parser (`parse.rs`, `from_shell_output`) is not part of this model; the tree of the tests is described directly.
- PassagePathing.ParseSize: compares with an ASCII case mapping; `str::to_lowercase` and `to_uppercase` also map non-ASCII letters.
- PassagePathing: a node's `Weak` references are upgraded when the node is in the set `owned`, which stands for the nodes the graph still holds; reference counts and dropping are not modelled.
- PassagePathing.DfsVisitor.FindOnce: requires a graph in which no two caves share a name (as `Graph::add_node` ensures), no name holds a comma, no cave lists a neighbour twice and no two large caves are joined. Without the last the search does not end, and without the others the `continue` could be taken (it skips the pop) or the `assert!` could fail; those runs are not modelled.
- PassagePathing.DfsVisitor.FindTwice: requires the same graph as `FindOnce`, and lets every small cave occur twice, as the code does; the filter against `visited_small_cave_twice` removes nothing the first filter keeps (`VisitedFilterRedundant`), so paths with several doubled small caves are recorded too. Dropping those is done by the driver in `lib.rs`, which is not part of this model.
- PassagePathing.FirstRepeated: picks the first doubled small cave in path order; the source takes the first entry of a hash map's counts, whose order is unspecified. Which cave it picks does not matter, by `VisitedFilterRedundant`.
- PassagePathing: the input parser (`parse.rs`) and the driver that builds the graph and counts the paths (`lib.rs`, `bin.rs`) are not part of this model.

## Findings

| source | as written | input that shows it | evidently intended | confidence | as-written member | corrected member |
|---|---|---|---|---|---|---|
| 2022/rust/day-20/src/lib.rs:32-39 | `mix_list` wraps a new index at or past the length as `(sum + 1) % len` and a negative one as `(sum - 1) % len`, that is modulo the full length, although the moved number travels among the `len - 1` others | `5, 0, 1`: the 5 moves 5 places among 2 others, two laps and one place, but index `(0 + 5 + 1) % 3 == 0` puts it back where it was; mixing ends as `5, 1, 0` rather than the circular order `5, 0, 1` | wrap `idx + offset` modulo `len - 1`, keeping index `len - 1` for a remainder of 0 | not executed | GrovePositioningSystem.AsWrittenOvershoots | GrovePositioningSystem.CorrectedLandsBefore |
| 2021/rust/day-5/src/lib.rs:77-92 | the diagonal loops push a point and then step both `u32` coordinates, so after the last point a coordinate that has reached 0 is decremented | `8,0 -> 0,8`, a line of the test input: after pushing `(0, 8)` the loop computes `0 - 1` in `u32`, which overflows | stop after the point where a coordinate reaches its end, giving the nine points `(8, 0)` to `(0, 8)` | not executed; a build without overflow checks wraps instead, and the loop condition then ends the walk unless both end coordinates are 0 | HydrothermalVenture.AsWrittenUnderflows | HydrothermalVenture.CorrectedWalkReachesEnd |
